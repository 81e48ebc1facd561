/** Queues kept in a ring of slots, with counters that wrap around. */
module Rings {
  /** The slot that entry number `n` goes into. */
  function Slot(n: nat, num: nat): (i: nat)
    requires 0 < num
    ensures i < num
  {
    n % num
  }

  /** A ring of `num` slots holds the queue `q`, the last entry put in being number `count` - 1. */
  ghost predicate RingHolds<T>(num: nat, ring: seq<T>, count: nat, q: seq<T>)
  {
    && 0 < num && |ring| == num && |q| <= num && |q| <= count
    && forall k :: 0 <= k < |q| ==> ring[Slot(count - |q| + k, num)] == q[k]
  }

  /** The next entry goes into a slot that none of the waiting entries is in. */
  lemma Pushed<T>(num: nat, ring: seq<T>, count: nat, q: seq<T>, x: T)
    requires RingHolds(num, ring, count, q) && |q| < num
    ensures RingHolds(num, ring[Slot(count, num) := x], count + 1, q + [x])
  {
    hide Slot;
    var ring', q' := ring[Slot(count, num) := x], q + [x];
    forall k | 0 <= k < |q'|
      ensures ring'[Slot(count + 1 - |q'| + k, num)] == q'[k]
    {
      if k < |q| {
        OtherSlot(count - |q| + k, count, num);
      }
    }
  }

  lemma OtherSlot(a: nat, b: nat, num: nat)
    requires a < b < a + num
    ensures Slot(a, num) != Slot(b, num)
  {
    var r, d := a % num, b - a;
    if r + d < num {
      Remainder(b, num, a / num, r + d);
    } else {
      Distribute(num, a / num, 1);
      Remainder(b, num, a / num + 1, r + d - num);
    }
  }

  lemma Popped<T>(num: nat, ring: seq<T>, count: nat, q: seq<T>)
    requires RingHolds(num, ring, count, q) && |q| > 0
    ensures RingHolds(num, ring, count, q[1..]) && ring[Slot(count - |q|, num)] == q[0]
  {
    hide Slot;
    var rest := q[1..];
    forall k | 0 <= k < |rest|
      ensures ring[Slot(count - |rest| + k, num)] == rest[k]
    {
      assert rest[k] == q[k + 1] && count - |rest| + k == count - |q| + (k + 1);
    }
    assert ring[Slot(count - |q| + 0, num)] == q[0];
  }

  /** A counter that wraps picks the same slot as the true count when the number of slots divides the wrap. */
  lemma SameSlot(count: nat, num: nat, wrap: nat)
    requires 0 < num && 0 < wrap && wrap % num == 0
    ensures Slot(count % wrap, num) == Slot(count, num)
  {
    var m, q := wrap / num, count / wrap;
    Exact(wrap, num);
    Regroup(wrap, num, m, q);
    Whole(count, wrap);
    SlotOfSum(count, num, m * q, count % wrap);
  }

  lemma Exact(a: nat, b: nat)
    requires 0 < b && a % b == 0
    ensures a == b * (a / b)
  {
  }

  lemma Whole(a: nat, b: nat)
    requires 0 < b
    ensures a == b * (a / b) + a % b
  {
  }

  lemma Regroup(a: nat, b: nat, c: nat, d: nat)
    requires a == b * c
    ensures a * d == b * (c * d)
  {
  }

  lemma SlotOfSum(n: nat, num: nat, k: nat, x: nat)
    requires 0 < num && n == num * k + x
    ensures Slot(n, num) == Slot(x, num)
  {
    Multiples(x, num, k);
  }

  lemma Multiples(x: nat, num: nat, k: nat)
    requires 0 < num
    ensures (num * k + x) % num == x % num
    decreases k
  {
    if k > 0 {
      Multiples(x, num, k - 1);
      var y := num * (k - 1) + x;
      assert num * k + x == y + num;
      Around(y, num);
    }
  }

  lemma Around(y: nat, num: nat)
    requires 0 < num
    ensures (y + num) % num == y % num
  {
    Distribute(num, y / num, 1);
    Remainder(y + num, num, y / num + 1, y % num);
  }

  /** Quotient and remainder are unique. */
  lemma Remainder(x: nat, num: nat, q: nat, r: nat)
    requires x == num * q + r && r < num
    ensures x % num == r
  {
    var d := q - x / num;
    Distribute(num, x / num, d);
    Sizes(num, d);
  }

  lemma Distribute(a: int, b: int, c: int)
    ensures a * (b + c) == a * b + a * c
  {
  }

  lemma Sizes(num: int, d: int)
    requires num >= 0
    ensures d >= 1 ==> num * d >= num
    ensures d <= -1 ==> num * d <= -num
  {
    if d >= 1 {
      Distribute(num, d - 1, 1);
    } else if d <= -1 {
      Distribute(num, d + 1, -1);
    }
  }
}
