/** The buffer cache: a fixed table of buffers threaded on a doubly linked ring in order of last use.
    The ring is kept as the `next` and `prev` index tables of the buffers, with the list head as
    node number `nbuf`.  Every method is one critical section of the original, so an execution of any
    number of processes is a sequence of these calls. */
module BufferCache {
  import opened Blocks

  datatype Buf = Buf(
    valid: bool,             // has data been read from disk?
    dev: nat,
    blockno: nat,
    owner: Option<nat>,      // pid holding the buffer's sleep lock
    refcnt: nat,
    data: Block)
  {
    predicate Holds(d: nat, b: nat) { dev == d && blockno == b }
  }

  /** One block written to the device. */
  datatype Write = Write(blockno: nat, data: Block)

  // ---------------------------------------------------------------- the ring

  /** The k-th node of the ring, the list head standing before the first and after the last. */
  function Node(order: seq<nat>, head: nat, k: int): nat
    requires -1 <= k <= |order|
  {
    if k == -1 || k == |order| then head else order[k]
  }

  /** `order` lists, most recent first, distinct nodes below `head`; with `head` they form exactly
      one cycle of `next`, and `prev` is its reverse. */
  ghost predicate Ring(order: seq<nat>, next: seq<nat>, prev: seq<nat>, head: nat)
  {
    && |next| == |prev| == head + 1
    && (forall k :: 0 <= k < |order| ==> order[k] < head)
    && (forall j, k :: 0 <= j < k < |order| ==> order[j] != order[k])
    && (forall k :: -1 <= k < |order| ==> next[Node(order, head, k)] == Node(order, head, k + 1))
    && (forall k :: 0 <= k <= |order| ==> prev[Node(order, head, k)] == Node(order, head, k - 1))
  }

  /** `order` holds every node, and the times they were last moved to the front decrease along it. */
  ghost predicate ByAge(order: seq<nat>, stamp: seq<nat>, clock: nat)
  {
    && |order| == |stamp|
    && (forall i :: 0 <= i < |stamp| ==> i in order)
    && (forall i :: 0 <= i < |stamp| ==> stamp[i] < clock)
    && (forall k :: 0 <= k < |order| ==> order[k] < |stamp|)
    && (forall j, k :: 0 <= j < k < |order| ==> stamp[order[j]] > stamp[order[k]])
  }

  function Without(order: seq<nat>, p: nat): seq<nat>
    requires p < |order|
  {
    order[..p] + order[p + 1..]
  }

  lemma NodeWithout(order: seq<nat>, head: nat, p: nat, k: int)
    requires p < |order| && -1 <= k <= |order| - 1
    ensures Node(Without(order, p), head, k) == Node(order, head, if k < p then k else k + 1)
  {
  }

  lemma NodeCons(order: seq<nat>, head: nat, b: nat, k: int)
    requires -1 <= k <= |order| + 1
    ensures Node([b] + order, head, k)
         == if k == 0 then b else if k == -1 then head else Node(order, head, k - 1)
  {
  }

  /** Unlinking a node by splicing its neighbours together leaves the ring of the others. */
  lemma UnlinkKeepsRing(order: seq<nat>, next: seq<nat>, prev: seq<nat>, head: nat, p: nat)
    requires Ring(order, next, prev, head) && p < |order|
    ensures var b := order[p];
            && next[b] <= head && prev[b] <= head
            && next[b] == Node(order, head, p + 1) && prev[b] == Node(order, head, p - 1)
            && Ring(Without(order, p), next[prev[b] := next[b]], prev[next[b] := prev[b]], head)
  {
    var b := order[p];
    assert Node(order, head, p) == b;
    assert next[b] == Node(order, head, p + 1) && prev[b] == Node(order, head, p - 1);
    var next', prev' := next[prev[b] := next[b]], prev[next[b] := prev[b]];
    var order' := Without(order, p);
    forall k | -1 <= k < |order'|
      ensures next'[Node(order', head, k)] == Node(order', head, k + 1)
    {
      NodeWithout(order, head, p, k);
      NodeWithout(order, head, p, k + 1);
    }
    forall k | 0 <= k <= |order'|
      ensures prev'[Node(order', head, k)] == Node(order', head, k - 1)
    {
      NodeWithout(order, head, p, k);
      NodeWithout(order, head, p, k - 1);
    }
  }

  lemma EmptyRing(next: seq<nat>, prev: seq<nat>, head: nat)
    requires |next| == |prev| == head + 1 && next[head] == prev[head] == head
    ensures Ring([], next, prev, head)
  {
  }

  /** Linking a node in after the head puts it first on the ring. */
  lemma PushKeepsRing(order: seq<nat>, next: seq<nat>, prev: seq<nat>, head: nat, b: nat)
    requires Ring(order, next, prev, head) && b < head && b !in order
    ensures next[head] == Node(order, head, 0) && next[head] <= head
    ensures Ring([b] + order, next[b := next[head]][head := b], prev[b := head][next[head] := b], head)
  {
    assert Node(order, head, -1) == head;
    var first := next[head];
    assert first == Node(order, head, 0);
    var next', prev' := next[b := first][head := b], prev[b := head][first := b];
    var order' := [b] + order;
    forall k | -1 <= k < |order'|
      ensures next'[Node(order', head, k)] == Node(order', head, k + 1)
    {
      NodeCons(order, head, b, k);
      NodeCons(order, head, b, k + 1);
    }
    forall k | 0 <= k <= |order'|
      ensures prev'[Node(order', head, k)] == Node(order', head, k - 1)
    {
      NodeCons(order, head, b, k);
      NodeCons(order, head, b, k - 1);
    }
  }

  // --------------------------------------------------------------- the cache

  /** `order` with the element `b`, wherever it stands, moved to the front. */
  ghost predicate Fronted(before: seq<nat>, b: nat, after: seq<nat>)
  {
    exists p :: 0 <= p < |before| && before[p] == b && after == [b] + Without(before, p)
  }

  lemma FrontAt(order: seq<nat>, p: nat, k: nat)
    requires p < |order| && k < |order|
    ensures ([order[p]] + Without(order, p))[k] == if k == 0 then order[p] else order[if k <= p then k - 1 else k]
  {
  }

  lemma WithoutLacks(order: seq<nat>, p: nat)
    requires p < |order| && forall j, k :: 0 <= j < k < |order| ==> order[j] != order[k]
    ensures order[p] !in Without(order, p)
  {
  }

  lemma RingLacks(order: seq<nat>, next: seq<nat>, prev: seq<nat>, head: nat, p: nat)
    requires Ring(order, next, prev, head) && p < |order|
    ensures order[p] < head && order[p] !in Without(order, p) && |Without(order, p)| == |order| - 1
  {
    WithoutLacks(order, p);
  }

  /** Every node has its place in the order, and nothing is younger than the clock. */
  lemma Position(order: seq<nat>, stamp: seq<nat>, clock: nat, b: nat) returns (p: nat)
    requires ByAge(order, stamp, clock) && b < |stamp|
    ensures p < |order| && order[p] == b && forall j :: 0 <= j < |stamp| ==> stamp[j] < clock
  {
    assert b in order;
    p :| 0 <= p < |order| && order[p] == b;
  }

  /** Moving one element to the front keeps the order sorted by age. */
  lemma FrontOrder(order: seq<nat>, stamp: seq<nat>, clock: nat, p: nat)
    requires ByAge(order, stamp, clock) && p < |order|
    ensures ByAge([order[p]] + Without(order, p), stamp[order[p] := clock], clock + 1)
  {
    var b, order' := order[p], [order[p]] + Without(order, p);
    var stamp' := stamp[b := clock];
    forall i | 0 <= i < |stamp| ensures i in order' {
      assert i in order;
      var q :| 0 <= q < |order| && order[q] == i;
      var k := if q == p then 0 else if q < p then q + 1 else q;
      FrontAt(order, p, k);
      assert order'[k] == i;
    }
    forall k | 0 <= k < |order'| ensures order'[k] < |stamp'| { FrontAt(order, p, k); }
    forall j, k | 0 <= j < k < |order'| ensures stamp'[order'[j]] > stamp'[order'[k]] {
      FrontAt(order, p, j);
      FrontAt(order, p, k);
    }
  }

  /** No block is cached twice. */
  ghost predicate Unique(bufs: seq<Buf>)
  {
    forall i, j :: 0 <= i < j < |bufs| && bufs[i].dev == bufs[j].dev && bufs[i].dev != 0
      ==> bufs[i].blockno != bufs[j].blockno
  }

  ghost predicate Tabled(bufs: seq<Buf>, size: nat)
  {
    forall i :: 0 <= i < |bufs| ==>
      (bufs[i].dev != 0 ==> bufs[i].blockno < size) && (bufs[i].owner.Some? ==> bufs[i].refcnt > 0)
  }

  class Bcache {
    const nbuf: nat
    var bufs: seq<Buf>
    var next: seq<nat>
    var prev: seq<nat>
    var disk: seq<Block>             // the device's current contents
    ghost var order: seq<nat>        // buffers in ring order, most recently released first
    ghost var stamp: seq<nat>        // when each buffer was last moved to the front
    ghost var clock: nat
    ghost var writes: seq<Write>     // every block written so far, in order

    ghost predicate Valid()
      reads this
    {
      && |bufs| == |order| == |stamp| == nbuf
      && Ring(order, next, prev, nbuf)
      && ByAge(order, stamp, clock)
      && Unique(bufs) && Tabled(bufs, |disk|)
    }

    ghost predicate Cached(dev: nat, blockno: nat)
      reads this
    {
      exists i :: 0 <= i < |bufs| && bufs[i].Holds(dev, blockno)
    }

    ghost predicate AllReferenced()
      reads this
    {
      forall i :: 0 <= i < |bufs| ==> bufs[i].refcnt > 0
    }

    /** binit: all buffers unused, linked in front of one another. */
    constructor (nbuf: nat, disk: seq<Block>)
      ensures Valid() && this.nbuf == nbuf && this.disk == disk && writes == []
      ensures forall i :: 0 <= i < nbuf ==> bufs[i] == Buf(false, 0, 0, None, 0, ZeroBlock())
      ensures forall k :: 0 <= k < nbuf ==> order[k] == nbuf - 1 - k
    {
      this.nbuf := nbuf;
      this.disk := disk;
      this.bufs := seq(nbuf, i => Buf(false, 0, 0, None, 0, ZeroBlock()));
      this.next := seq(nbuf + 1, i => nbuf);
      this.prev := seq(nbuf + 1, i => nbuf);
      this.order, this.writes := [], [];
      this.stamp, this.clock := seq(nbuf, i => 0), 0;
      new;
      hide Ring;
      EmptyRing(next, prev, nbuf);
      var b := 0;
      while b < nbuf
        invariant 0 <= b <= nbuf && |stamp| == nbuf && clock == b == |order|
        invariant this.disk == disk && writes == [] && |bufs| == nbuf
        invariant forall i :: 0 <= i < nbuf ==> bufs[i] == Buf(false, 0, 0, None, 0, ZeroBlock())
        invariant Ring(order, next, prev, nbuf)
        invariant forall k :: 0 <= k < b ==> order[k] == b - 1 - k
        invariant forall i :: 0 <= i < b ==> i in order && stamp[i] == i
      {
        ghost var was := order;
        LinkFront(b, order);
        order, stamp, clock := [b] + order, stamp[b := clock], clock + 1;
        assert order[0] == b && forall i :: 0 <= i < b ==> i in was;
        b := b + 1;
      }
    }

    /** bget, up to the release of the cache lock: a reference to the block's buffer, recycling the
        unreferenced buffer that went longest without being released.  None is the panic when every
        buffer is referenced. */
    method Bget(dev: nat, blockno: nat) returns (r: Option<nat>)
      requires Valid() && dev != 0 && blockno < |disk|
      modifies this`bufs
      ensures Valid()
      ensures r.None? <==> !old(Cached(dev, blockno)) && old(AllReferenced())
      ensures r.None? ==> bufs == old(bufs)
      ensures r.Some? ==> r.value < nbuf && bufs[r.value].Holds(dev, blockno)
      ensures r.Some? && old(Cached(dev, blockno)) ==>
                var b := old(bufs)[r.value];
                b.Holds(dev, blockno) && bufs == old(bufs)[r.value := b.(refcnt := b.refcnt + 1)]
      ensures r.Some? && !old(Cached(dev, blockno)) ==>
                var b := old(bufs)[r.value];
                && b.refcnt == 0
                && (forall i :: 0 <= i < nbuf && old(bufs)[i].refcnt == 0 ==> stamp[r.value] <= stamp[i])
                && bufs == old(bufs)[r.value := b.(dev := dev, blockno := blockno, valid := false, refcnt := 1)]
    {
      var b := FindCached(dev, blockno);
      if b != nbuf {
        bufs := bufs[b := bufs[b].(refcnt := bufs[b].refcnt + 1)];
        return Some(b);
      }
      b := FindVictim();
      if b != nbuf {
        bufs := bufs[b := bufs[b].(dev := dev, blockno := blockno, valid := false, refcnt := 1)];
        return Some(b);
      }
      return None;
    }

    /** bget's first loop, from the front of the ring; the head stands for "not cached". */
    method FindCached(dev: nat, blockno: nat) returns (b: nat)
      requires Valid()
      ensures b <= nbuf && (b == nbuf <==> !Cached(dev, blockno))
      ensures b < nbuf ==> bufs[b].Holds(dev, blockno)
    {
      ghost var k := 0;
      assert Node(order, nbuf, -1) == nbuf;
      b := next[nbuf];
      while b != nbuf
        invariant 0 <= k <= nbuf && b == Node(order, nbuf, k)
        invariant forall j :: 0 <= j < k ==> !bufs[order[j]].Holds(dev, blockno)
        decreases nbuf - k
      {
        if bufs[b].dev == dev && bufs[b].blockno == blockno {
          return;
        }
        b := next[b];
        k := k + 1;
      }
      forall i | 0 <= i < nbuf ensures !bufs[i].Holds(dev, blockno) { assert i in order; }
    }

    /** bget's second loop, from the back of the ring: the oldest unreferenced buffer. */
    method FindVictim() returns (b: nat)
      requires Valid()
      ensures b <= nbuf && (b == nbuf <==> AllReferenced())
      ensures b < nbuf ==> bufs[b].refcnt == 0
      ensures b < nbuf ==> forall i :: 0 <= i < nbuf && bufs[i].refcnt == 0 ==> stamp[b] <= stamp[i]
    {
      ghost var k := nbuf - 1;
      assert Node(order, nbuf, nbuf) == nbuf;
      b := prev[nbuf];
      while b != nbuf
        invariant -1 <= k < nbuf && b == Node(order, nbuf, k)
        invariant forall j :: k < j < nbuf ==> bufs[order[j]].refcnt > 0
        decreases k + 1
      {
        if bufs[b].refcnt == 0 {
          OldestUnreferenced(k);
          return;
        }
        b := prev[b];
        k := k - 1;
      }
      forall i | 0 <= i < nbuf ensures bufs[i].refcnt > 0 { assert i in order; }
    }

    /** The first unreferenced buffer met from the back of the ring is the oldest of them. */
    lemma OldestUnreferenced(k: nat)
      requires Valid() && k < nbuf
      requires forall j :: k < j < nbuf ==> bufs[order[j]].refcnt > 0
      ensures forall i :: 0 <= i < nbuf && bufs[i].refcnt == 0 ==> stamp[order[k]] <= stamp[i]
    {
      forall i | 0 <= i < nbuf && bufs[i].refcnt == 0
        ensures stamp[order[k]] <= stamp[i]
      {
        assert i in order;
        var j :| 0 <= j < |order| && order[j] == i;
      }
    }

    /** acquiresleep on a buffer the caller has a reference to; enabled while nobody holds the lock. */
    method Lock(i: nat, pid: nat)
      requires Valid() && i < nbuf && bufs[i].refcnt > 0 && bufs[i].owner.None?
      modifies this`bufs
      ensures Valid() && bufs == old(bufs)[i := old(bufs)[i].(owner := Some(pid))]
    {
      bufs := bufs[i := bufs[i].(owner := Some(pid))];
    }

    /** The rest of bread: fill a locked buffer from disk unless it is already valid. */
    method Fill(i: nat, pid: nat)
      requires Valid() && i < nbuf && bufs[i].owner == Some(pid) && bufs[i].dev != 0
      modifies this`bufs
      ensures Valid()
      ensures bufs == if old(bufs)[i].valid then old(bufs)
                      else old(bufs)[i := old(bufs)[i].(valid := true, data := disk[old(bufs)[i].blockno])]
    {
      if !bufs[i].valid {
        bufs := bufs[i := bufs[i].(data := disk[bufs[i].blockno])];
        bufs := bufs[i := bufs[i].(valid := true)];
      }
    }

    /** The holder changes the buffer's contents. */
    method SetData(i: nat, pid: nat, data: Block)
      requires Valid() && i < nbuf && bufs[i].owner == Some(pid)
      modifies this`bufs
      ensures Valid() && bufs == old(bufs)[i := old(bufs)[i].(data := data)]
    {
      bufs := bufs[i := bufs[i].(data := data)];
    }

    /** bwrite: one block of the device changes, to the buffer's contents. */
    method Bwrite(i: nat, pid: nat)
      requires Valid() && i < nbuf && bufs[i].owner == Some(pid) && bufs[i].dev != 0
      modifies this`disk, this`writes
      ensures Valid()
      ensures disk == old(disk)[bufs[i].blockno := bufs[i].data]
      ensures writes == old(writes) + [Write(bufs[i].blockno, bufs[i].data)]
    {
      disk := disk[bufs[i].blockno := bufs[i].data];
      writes := writes + [Write(bufs[i].blockno, bufs[i].data)];
    }

    /** brelse: drop the lock and the reference; the last reference moves the buffer to the front. */
    method Brelse(i: nat, pid: nat)
      requires Valid() && i < nbuf && bufs[i].owner == Some(pid)
      modifies this`bufs, this`next, this`prev, this`order, this`stamp, this`clock
      ensures Valid()
      ensures bufs == old(bufs)[i := old(bufs)[i].(owner := None, refcnt := old(bufs)[i].refcnt - 1)]
      ensures bufs[i].refcnt > 0 ==> order == old(order) && stamp == old(stamp)
      ensures bufs[i].refcnt == 0 ==>
                && Fronted(old(order), i, order) && stamp == old(stamp)[i := stamp[i]]
                && (forall j :: 0 <= j < nbuf ==> stamp[j] <= stamp[i])
    {
      hide Ring, ByAge;
      bufs := bufs[i := bufs[i].(owner := None)];
      bufs := bufs[i := bufs[i].(refcnt := bufs[i].refcnt - 1)];
      if bufs[i].refcnt == 0 {
        MoveToFront(i);
      }
    }

    method MoveToFront(b: nat)
      requires Valid() && b < nbuf
      modifies this`next, this`prev, this`order, this`stamp, this`clock
      ensures Valid()
      ensures Fronted(old(order), b, order) && stamp == old(stamp)[b := stamp[b]]
      ensures forall j :: 0 <= j < nbuf ==> stamp[j] <= stamp[b]
    {
      hide Ring, ByAge, Unique, Tabled, Without;
      ghost var p := Position(order, stamp, clock, b);
      FrontOrder(order, stamp, clock, p);
      RingLacks(order, next, prev, nbuf, p);
      ghost var rest := Without(order, p);
      Unlink(b, p);
      LinkFront(b, rest);
      order, stamp, clock := [b] + rest, stamp[b := clock], clock + 1;
    }

    method Unlink(b: nat, ghost p: nat)
      requires Ring(order, next, prev, nbuf) && p < |order| && order[p] == b
      modifies this`next, this`prev
      ensures Ring(Without(order, p), next, prev, nbuf)
    {
      UnlinkKeepsRing(order, next, prev, nbuf, p);
      prev := prev[next[b] := prev[b]];
      next := next[prev[b] := next[b]];
    }

    method LinkFront(b: nat, ghost rest: seq<nat>)
      requires Ring(rest, next, prev, nbuf) && b < nbuf && b !in rest
      modifies this`next, this`prev
      ensures Ring([b] + rest, next, prev, nbuf)
    {
      PushKeepsRing(rest, next, prev, nbuf, b);
      var first := next[nbuf];
      next := next[b := first];
      prev := prev[b := nbuf];
      prev := prev[first := b];
      next := next[nbuf := b];
    }

    method Bpin(i: nat)
      requires Valid() && i < nbuf
      modifies this`bufs
      ensures Valid() && bufs == old(bufs)[i := old(bufs)[i].(refcnt := old(bufs)[i].refcnt + 1)]
    {
      bufs := bufs[i := bufs[i].(refcnt := bufs[i].refcnt + 1)];
    }

    /** bunpin: drops a reference other than a lock holder's own. */
    method Bunpin(i: nat)
      requires Valid() && i < nbuf && bufs[i].refcnt > (if bufs[i].owner.Some? then 1 else 0)
      modifies this`bufs
      ensures Valid() && bufs == old(bufs)[i := old(bufs)[i].(refcnt := old(bufs)[i].refcnt - 1)]
    {
      bufs := bufs[i := bufs[i].(refcnt := bufs[i].refcnt - 1)];
    }
  }
}
