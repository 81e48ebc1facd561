/** The driver side of the virtio block queue: descriptors, the two rings with their 16-bit indexes, and a device that
    completes requests in any order.  Each method is one critical section under vdisk_lock, or one act of the device. */
module Virtio {
  import opened Blocks
  import opened Rings

  const WRAP := 0x1_0000        // the ring indexes are uint16

  datatype Desc = Desc(hasNext: bool, next: nat)

  const NODESC := Desc(false, 0)

  /** Where a request is: published in the avail ring, taken by the device, in the used ring, or seen by the driver. */
  datatype Stage = Sent | Taken | Used | Done

  /** A request in flight, known by its first descriptor: the other two descriptors and the buffer. */
  datatype Request = Request(second: nat, third: nat, buf: nat, stage: Stage)

  /** What holds a descriptor: a request, or the driver itself while it puts one together. */
  datatype Holder = Nobody | Driver | Chain(head: nat)

  function NumFree(free: seq<bool>): (n: nat)
    ensures n <= |free|
  {
    if free == [] then 0 else NumFree(free[..|free| - 1]) + if free[|free| - 1] then 1 else 0
  }

  lemma {:induction false} NumFreeUpdate(free: seq<bool>, i: nat, x: bool)
    requires i < |free|
    ensures NumFree(free[i := x]) == NumFree(free) - (if free[i] then 1 else 0) + (if x then 1 else 0)
    decreases |free|
  {
    var init := free[..|free| - 1];
    if i < |free| - 1 {
      assert free[i := x][..|free| - 1] == init[i := x];
      NumFreeUpdate(init, i, x);
    } else {
      assert free[i := x][..|free| - 1] == init;
    }
  }

  lemma {:induction false} NoneFree(free: seq<bool>)
    requires forall i :: 0 <= i < |free| ==> !free[i]
    ensures NumFree(free) == 0
  {
    if free != [] {
      NoneFree(free[..|free| - 1]);
    }
  }

  lemma {:induction false} SomeFree(free: seq<bool>, i: nat)
    requires i < |free| && free[i]
    ensures NumFree(free) > 0
  {
    if i < |free| - 1 {
      assert free[..|free| - 1][i];
      SomeFree(free[..|free| - 1], i);
    }
  }

  // --------------------------------------------------------------- invariants

  /** Every descriptor is free, or the driver's, or one of the three of exactly one request. */
  ghost predicate Partition(num: nat, free: seq<bool>, holder: seq<Holder>, reqs: map<nat, Request>)
  {
    && |free| == |holder| == num
    && (forall i :: 0 <= i < num ==> (free[i] <==> holder[i].Nobody?))
    && (forall i :: 0 <= i < num && holder[i].Chain? ==>
          var h := holder[i].head; h in reqs && (i == h || i == reqs[h].second || i == reqs[h].third))
    && (forall h :: h in reqs ==>
          && h < num && reqs[h].second < num && reqs[h].third < num
          && h != reqs[h].second && h != reqs[h].third && reqs[h].second != reqs[h].third
          && holder[h] == Chain(h) && holder[reqs[h].second] == Chain(h) && holder[reqs[h].third] == Chain(h))
  }

  /** Each request's descriptors are chained in order, and end there. */
  ghost predicate Linked(desc: seq<Desc>, reqs: map<nat, Request>)
  {
    forall h :: h in reqs ==>
      && h < |desc| && reqs[h].second < |desc| && reqs[h].third < |desc|
      && desc[h] == Desc(true, reqs[h].second) && desc[reqs[h].second] == Desc(true, reqs[h].third)
      && !desc[reqs[h].third].hasNext
  }

  /** The driver's records say which buffer each request is for; no two requests are for the same one, and a buffer is
      marked as with the disk until its completion has been seen. */
  ghost predicate Recorded(info: seq<Option<nat>>, status: seq<nat>, busy: set<nat>, reqs: map<nat, Request>)
  {
    && (forall h :: h in reqs ==> h < |info| && h < |status| && info[h] == Some(reqs[h].buf))
    && (forall h :: h in reqs ==> (reqs[h].buf in busy <==> !reqs[h].stage.Done?))
    && (forall h :: h in reqs && reqs[h].stage.Done? ==> h < |status| && status[h] == 0)
    && (forall g, h :: g in reqs && h in reqs && reqs[g].buf == reqs[h].buf ==> g == h)
  }

  /** The queue lists the requests at a stage, each once. */
  ghost predicate Lists(q: seq<nat>, reqs: map<nat, Request>, stage: Stage)
  {
    && (forall k :: 0 <= k < |q| ==> q[k] in reqs && reqs[q[k]].stage == stage)
    && (forall h :: h in reqs && reqs[h].stage == stage ==> h in q)
    && (forall j, k :: 0 <= j < k < |q| ==> q[j] != q[k])
  }

  function Over(i: nat, k: nat): nat
  {
    if k < i then k else k + 1
  }

  lemma Skipped(q: seq<nat>, i: nat, k: nat)
    requires i < |q| && k < |q| - 1
    ensures Over(i, k) < |q| && Over(i, k) != i && (q[..i] + q[i + 1..])[k] == q[Over(i, k)]
  {
  }

  lemma {:induction false} Pigeonhole(q: seq<nat>, num: nat)
    requires forall k :: 0 <= k < |q| ==> q[k] < num
    requires forall j, k :: 0 <= j < k < |q| ==> q[j] != q[k]
    ensures |q| <= num
    decreases num
  {
    if |q| > 0 {
      if num - 1 in q {
        var i :| 0 <= i < |q| && q[i] == num - 1;
        var rest := q[..i] + q[i + 1..];
        forall k | 0 <= k < |rest|
          ensures rest[k] < num - 1
        {
          Skipped(q, i, k);
          assert q[Over(i, k)] != q[i];
        }
        forall j, k | 0 <= j < k < |rest|
          ensures rest[j] != rest[k]
        {
          Skipped(q, i, j);
          Skipped(q, i, k);
        }
        Pigeonhole(rest, num - 1);
      } else {
        assert forall k :: 0 <= k < |q| ==> q[k] in q;
        Pigeonhole(q, num - 1);
      }
    }
  }

  /** A request not yet listed leaves room for its entry. */
  lemma RoomFor(num: nat, q: seq<nat>, h: nat)
    requires h < num && h !in q && forall k :: 0 <= k < |q| ==> q[k] < num
    requires forall j, k :: 0 <= j < k < |q| ==> q[j] != q[k]
    ensures |q| < num
  {
    Pigeonhole(q + [h], num);
  }

  /** The second descriptor of a request is no request's first, so a list of requests never fills the ring. */
  lemma NeverFull(num: nat, free: seq<bool>, holder: seq<Holder>, reqs: map<nat, Request>, q: seq<nat>, stage: Stage)
    requires Partition(num, free, holder, reqs) && Lists(q, reqs, stage) && 0 < num
    ensures |q| < num
  {
    if |q| > 0 {
      var h := q[0];
      assert h in reqs;
      forall k | 0 <= k < |q|
        ensures q[k] < num && q[k] != reqs[h].second
      {
        assert q[k] in reqs && holder[q[k]] == Chain(q[k]);
      }
      RoomFor(num, q, reqs[h].second);
    }
  }

  /** Two 16-bit indexes agree exactly when the entries between them are none. */
  lemma IndexesAgree(count: nat, pending: nat)
    requires pending <= count && pending < WRAP
    ensures (count - pending) % WRAP == count % WRAP <==> pending == 0
  {
  }

  lemma NextIndex(count: nat)
    ensures (count % WRAP + 1) % WRAP == (count + 1) % WRAP
  {
  }

  // ------------------------------------------------------------ keeping the partition

  lemma HoldKeeps(num: nat, free: seq<bool>, holder: seq<Holder>, reqs: map<nat, Request>, i: nat)
    requires Partition(num, free, holder, reqs) && i < num && free[i]
    ensures Partition(num, free[i := false], holder[i := Driver], reqs)
  {
  }

  lemma FreeKeeps(num: nat, free: seq<bool>, holder: seq<Holder>, reqs: map<nat, Request>, i: nat)
    requires Partition(num, free, holder, reqs) && i < num && holder[i].Driver?
    ensures Partition(num, free[i := true], holder[i := Nobody], reqs)
  {
  }

  /** A request's three descriptors handed back to the driver. */
  lemma DissolveKeeps(num: nat, free: seq<bool>, holder: seq<Holder>, reqs: map<nat, Request>, h: nat)
    requires Partition(num, free, holder, reqs) && h in reqs
    ensures Partition(num, free, holder[h := Driver][reqs[h].second := Driver][reqs[h].third := Driver], reqs - {h})
  {
    var r := reqs[h];
    var holder' := holder[h := Driver][r.second := Driver][r.third := Driver];
    forall g | g in reqs - {h}
      ensures holder'[g] == Chain(g) && holder'[reqs[g].second] == Chain(g) && holder'[reqs[g].third] == Chain(g)
    {
      assert holder[g] == Chain(g) && holder[reqs[g].second] == Chain(g) && holder[reqs[g].third] == Chain(g);
    }
  }

  lemma FormKeeps(num: nat, free: seq<bool>, holder: seq<Holder>, reqs: map<nat, Request>, h: nat, r: Request)
    requires Partition(num, free, holder, reqs) && h < num && r.second < num && r.third < num
    requires h != r.second && h != r.third && r.second != r.third
    requires holder[h].Driver? && holder[r.second].Driver? && holder[r.third].Driver?
    ensures h !in reqs
    ensures Partition(num, free, holder[h := Chain(h)][r.second := Chain(h)][r.third := Chain(h)], reqs[h := r])
  {
    var holder', reqs' := holder[h := Chain(h)][r.second := Chain(h)][r.third := Chain(h)], reqs[h := r];
    forall g | g in reqs'
      ensures holder'[g] == Chain(g) && holder'[reqs'[g].second] == Chain(g) && holder'[reqs'[g].third] == Chain(g)
    {
      if g != h {
        assert holder[g] == Chain(g) && holder[reqs[g].second] == Chain(g) && holder[reqs[g].third] == Chain(g);
      }
    }
  }

  /** Descriptors that no request holds may change. */
  lemma LinkedFrame(num: nat, free: seq<bool>, holder: seq<Holder>, desc: seq<Desc>, reqs: map<nat, Request>, i: nat, d: Desc)
    requires Partition(num, free, holder, reqs) && Linked(desc, reqs) && i < num == |desc| && !holder[i].Chain?
    ensures Linked(desc[i := d], reqs)
  {
    forall h | h in reqs
      ensures h != i && reqs[h].second != i && reqs[h].third != i
    {
      assert holder[h] == Chain(h) && holder[reqs[h].second] == Chain(h) && holder[reqs[h].third] == Chain(h);
    }
  }

  lemma TableSizes(num: nat, free: seq<bool>, holder: seq<Holder>, reqs: map<nat, Request>)
    requires Partition(num, free, holder, reqs)
    ensures |free| == |holder| == num
  {
  }

  /** The table with the descriptors `idx`, free before, in the driver's hands. */
  ghost predicate Grabbed(free: seq<bool>, holder: seq<Holder>, free': seq<bool>, holder': seq<Holder>, idx: seq<nat>)
  {
    && |free| == |holder| == |free'| == |holder'|
    && (forall k :: 0 <= k < |idx| ==> idx[k] < |free| && free[idx[k]] && holder[idx[k]].Nobody?)
    && (forall j, k :: 0 <= j < k < |idx| ==> idx[j] != idx[k])
    && forall i :: 0 <= i < |free| ==>
         free'[i] == (free[i] && i !in idx) && holder'[i] == if i in idx then Driver else holder[i]
  }

  lemma GrabMore(free: seq<bool>, holder: seq<Holder>, free': seq<bool>, holder': seq<Holder>, idx: seq<nat>, r: nat)
    requires Grabbed(free, holder, free', holder', idx) && r < |free| && free'[r] && holder[r].Nobody?
    ensures Grabbed(free, holder, free'[r := false], holder'[r := Driver], idx + [r])
  {
    assert forall k :: 0 <= k < |idx| ==> idx[k] in idx;
    assert r !in idx;
  }

  lemma GrabLess(free: seq<bool>, holder: seq<Holder>, free': seq<bool>, holder': seq<Holder>, idx: seq<nat>)
    requires Grabbed(free, holder, free', holder', idx) && |idx| > 0
    ensures idx[0] < |free'| && holder'[idx[0]].Driver?
    ensures Grabbed(free, holder, free'[idx[0] := true], holder'[idx[0] := Nobody], idx[1..])
  {
    assert idx[0] in idx;
    var rest := idx[1..];
    assert forall k :: 0 <= k < |rest| ==> rest[k] == idx[k + 1];
    assert idx == [idx[0]] + rest;
  }

  lemma GrabNone(free: seq<bool>, holder: seq<Holder>, free': seq<bool>, holder': seq<Holder>)
    requires Grabbed(free, holder, free', holder', [])
    ensures free' == free && holder' == holder
  {
  }

  lemma NothingGrabbed(free: seq<bool>, holder: seq<Holder>)
    requires |free| == |holder|
    ensures Grabbed(free, holder, free, holder, [])
  {
  }

  /** A descriptor that is free now was free to begin with. */
  lemma GrabFrom(free: seq<bool>, holder: seq<Holder>, free': seq<bool>, holder': seq<Holder>, idx: seq<nat>, r: nat)
    requires Grabbed(free, holder, free', holder', idx) && r < |free'| && free'[r]
    requires forall i :: 0 <= i < |free| && i < |holder| ==> (free[i] <==> holder[i].Nobody?)
    ensures r < |holder'| && Grabbed(free, holder, free'[r := false], holder'[r := Driver], idx + [r])
  {
    GrabMore(free, holder, free', holder', idx, r);
  }

  lemma TableFree(num: nat, free: seq<bool>, holder: seq<Holder>, reqs: map<nat, Request>)
    requires Partition(num, free, holder, reqs)
    ensures |free| == |holder| == num && forall i :: 0 <= i < num ==> (free[i] <==> holder[i].Nobody?)
  {
  }

  /** The first `done` descriptors of the chain are free and the rest, still linked, are the driver's. */
  ghost predicate Unchained(num: nat, free: seq<bool>, holder: seq<Holder>, free': seq<bool>, holder': seq<Holder>,
                            desc: seq<Desc>, chain: seq<nat>, done: nat)
  {
    && |free| == |holder| == |free'| == |holder'| == |desc| == num && |chain| == 3 && done <= 3
    && (forall k :: 0 <= k < 3 ==> chain[k] < num && !free[chain[k]])
    && chain[0] != chain[1] && chain[0] != chain[2] && chain[1] != chain[2]
    && (forall k :: done <= k < 3 ==> desc[chain[k]].hasNext == (k < 2) && (k < 2 ==> desc[chain[k]].next == chain[k + 1]))
    && (forall i :: 0 <= i < num ==> free'[i] == (free[i] || i in chain[..done]))
    && (forall i :: 0 <= i < num ==> holder'[i] == if i in chain[..done] then Nobody else if i in chain then Driver else holder[i])
  }

  /** The descriptors `chain` are free, and no others changed hands. */
  ghost predicate Returned(free: seq<bool>, holder: seq<Holder>, free': seq<bool>, holder': seq<Holder>, chain: seq<nat>)
  {
    && |free| == |holder| == |free'| == |holder'|
    && (forall i :: 0 <= i < |free| ==> free'[i] == (free[i] || i in chain))
    && (forall i :: 0 <= i < |free| ==> holder'[i] == if i in chain then Nobody else holder[i])
  }

  lemma ChainStart(num: nat, free: seq<bool>, holder: seq<Holder>, desc: seq<Desc>, reqs: map<nat, Request>, h: nat)
    requires Partition(num, free, holder, reqs) && Linked(desc, reqs) && h in reqs && |desc| == num
    ensures var r := reqs[h];
            && h < |holder| && r.second < |holder| && r.third < |holder|
            && Unchained(num, free, holder, free, holder[h := Driver][r.second := Driver][r.third := Driver], desc,
                         [h, r.second, r.third], 0)
  {
  }

  lemma ChainAt(num: nat, free: seq<bool>, holder: seq<Holder>, free': seq<bool>, holder': seq<Holder>,
                desc: seq<Desc>, chain: seq<nat>, done: nat)
    requires Unchained(num, free, holder, free', holder', desc, chain, done) && done < 3
    ensures var i := chain[done];
            && i < |holder'| && i < |desc| && i < num && holder'[i].Driver? && desc[i].hasNext == (done < 2)
            && (done < 2 ==> desc[i].next == chain[done + 1])
  {
    assert done == 0 || done == 1 || done == 2;
    assert chain[..1] == [chain[0]] && chain[..2] == [chain[0], chain[1]];
  }

  lemma ChainStep(num: nat, free: seq<bool>, holder: seq<Holder>, free': seq<bool>, holder': seq<Holder>,
                  desc: seq<Desc>, chain: seq<nat>, done: nat)
    requires Unchained(num, free, holder, free', holder', desc, chain, done) && done < 3
    ensures var i := chain[done];
            && i < |free'| && i < |holder'| && i < |desc|
            && Unchained(num, free, holder, free'[i := true], holder'[i := Nobody], desc[i := NODESC], chain, done + 1)
  {
    assert chain[..done + 1] == chain[..done] + [chain[done]];
    assert done == 0 || done == 1 || done == 2;
  }

  lemma ChainEnd(num: nat, free: seq<bool>, holder: seq<Holder>, free': seq<bool>, holder': seq<Holder>,
                 desc: seq<Desc>, chain: seq<nat>)
    requires Unchained(num, free, holder, free', holder', desc, chain, 3)
    ensures Returned(free, holder, free', holder', chain)
  {
    assert chain[..3] == chain;
  }

  lemma LinkedLess(desc: seq<Desc>, reqs: map<nat, Request>, h: nat)
    requires Linked(desc, reqs)
    ensures Linked(desc, reqs - {h})
  {
  }

  lemma {:induction false} AllFree(num: nat)
    ensures NumFree(seq(num, i => true)) == num
  {
    if num > 0 {
      assert seq(num, i => true)[..num - 1] == seq(num - 1, i => true);
      AllFree(num - 1);
    }
  }

  // ------------------------------------------------------------------ requests

  /** The three descriptors grabbed become a request. */
  lemma NewRequest(num: nat, free0: seq<bool>, holder0: seq<Holder>, free: seq<bool>, holder: seq<Holder>,
                   desc: seq<Desc>, reqs: map<nat, Request>, idx: seq<nat>, b: nat)
    requires Partition(num, free, holder, reqs) && Linked(desc, reqs) && |desc| == num && |idx| == 3
    requires Grabbed(free0, holder0, free, holder, idx) && forall i :: 0 <= i < |holder0| ==> !holder0[i].Driver?
    ensures var h, r := idx[0], Request(idx[1], idx[2], b, Sent);
            && h < num && idx[1] < num && idx[2] < num && h !in reqs && |holder| == num
            && var holder' := holder[h := Chain(h)][idx[1] := Chain(h)][idx[2] := Chain(h)];
            && Partition(num, free, holder', reqs[h := r])
            && Linked(desc[h := Desc(true, idx[1])][idx[1] := Desc(true, idx[2])][idx[2] := Desc(false, 0)], reqs[h := r])
            && forall i :: 0 <= i < num ==> !holder'[i].Driver?
  {
    hide Partition, Linked, Grabbed;
    var h, r := idx[0], Request(idx[1], idx[2], b, Sent);
    Three(num, free0, holder0, free, holder, reqs, idx);
    FormKeeps(num, free, holder, reqs, h, r);
    NewLinked(num, free, holder, desc, reqs, h, r);
    NoneLeft(free0, holder0, free, holder, idx, h);
  }

  /** What three descriptors taken one after the other are. */
  lemma Three(num: nat, free0: seq<bool>, holder0: seq<Holder>, free: seq<bool>, holder: seq<Holder>, reqs: map<nat, Request>, idx: seq<nat>)
    requires Partition(num, free, holder, reqs) && |idx| == 3 && Grabbed(free0, holder0, free, holder, idx)
    ensures |holder| == num && idx[0] < num && idx[1] < num && idx[2] < num
    ensures idx[0] != idx[1] && idx[0] != idx[2] && idx[1] != idx[2]
    ensures holder[idx[0]].Driver? && holder[idx[1]].Driver? && holder[idx[2]].Driver?
  {
    assert idx[0] in idx && idx[1] in idx && idx[2] in idx;
  }

  /** A request's three descriptors chained, and every other chain as before. */
  lemma NewLinked(num: nat, free: seq<bool>, holder: seq<Holder>, desc: seq<Desc>, reqs: map<nat, Request>, h: nat, r: Request)
    requires Partition(num, free, holder, reqs) && Linked(desc, reqs) && |desc| == num == |holder|
    requires h < num && r.second < num && r.third < num && h != r.second && h != r.third && r.second != r.third
    requires holder[h].Driver? && holder[r.second].Driver? && holder[r.third].Driver?
    ensures Linked(desc[h := Desc(true, r.second)][r.second := Desc(true, r.third)][r.third := Desc(false, 0)], reqs[h := r])
  {
    hide Partition, Linked;
    var desc1 := desc[h := Desc(true, r.second)];
    var desc2 := desc1[r.second := Desc(true, r.third)];
    LinkedFrame(num, free, holder, desc, reqs, h, Desc(true, r.second));
    LinkedFrame(num, free, holder, desc1, reqs, r.second, Desc(true, r.third));
    LinkedFrame(num, free, holder, desc2, reqs, r.third, Desc(false, 0));
    OneMoreLinked(desc2[r.third := Desc(false, 0)], reqs, h, r);
  }

  lemma OneMoreLinked(desc: seq<Desc>, reqs: map<nat, Request>, h: nat, r: Request)
    requires Linked(desc, reqs) && h < |desc| && r.second < |desc| && r.third < |desc|
    requires desc[h] == Desc(true, r.second) && desc[r.second] == Desc(true, r.third) && !desc[r.third].hasNext
    ensures Linked(desc, reqs[h := r])
  {
  }

  lemma NoneLeft(free0: seq<bool>, holder0: seq<Holder>, free: seq<bool>, holder: seq<Holder>, idx: seq<nat>, h: nat)
    requires |idx| == 3 && Grabbed(free0, holder0, free, holder, idx) && forall i :: 0 <= i < |holder0| ==> !holder0[i].Driver?
    requires idx[0] < |holder| && idx[1] < |holder| && idx[2] < |holder|
    ensures var holder' := holder[idx[0] := Chain(h)][idx[1] := Chain(h)][idx[2] := Chain(h)];
            forall i :: 0 <= i < |holder| ==> !holder'[i].Driver?
  {
    assert idx == [idx[0], idx[1], idx[2]];
  }

  lemma AddedBack(reqs: map<nat, Request>, h: nat, r: Request)
    requires h !in reqs
    ensures reqs[h := r] - {h} == reqs
  {
  }

  lemma NewRecord(info: seq<Option<nat>>, status: seq<nat>, busy: set<nat>, reqs: map<nat, Request>, num: nat, h: nat, r: Request)
    requires Recorded(info, status, busy, reqs) && |info| == |status| == num && h < num && h !in reqs && r.stage.Sent?
    requires forall g :: g in reqs ==> reqs[g].buf != r.buf
    ensures Recorded(info[h := Some(r.buf)], status[h := 0xff], busy + {r.buf}, reqs[h := r])
  {
  }

  lemma NewListed(reqs: map<nat, Request>, q: seq<nat>, h: nat)
    requires h in reqs && Lists(q, reqs - {h}, reqs[h].stage)
    ensures Lists(q + [h], reqs, reqs[h].stage)
  {
    assert forall k :: 0 <= k < |q| ==> q[k] in reqs - {h};
  }

  lemma ListsSkip(q: seq<nat>, reqs: map<nat, Request>, stage: Stage, h: nat)
    requires h in reqs && Lists(q, reqs - {h}, stage) && reqs[h].stage != stage
    ensures Lists(q, reqs, stage)
  {
    assert forall k :: 0 <= k < |q| ==> q[k] in reqs - {h};
  }

  /** The ring has room for one more request. */
  lemma LessPartition(num: nat, free: seq<bool>, holder: seq<Holder>, reqs: map<nat, Request>, q: seq<nat>, h: nat)
    requires Partition(num, free, holder, reqs) && h in reqs && Lists(q, reqs - {h}, reqs[h].stage) && 0 < num
    ensures |q| < num
  {
    NewListed(reqs, q, h);
    NeverFull(num, free, holder, reqs, q + [h], reqs[h].stage);
  }

  function Staged(reqs: map<nat, Request>, h: nat, stage: Stage): map<nat, Request>
    requires h in reqs
  {
    reqs[h := reqs[h].(stage := stage)]
  }

  lemma StagedKeeps(num: nat, free: seq<bool>, holder: seq<Holder>, desc: seq<Desc>, reqs: map<nat, Request>, h: nat, stage: Stage)
    requires Partition(num, free, holder, reqs) && Linked(desc, reqs) && h in reqs
    ensures Partition(num, free, holder, Staged(reqs, h, stage)) && Linked(desc, Staged(reqs, h, stage))
  {
    hide Partition, Linked, Staged;
    StagedPartition(num, free, holder, reqs, h, stage);
    StagedLinked(desc, reqs, h, stage);
  }

  lemma StagedPartition(num: nat, free: seq<bool>, holder: seq<Holder>, reqs: map<nat, Request>, h: nat, stage: Stage)
    requires Partition(num, free, holder, reqs) && h in reqs
    ensures Partition(num, free, holder, Staged(reqs, h, stage))
  {
  }

  lemma StagedLinked(desc: seq<Desc>, reqs: map<nat, Request>, h: nat, stage: Stage)
    requires Linked(desc, reqs) && h in reqs
    ensures Linked(desc, Staged(reqs, h, stage))
  {
  }

  lemma StagedRecord(info: seq<Option<nat>>, status: seq<nat>, busy: set<nat>, reqs: map<nat, Request>, h: nat, stage: Stage)
    requires Recorded(info, status, busy, reqs) && h in reqs && !reqs[h].stage.Done? && (stage.Sent? || stage.Taken?)
    ensures Recorded(info, status, busy, Staged(reqs, h, stage))
  {
  }

  /** The requests once the first `n` completions of `q` have been seen. */
  ghost function Handled(reqs: map<nat, Request>, q: seq<nat>, n: nat): (r: map<nat, Request>)
    requires n <= |q| && forall k :: 0 <= k < |q| ==> q[k] in reqs
    ensures r.Keys == reqs.Keys
  {
    if n == 0 then reqs else Staged(Handled(reqs, q, n - 1), q[n - 1], Done)
  }

  /** The buffers they are for. */
  ghost function Buffers(reqs: map<nat, Request>, q: seq<nat>, n: nat): (r: set<nat>)
    requires n <= |q| && forall k :: 0 <= k < |q| ==> q[k] in reqs
  {
    if n == 0 then {} else Buffers(reqs, q, n - 1) + {reqs[q[n - 1]].buf}
  }

  /** Exactly the requests of the first `n` completions are done, and their buffers released. */
  lemma {:induction false} HandledIs(reqs: map<nat, Request>, q: seq<nat>, n: nat)
    requires n <= |q| && forall k :: 0 <= k < |q| ==> q[k] in reqs
    ensures forall h :: h in reqs ==> Handled(reqs, q, n)[h] == if h in q[..n] then reqs[h].(stage := Done) else reqs[h]
    ensures forall b :: b in Buffers(reqs, q, n) <==> exists k :: 0 <= k < n && reqs[q[k]].buf == b
  {
    if n > 0 {
      HandledIs(reqs, q, n - 1);
      assert q[..n] == q[..n - 1] + [q[n - 1]];
      assert forall b :: b in Buffers(reqs, q, n - 1) ==> b in Buffers(reqs, q, n);
    }
  }

  lemma NothingHandled(reqs: map<nat, Request>, q: seq<nat>)
    requires forall k :: 0 <= k < |q| ==> q[k] in reqs
    ensures Handled(reqs, q, 0) == reqs && Buffers(reqs, q, 0) == {}
  {
  }

  lemma HandledNext(reqs: map<nat, Request>, q: seq<nat>, n: nat)
    requires n < |q| && forall k :: 0 <= k < |q| ==> q[k] in reqs
    ensures Handled(reqs, q, n + 1) == Staged(Handled(reqs, q, n), q[n], Done)
    ensures Buffers(reqs, q, n + 1) == Buffers(reqs, q, n) + {Handled(reqs, q, n)[q[n]].buf}
  {
    HandledIs(reqs, q, n);
  }

  lemma StagedStatus(info: seq<Option<nat>>, status: seq<nat>, busy: set<nat>, reqs: map<nat, Request>, h: nat, x: nat)
    requires Recorded(info, status, busy, reqs) && h in reqs && reqs[h].stage.Taken?
    ensures h < |status| && Recorded(info, status[h := x], busy, Staged(reqs, h, Used))
  {
  }

  lemma StagedDone(info: seq<Option<nat>>, status: seq<nat>, busy: set<nat>, reqs: map<nat, Request>, h: nat)
    requires Recorded(info, status, busy, reqs) && h in reqs && reqs[h].stage.Used? && h < |status| && status[h] == 0
    ensures Recorded(info, status, busy - {reqs[h].buf}, Staged(reqs, h, Done))
  {
  }

  lemma RecordAt(info: seq<Option<nat>>, status: seq<nat>, busy: set<nat>, reqs: map<nat, Request>, h: nat)
    requires Recorded(info, status, busy, reqs) && h in reqs
    ensures h < |info| && h < |status| && info[h] == Some(reqs[h].buf)
  {
  }

  lemma RecordLess(info: seq<Option<nat>>, status: seq<nat>, busy: set<nat>, reqs: map<nat, Request>, h: nat)
    requires Recorded(info, status, busy, reqs) && h in reqs
    ensures h < |info| && Recorded(info[h := None], status, busy, reqs - {h})
  {
  }

  /** The first of the queue moves on. */
  lemma Dequeued(reqs: map<nat, Request>, q: seq<nat>, stage: Stage, stage': Stage)
    requires Lists(q, reqs, stage) && q != [] && stage' != stage
    ensures q[0] in reqs && reqs[q[0]].stage == stage && Lists(q[1..], Staged(reqs, q[0], stage'), stage)
  {
    assert q[0] in reqs;
    var rest := q[1..];
    assert forall k :: 0 <= k < |rest| ==> rest[k] == q[k + 1];
    assert q == [q[0]] + rest;
  }

  lemma ListsMoved(q: seq<nat>, reqs: map<nat, Request>, stage: Stage, h: nat, stage': Stage)
    requires h in reqs && Lists(q, reqs, stage) && reqs[h].stage != stage && stage' != stage
    ensures Lists(q, Staged(reqs, h, stage'), stage)
  {
  }

  lemma ListsLess(q: seq<nat>, reqs: map<nat, Request>, stage: Stage, h: nat)
    requires h in reqs && Lists(q, reqs, stage) && reqs[h].stage != stage
    ensures Lists(q, reqs - {h}, stage)
  {
  }

  lemma Without(q: seq<nat>, reqs: map<nat, Request>, h: nat)
    requires h in reqs && Lists(q, reqs, Used) && reqs[h].stage.Taken?
    ensures Lists(q, Staged(reqs, h, Used) - {h}, Used)
  {
  }

  lemma AllThere(q: seq<nat>, reqs: map<nat, Request>, stage: Stage)
    requires Lists(q, reqs, stage)
    ensures forall k :: 0 <= k < |q| ==> q[k] in reqs
  {
  }

  /** A ring index is a 16-bit number. */
  function Next(i: nat): nat
  {
    (i + 1) % WRAP
  }

  /** The ring holds the pending entries `q`, the last of `count`, and the indexes are right for them, wrapped around. */
  ghost predicate Indexed(num: nat, ring: seq<nat>, count: nat, q: seq<nat>, idx: nat, seen: nat)
  {
    && 0 < num && WRAP % num == 0 && RingHolds(num, ring, count, q) && |q| <= count
    && idx == count % WRAP && seen == (count - |q|) % WRAP
  }

  /** Reader and writer indexes differ exactly while entries are pending, wrap-around or not. */
  lemma Pending(num: nat, free: seq<bool>, holder: seq<Holder>, reqs: map<nat, Request>, ring: seq<nat>, count: nat, q: seq<nat>,
                stage: Stage, idx: nat, seen: nat)
    requires Partition(num, free, holder, reqs) && Lists(q, reqs, stage) && Indexed(num, ring, count, q, idx, seen)
    ensures seen == idx <==> q == []
  {
    hide Partition, Lists, RingHolds;
    NeverFull(num, free, holder, reqs, q, stage);
    Divisor(num);
    IndexesAgree(count, |q|);
  }

  lemma Divisor(num: nat)
    requires 0 < num && WRAP % num == 0
    ensures num <= WRAP
  {
    if num > WRAP {
      assert WRAP % num == WRAP by { Remainder(WRAP, num, 0, WRAP); }
    }
  }

  lemma NoDriver(free: seq<bool>, holder: seq<Holder>, free': seq<bool>, holder': seq<Holder>, chain: seq<nat>)
    requires Returned(free, holder, free', holder', chain) && forall i :: 0 <= i < |holder| ==> !holder[i].Driver?
    ensures forall i :: 0 <= i < |holder'| ==> !holder'[i].Driver?
  {
  }

  /** The entry at the reader's index is the oldest pending one, and the index after it is right for the rest. */
  lemma Oldest(num: nat, ring: seq<nat>, count: nat, q: seq<nat>, idx: nat, seen: nat)
    requires Indexed(num, ring, count, q, idx, seen) && |q| > 0
    ensures 0 < num == |ring| && ring[Slot(seen, num)] == q[0] && Indexed(num, ring, count, q[1..], idx, Next(seen))
  {
    hide Slot;
    SameSlot(count - |q|, num, WRAP);
    NextIndex(count - |q|);
    Popped(num, ring, count, q);
  }

  /** An entry written at the writer's index joins the queue and disturbs none of it. */
  lemma Newest(num: nat, ring: seq<nat>, count: nat, q: seq<nat>, idx: nat, seen: nat, h: nat)
    requires Indexed(num, ring, count, q, idx, seen) && |q| < num
    ensures 0 < num == |ring| && Indexed(num, ring[Slot(idx, num) := h], count + 1, q + [h], Next(idx), seen)
  {
    hide Slot;
    SameSlot(count, num, WRAP);
    NextIndex(count);
    Pushed(num, ring, count, q, h);
  }

  class Disk {
    const num: nat              // NUM
    var free: seq<bool>
    var desc: seq<Desc>
    var availRing: seq<nat>
    var availIdx: nat
    var usedRing: seq<nat>
    var usedIdx: nat            // the device's
    var usedSeen: nat           // the driver's
    var availSeen: nat          // the device's
    var info: seq<Option<nat>>
    var status: seq<nat>
    var busy: set<nat>          // the buffers whose disk flag is set
    ghost var holder: seq<Holder>
    ghost var reqs: map<nat, Request>
    ghost var availCount: nat
    ghost var availQ: seq<nat>
    ghost var usedCount: nat
    ghost var usedQ: seq<nat>
    ghost var sleepers: nat     // processes asleep on free[0]

    ghost predicate Owning()
      reads this`free, this`holder, this`reqs, this`desc
    {
      Partition(num, free, holder, reqs) && Linked(desc, reqs) && |desc| == num
    }

    /** The rings and indexes hold the requests `m` that are published or completed. */
    ghost predicate Rings(m: map<nat, Request>)
      reads this
    {
      && 0 < num
      && Indexed(num, availRing, availCount, availQ, availIdx, availSeen) && Lists(availQ, m, Sent)
      && Indexed(num, usedRing, usedCount, usedQ, usedIdx, usedSeen) && Lists(usedQ, m, Used)
    }

    /** Every request is recorded, and the driver holds no descriptor outside one. */
    ghost predicate Settled()
      reads this
    {
      && Owning() && Recorded(info, status, busy, reqs) && |info| == |status| == num
      && (forall i :: 0 <= i < num ==> !holder[i].Driver?)
    }

    /** Between critical sections: free descriptors and requests in flight partition the table, the rings hold what
        they should, and whoever sleeps for descriptors finds fewer than three. */
    ghost predicate Valid()
      reads this
    {
      Settled() && Rings(reqs) && (sleepers > 0 ==> NumFree(free) < 3)
    }

    /** alloc_desc: the first free descriptor, or -1 exactly when there is none. */
    method AllocDesc() returns (r: int)
      requires Owning()
      modifies this`free, this`holder
      ensures Owning()
      ensures r == -1 <==> NumFree(old(free)) == 0
      ensures r == -1 ==> free == old(free) && holder == old(holder)
      ensures r != -1 ==>
                && 0 <= r < num && old(free)[r] && (forall j :: 0 <= j < r ==> !old(free)[j])
                && free == old(free)[r := false] && holder == old(holder)[r := Driver]
                && NumFree(free) == NumFree(old(free)) - 1
    {
      hide Partition, Linked;
      TableSizes(num, free, holder, reqs);
      var i := 0;
      while i < num
        invariant 0 <= i <= num && forall j :: 0 <= j < i ==> !free[j]
      {
        if free[i] {
          SomeFree(free, i);
          HoldKeeps(num, free, holder, reqs, i);
          NumFreeUpdate(free, i, false);
          free := free[i := false];
          holder := holder[i := Driver];
          return i;
        }
        i := i + 1;
      }
      NoneFree(free);
      return -1;
    }

    /** free_desc: neither of its panics can happen to a descriptor the driver holds; sleepers are woken. */
    method FreeDesc(i: nat)
      requires Owning() && i < num && i < |holder| && holder[i].Driver?
      modifies this`free, this`holder, this`desc, this`sleepers
      ensures Owning() && free == old(free)[i := true] && holder == old(holder)[i := Nobody] && desc == old(desc)[i := NODESC]
      ensures sleepers == 0 && !old(free)[i] && NumFree(free) == NumFree(old(free)) + 1
    {
      hide Linked;
      LinkedFrame(num, free, holder, desc, reqs, i, NODESC);
      FreeKeeps(num, free, holder, reqs, i);
      NumFreeUpdate(free, i, true);
      desc := desc[i := NODESC];
      free := free[i := true];
      holder := holder[i := Nobody];
      sleepers := 0;
    }
  
    /** alloc3_desc: three descriptors if there are three free, otherwise everything as it was. */
    method Alloc3Desc() returns (ok: bool, idx: seq<nat>)
      requires Owning()
      modifies this`free, this`holder, this`desc, this`sleepers
      ensures Owning() && (ok <==> NumFree(old(free)) >= 3)
      ensures !ok ==> free == old(free) && holder == old(holder) && sleepers <= old(sleepers)
      ensures ok ==>
                && |idx| == 3 && Grabbed(old(free), old(holder), free, holder, idx) && desc == old(desc)
                && sleepers == old(sleepers) && NumFree(free) == NumFree(old(free)) - 3
    {
      hide Partition, Linked, Grabbed;
      TableFree(num, free, holder, reqs);
      ok, idx := true, [];
      NothingGrabbed(free, holder);
      while |idx| < 3
        invariant |idx| <= 3 && Owning() && Grabbed(old(free), old(holder), free, holder, idx)
        invariant desc == old(desc) && sleepers == old(sleepers) && NumFree(free) == NumFree(old(free)) - |idx|
        decreases 3 - |idx|
      {
        ghost var f, h := free, holder;
        TableSizes(num, free, holder, reqs);
        var r := AllocDesc();
        if r < 0 {
          ok := false;
          break;
        }
        GrabFrom(old(free), old(holder), f, h, idx, r);
        idx := idx + [r];
      }
      if !ok {
        while |idx| > 0
          invariant Owning() && Grabbed(old(free), old(holder), free, holder, idx) && sleepers <= old(sleepers)
          decreases |idx|
        {
          GrabLess(old(free), old(holder), free, holder, idx);
          TableSizes(num, free, holder, reqs);
          FreeDesc(idx[0]);
          idx := idx[1..];
        }
        GrabNone(old(free), old(holder), free, holder);
      }
    }
  
    /** free_chain: exactly the three descriptors of the request are freed, each once. */
    method FreeChain(h: nat)
      requires Owning() && h in reqs
      modifies this`free, this`holder, this`desc, this`sleepers, this`reqs
      ensures Owning() && reqs == old(reqs) - {h} && sleepers == 0 && NumFree(free) == NumFree(old(free)) + 3
      ensures Returned(old(free), old(holder), free, holder, [h, old(reqs)[h].second, old(reqs)[h].third])
    {
      hide Partition, Linked, NumFree, Unchained, Returned;
      ghost var chain, done := [h, reqs[h].second, reqs[h].third], 0;
      ChainStart(num, free, holder, desc, reqs, h);
      DissolveKeeps(num, free, holder, reqs, h);
      LinkedLess(desc, reqs, h);
      holder := holder[h := Driver][reqs[h].second := Driver][reqs[h].third := Driver];
      reqs := reqs - {h};
      var i := h;
      while true
        invariant Owning() && 0 <= done < 3 && i == chain[done] && NumFree(free) == NumFree(old(free)) + done
        invariant Unchained(num, old(free), old(holder), free, holder, desc, chain, done) && reqs == old(reqs) - {h}
        decreases 3 - done
      {
        ChainAt(num, old(free), old(holder), free, holder, desc, chain, done);
        ChainStep(num, old(free), old(holder), free, holder, desc, chain, done);
        var flag, nxt := desc[i].hasNext, desc[i].next;
        FreeDesc(i);
        done := done + 1;
        if !flag { break; }
        i := nxt;
      }
      ChainEnd(num, old(free), old(holder), free, holder, desc, chain);
    }
  
    constructor (num: nat)
      requires 0 < num && WRAP % num == 0
      ensures Valid() && this.num == num && reqs == map[] && NumFree(free) == num
    {
      this.num := num;
      free, desc := seq(num, i => true), seq(num, i => NODESC);
      availRing, usedRing := seq(num, i => 0), seq(num, i => 0);
      availIdx, usedIdx, usedSeen, availSeen := 0, 0, 0, 0;
      info, status, busy := seq(num, i => None), seq(num, i => 0), {};
      holder, reqs := seq(num, i => Nobody), map[];
      availCount, availQ, usedCount, usedQ, sleepers := 0, [], 0, [], 0;
      new;
      AllFree(num);
      assert free == seq(num, i => true);
    }

    /** The first half of virtio_disk_rw: three descriptors chained for the buffer and published, or -1 and asleep exactly
        when fewer than three are free. */
    method Submit(b: nat) returns (h: int)
      requires Valid() && forall g :: g in reqs ==> reqs[g].buf != b
      modifies this
      ensures Valid() && (h == -1 <==> NumFree(old(free)) < 3)
      ensures h == -1 ==> reqs == old(reqs) && availQ == old(availQ) && busy == old(busy) && sleepers > 0
      ensures h != -1 ==>
                && h >= 0 && h !in old(reqs) && h in reqs && reqs == old(reqs)[h := reqs[h]]
                && reqs[h].buf == b && reqs[h].stage.Sent? && availQ == old(availQ) + [h] && b in busy
                && availIdx == Next(old(availIdx)) && NumFree(free) == NumFree(old(free)) - 3
      ensures usedQ == old(usedQ)
    {
      hide Partition, Linked, Recorded, Indexed, Next, Lists, Grabbed, NumFree, Slot;
      TableSizes(num, free, holder, reqs);
      var ok, idx := Alloc3Desc();
      if !ok {
        sleepers := sleepers + 1;
        return -1;
      }
      Format(idx, b, old(free), old(holder));
      AddedBack(old(reqs), idx[0], reqs[idx[0]]);
      Publish(idx[0]);
      h := idx[0];
    }

    /** The descriptors filled in and the buffer recorded. */
    method Format(idx: seq<nat>, b: nat, ghost free0: seq<bool>, ghost holder0: seq<Holder>)
      requires Owning() && Recorded(info, status, busy, reqs) && |info| == |status| == num && |idx| == 3
      requires Grabbed(free0, holder0, free, holder, idx) && forall i :: 0 <= i < |holder0| ==> !holder0[i].Driver?
      requires forall g :: g in reqs ==> reqs[g].buf != b
      modifies this`desc, this`status, this`busy, this`info, this`holder, this`reqs
      ensures Settled() && idx[0] !in old(reqs) && reqs == old(reqs)[idx[0] := Request(idx[1], idx[2], b, Sent)]
      ensures busy == old(busy) + {b} && idx[0] < num
    {
      hide Partition, Linked, Recorded, Grabbed;
      ghost var h, r := idx[0], Request(idx[1], idx[2], b, Sent);
      NewRequest(num, free0, holder0, free, holder, desc, reqs, idx, b);
      NewRecord(info, status, busy, reqs, num, h, r);
      desc := desc[idx[0] := Desc(true, idx[1])][idx[1] := Desc(true, idx[2])][idx[2] := Desc(false, 0)];
      status := status[idx[0] := 0xff];
      busy := busy + {b};
      info := info[idx[0] := Some(b)];
      holder := holder[h := Chain(h)][idx[1] := Chain(h)][idx[2] := Chain(h)];
      reqs := reqs[h := r];
    }

    /** The request put in the avail ring, in a slot that holds nothing the device has yet to take. */
    method Publish(h: nat)
      requires Settled() && h in reqs && reqs[h].stage.Sent? && Rings(reqs - {h}) && h < num
      modifies this`availRing, this`availIdx, this`availQ, this`availCount
      ensures Settled() && Rings(reqs) && availQ == old(availQ) + [h] && availIdx == Next(old(availIdx))
    {
      hide Partition, Linked, Recorded, Indexed, Next, Lists, Slot;
      NewListed(reqs, availQ, h);
      ListsSkip(usedQ, reqs, Used, h);
      LessPartition(num, free, holder, reqs, availQ, h);
      Newest(num, availRing, availCount, availQ, availIdx, availSeen, h);
      availRing := availRing[Slot(availIdx, num) := h];
      availIdx := Next(availIdx);
      availQ, availCount := availQ + [h], availCount + 1;
    }
  
    /** The device takes the next published request, if there is one: always the oldest not yet taken. */
    method DeviceTake() returns (r: Option<nat>)
      requires Valid()
      modifies this`availSeen, this`availQ, this`reqs
      ensures Valid() && (r.None? <==> old(availQ) == [])
      ensures r.None? ==> reqs == old(reqs) && availQ == old(availQ)
      ensures r.Some? ==>
                && r.value == old(availQ)[0] && availQ == old(availQ)[1..] && r.value in old(reqs)
                && reqs == Staged(old(reqs), r.value, Taken)
    {
      hide Partition, Linked, Recorded, Indexed, Next, Lists, Slot, NumFree, Staged;
      Pending(num, free, holder, reqs, availRing, availCount, availQ, Sent, availIdx, availSeen);
      if availSeen == availIdx { return None; }
      Oldest(num, availRing, availCount, availQ, availIdx, availSeen);
      var h := availRing[Slot(availSeen, num)];
      Dequeued(reqs, availQ, Sent, Taken);
      StagedKeeps(num, free, holder, desc, reqs, h, Taken);
      StagedRecord(info, status, busy, reqs, h, Taken);
      ListsMoved(usedQ, reqs, Used, h, Taken);
      availSeen := Next(availSeen);
      reqs := Staged(reqs, h, Taken);
      availQ := availQ[1..];
      return Some(h);
    }

    /** The device completes a request it has taken, in any order and with any status. */
    method DeviceComplete(h: nat, x: nat)
      requires Valid() && h in reqs && reqs[h].stage.Taken?
      modifies this`status, this`usedRing, this`usedIdx, this`usedQ, this`usedCount, this`reqs
      ensures Valid() && reqs == Staged(old(reqs), h, Used) && usedQ == old(usedQ) + [h]
      ensures h < |old(status)| && status == old(status)[h := x]
    {
      hide Partition, Linked, Recorded, Indexed, Next, Lists, Slot, NumFree;
      ghost var m := Staged(reqs, h, Used);
      StagedKeeps(num, free, holder, desc, reqs, h, Used);
      StagedStatus(info, status, busy, reqs, h, x);
      ListsMoved(availQ, reqs, Sent, h, Used);
      ListsMoved(usedQ, reqs, Used, h, Taken);
      Without(usedQ, reqs, h);
      NewListed(m, usedQ, h);
      LessPartition(num, free, holder, m, usedQ, h);
      Newest(num, usedRing, usedCount, usedQ, usedIdx, usedSeen, h);
      status := status[h := x];
      usedRing := usedRing[Slot(usedIdx, num) := h];
      usedIdx := Next(usedIdx);
      usedQ, usedCount := usedQ + [h], usedCount + 1;
      reqs := m;
    }

    /** One round of virtio_disk_intr: the oldest completion is for the buffer whose request the device completed.  False is
        the panic when the device reports an error. */
    method Seen() returns (ok: bool, b: nat)
      requires Valid() && usedQ != []
      modifies this`usedSeen, this`busy, this`usedQ, this`reqs
      ensures Valid() && old(usedQ)[0] in old(reqs) && b == old(reqs)[old(usedQ)[0]].buf
      ensures old(usedQ)[0] < |status| && (ok <==> status[old(usedQ)[0]] == 0)
      ensures !ok ==> usedQ == old(usedQ) && reqs == old(reqs) && busy == old(busy)
      ensures ok ==> usedQ == old(usedQ)[1..] && reqs == Staged(old(reqs), old(usedQ)[0], Done) && busy == old(busy) - {b}
    {
      hide Partition, Linked, Recorded, Indexed, Next, Lists, Slot, NumFree, Staged;
      Oldest(num, usedRing, usedCount, usedQ, usedIdx, usedSeen);
      var id := usedRing[Slot(usedSeen, num)];
      Dequeued(reqs, usedQ, Used, Done);
      RecordAt(info, status, busy, reqs, id);
      b := info[id].value;
      ok := status[id] == 0;
      if ok {
        StagedKeeps(num, free, holder, desc, reqs, id, Done);
        StagedDone(info, status, busy, reqs, id);
        ListsMoved(availQ, reqs, Sent, id, Done);
        busy := busy - {b};
        usedSeen := Next(usedSeen);
        reqs := Staged(reqs, id, Done);
        usedQ := usedQ[1..];
      }
    }

    /** virtio_disk_intr: the completions in the used ring are seen in order, up to the first with an error status, where it
        panics, and exactly the buffers they are for are released.  `n` of them were seen. */
    method Intr() returns (ok: bool, released: set<nat>, ghost n: nat)
      requires Valid()
      modifies this`usedSeen, this`busy, this`usedQ, this`reqs
      ensures Valid() && n <= |old(usedQ)| && (forall k :: 0 <= k < |old(usedQ)| ==> old(usedQ)[k] in old(reqs))
      ensures reqs == Handled(old(reqs), old(usedQ), n) && released == Buffers(old(reqs), old(usedQ), n)
      ensures usedQ == old(usedQ)[n..] && busy == old(busy) - released
      ensures forall k :: 0 <= k < n ==> old(usedQ)[k] < |status| && status[old(usedQ)[k]] == 0
      ensures if n == |old(usedQ)| then ok else !ok && old(usedQ)[n] < |status| && status[old(usedQ)[n]] != 0
    {
      hide Disk.Valid, Staged, Handled, Buffers;
      ok, released, n := true, {}, 0;
      Pends();
      NothingHandled(reqs, usedQ);
      while usedSeen != usedIdx
        invariant Valid() && 0 <= n <= |old(usedQ)| && usedQ == old(usedQ)[n..] && busy == old(busy) - released && ok
        invariant usedSeen == usedIdx <==> usedQ == []
        invariant reqs == Handled(old(reqs), old(usedQ), n) && released == Buffers(old(reqs), old(usedQ), n)
        invariant forall k :: 0 <= k < n ==> old(usedQ)[k] < |status| && status[old(usedQ)[k]] == 0
        decreases |usedQ|
      {
        var b;
        ok, b := Seen();
        if !ok { return; }
        HandledNext(old(reqs), old(usedQ), n);
        released := released + {b};
        n := n + 1;
        Pends();
      }
    }

    lemma Pends()
      requires Valid()
      ensures (usedSeen == usedIdx <==> usedQ == []) && forall k :: 0 <= k < |usedQ| ==> usedQ[k] in reqs
    {
      hide Linked, Recorded, Indexed, Next, Slot, NumFree, Lists, Partition;
      Pending(num, free, holder, reqs, usedRing, usedCount, usedQ, Used, usedIdx, usedSeen);
      AllThere(usedQ, reqs, Used);
    }

    /** The end of virtio_disk_rw, once the interrupt handler has released the buffer: the request is gone, its three
        descriptors are free, and nobody is left asleep for descriptors. */
    method Finish(h: nat)
      requires Valid() && h in reqs && reqs[h].stage.Done?
      modifies this
      ensures Valid() && reqs == old(reqs) - {h} && sleepers == 0 && NumFree(free) == NumFree(old(free)) + 3
      ensures availQ == old(availQ) && usedQ == old(usedQ) && busy == old(busy)
    {
      hide Partition, Linked, Recorded, Indexed, Next, Lists, Slot, NumFree, Returned;
      RecordLess(info, status, busy, reqs, h);
      RecordAt(info, status, busy, reqs, h);
      ListsLess(availQ, reqs, Sent, h);
      ListsLess(usedQ, reqs, Used, h);
      TableSizes(num, free, holder, reqs);
      info := info[h := None];
      ghost var chain := [h, reqs[h].second, reqs[h].third];
      FreeChain(h);
      TableSizes(num, free, holder, reqs);
      NoDriver(old(free), old(holder), free, holder, chain);
    }
  }
}
