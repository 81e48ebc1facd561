/** What the logging layer knows about the cache and the disk, as values: when valid buffers, pinned buffers and the disk
    agree, and what the disk holds in each phase of a commit, with the steps that keep it so. */
module LogViews {
  import opened Blocks
  import opened BufferCache
  import opened Recovery

  const ROOTDEV: nat := 1

  /** What the logging layer knows about the cache and the disk.  `refs` tells which processes have references to
      each buffer, `dirty` the buffers changed since they were last logged, `pending` the logged blocks not yet
      installed, and `logical` what every block should read as. */
  datatype View = View(bufs: seq<Buf>, refs: seq<multiset<nat>>, dirty: set<nat>, pending: set<nat>,
                       logical: seq<Block>, disk: seq<Block>)

  function More(m: multiset<nat>, pid: nat): multiset<nat>
  {
    m[pid := m[pid] + 1]
  }

  function Less(m: multiset<nat>, pid: nat): multiset<nat>
    requires m[pid] > 0
  {
    m[pid := m[pid] - 1]
  }

  ghost predicate BufOk(v: View, i: nat)
    requires i < |v.bufs| == |v.refs|
  {
    var b := v.bufs[i];
    && (b.dev == 0 || b.dev == ROOTDEV)
    && (b.dev == 0 ==> b.refcnt == 0)
    && b.refcnt == |v.refs[i]| + (if b.dev == ROOTDEV && b.blockno in v.pending then 1 else 0)
    && (b.owner.Some? ==> v.refs[i][b.owner.value] > 0)
    && (b.dev == ROOTDEV && b.valid && i !in v.dirty ==>
          b.blockno < |v.logical| && b.data == v.logical[b.blockno])
    && (i in v.dirty ==> b.owner.Some? && b.valid && b.dev == ROOTDEV)
  }

  ghost predicate Buffered(v: View, b: nat)
  {
    exists i :: 0 <= i < |v.bufs| && v.bufs[i].Holds(ROOTDEV, b) && v.bufs[i].valid
  }

  /** Valid buffers nobody is changing hold the logical block; the disk does too except for pending
      blocks, each of which is pinned in a valid buffer. */
  ghost predicate Coherent(v: View)
  {
    && |v.bufs| == |v.refs| && |v.logical| == |v.disk|
    && (forall i :: 0 <= i < |v.bufs| ==> BufOk(v, i))
    && (forall i :: i in v.dirty ==> i < |v.bufs|)
    && (forall b :: 0 <= b < |v.disk| && b !in v.pending ==> v.disk[b] == v.logical[b])
    && (forall b :: b in v.pending ==> Buffered(v, b))
  }

  /** A view in which buffer `i` alone changed, blocks and everything else being as before. */
  function WithBuf(v: View, i: nat, b: Buf, r: multiset<nat>): View
    requires i < |v.bufs| == |v.refs|
  {
    v.(bufs := v.bufs[i := b], refs := v.refs[i := r])
  }

  lemma StillBuffered(v: View, w: View, i: nat)
    requires i < |v.bufs| == |w.bufs| && w.pending <= v.pending
    requires forall j :: 0 <= j < |v.bufs| && j != i ==> v.bufs[j] == w.bufs[j]
    requires v.bufs[i].valid && v.bufs[i].dev == ROOTDEV && v.bufs[i].blockno in w.pending ==>
               w.bufs[i].valid && w.bufs[i].dev == ROOTDEV && w.bufs[i].blockno == v.bufs[i].blockno
    requires forall b :: b in v.pending ==> Buffered(v, b)
    ensures forall b :: b in w.pending ==> Buffered(w, b)
  {
    forall b | b in w.pending ensures Buffered(w, b) {
      assert Buffered(v, b);
      var j :| 0 <= j < |v.bufs| && v.bufs[j].Holds(ROOTDEV, b) && v.bufs[j].valid;
      assert w.bufs[j].Holds(ROOTDEV, b) && w.bufs[j].valid;
    }
  }

  /** One more reference to a cached block. */
  lemma HitKeeps(v: View, i: nat, pid: nat)
    requires Coherent(v) && i < |v.bufs| && v.bufs[i].dev == ROOTDEV
    ensures Coherent(WithBuf(v, i, v.bufs[i].(refcnt := v.bufs[i].refcnt + 1), More(v.refs[i], pid)))
  {
    var w := WithBuf(v, i, v.bufs[i].(refcnt := v.bufs[i].refcnt + 1), More(v.refs[i], pid));
    StillBuffered(v, w, i);
    forall j | 0 <= j < |w.bufs| ensures BufOk(w, j) { assert BufOk(v, j); }
  }

  /** An unreferenced buffer never holds a pending block, so recycling it loses nothing. */
  lemma RecycleKeeps(v: View, i: nat, blockno: nat, pid: nat)
    requires Coherent(v) && i < |v.bufs| && v.bufs[i].refcnt == 0
    requires forall j :: 0 <= j < |v.bufs| ==> !v.bufs[j].Holds(ROOTDEV, blockno)
    ensures v.bufs[i].dev == ROOTDEV ==> v.bufs[i].blockno !in v.pending
    ensures v.refs[i] == multiset{} && v.bufs[i].owner.None? && i !in v.dirty
    ensures blockno !in v.pending
    ensures Coherent(WithBuf(v, i, v.bufs[i].(dev := ROOTDEV, blockno := blockno, valid := false, refcnt := 1), More(v.refs[i], pid)))
  {
    assert BufOk(v, i);
    assert !Buffered(v, blockno);
    var w := WithBuf(v, i, v.bufs[i].(dev := ROOTDEV, blockno := blockno, valid := false, refcnt := 1), More(v.refs[i], pid));
    StillBuffered(v, w, i);
    forall j | 0 <= j < |w.bufs| ensures BufOk(w, j) { assert BufOk(v, j); }
  }

  lemma LockKeeps(v: View, i: nat, pid: nat)
    requires Coherent(v) && i < |v.bufs| && v.refs[i][pid] > 0
    ensures Coherent(WithBuf(v, i, v.bufs[i].(owner := Some(pid)), v.refs[i]))
  {
    var w := WithBuf(v, i, v.bufs[i].(owner := Some(pid)), v.refs[i]);
    StillBuffered(v, w, i);
    forall j | 0 <= j < |w.bufs| ensures BufOk(w, j) { assert BufOk(v, j); }
  }

  /** A buffer that has to be filled does not hold a pending block, so the disk has its contents. */
  lemma FillKeeps(v: View, i: nat)
    requires Coherent(v) && Unique(v.bufs) && i < |v.bufs| && v.bufs[i].owner.Some? && v.bufs[i].dev == ROOTDEV
    requires v.bufs[i].blockno < |v.disk| && !v.bufs[i].valid
    ensures v.disk[v.bufs[i].blockno] == v.logical[v.bufs[i].blockno]
    ensures Coherent(WithBuf(v, i, v.bufs[i].(valid := true, data := v.disk[v.bufs[i].blockno]), v.refs[i]))
  {
    var b := v.bufs[i].blockno;
    assert !Buffered(v, b);
    var w := WithBuf(v, i, v.bufs[i].(valid := true, data := v.disk[b]), v.refs[i]);
    StillBuffered(v, w, i);
    forall j | 0 <= j < |w.bufs| ensures BufOk(w, j) { assert BufOk(v, j); }
  }

  lemma ModifyKeeps(v: View, i: nat, data: Block)
    requires Coherent(v) && i < |v.bufs| && v.bufs[i].owner.Some? && v.bufs[i].valid && v.bufs[i].dev == ROOTDEV
    ensures Coherent(WithBuf(v, i, v.bufs[i].(data := data), v.refs[i]).(dirty := v.dirty + {i}))
  {
    var w := WithBuf(v, i, v.bufs[i].(data := data), v.refs[i]).(dirty := v.dirty + {i});
    StillBuffered(v, w, i);
    forall j | 0 <= j < |w.bufs| ensures BufOk(w, j) { assert BufOk(v, j); }
  }

  lemma ReleaseKeeps(v: View, i: nat, pid: nat)
    requires Coherent(v) && i < |v.bufs| && v.bufs[i].owner == Some(pid) && i !in v.dirty
    ensures v.refs[i][pid] > 0 && v.bufs[i].refcnt > 0
    ensures Coherent(WithBuf(v, i, v.bufs[i].(owner := None, refcnt := v.bufs[i].refcnt - 1), Less(v.refs[i], pid)))
  {
    assert BufOk(v, i);
    var w := WithBuf(v, i, v.bufs[i].(owner := None, refcnt := v.bufs[i].refcnt - 1), Less(v.refs[i], pid));
    assert |v.refs[i]| == |w.refs[i]| + 1;
    StillBuffered(v, w, i);
    forall j | 0 <= j < |w.bufs| ensures BufOk(w, j) { assert BufOk(v, j); }
  }

  lemma LogBuf(v: View, i: nat, j: nat)
    requires Unique(v.bufs) && i < |v.bufs| == |v.refs| && j < |v.bufs| && BufOk(v, i) && BufOk(v, j)
    requires v.bufs[i].owner.Some? && v.bufs[i].valid && v.bufs[i].dev == ROOTDEV && v.bufs[i].blockno < |v.logical|
    ensures var b := v.bufs[i];
            var pins := if b.blockno in v.pending then 0 else 1;
            BufOk(WithBuf(v, i, b.(refcnt := b.refcnt + pins), v.refs[i])
                    .(dirty := v.dirty - {i}, pending := v.pending + {b.blockno}, logical := v.logical[b.blockno := b.data]), j)
  {
  }

  /** Logging a buffer makes its contents the logical block, pinning it the first time. */
  lemma LogKeeps(v: View, i: nat)
    requires Coherent(v) && Unique(v.bufs) && i < |v.bufs| && v.bufs[i].owner.Some? && v.bufs[i].valid
    requires v.bufs[i].dev == ROOTDEV && v.bufs[i].blockno < |v.logical|
    ensures var b := v.bufs[i];
            var pins := if b.blockno in v.pending then 0 else 1;
            Coherent(WithBuf(v, i, b.(refcnt := b.refcnt + pins), v.refs[i])
                       .(dirty := v.dirty - {i}, pending := v.pending + {b.blockno},
                         logical := v.logical[b.blockno := b.data]))
  {
    hide BufOk;
    var b := v.bufs[i];
    var pins := if b.blockno in v.pending then 0 else 1;
    var w := WithBuf(v, i, b.(refcnt := b.refcnt + pins), v.refs[i])
               .(dirty := v.dirty - {i}, pending := v.pending + {b.blockno},
                 logical := v.logical[b.blockno := b.data]);
    StillBuffered(v, w.(pending := v.pending), i);
    forall c | c in w.pending ensures Buffered(w, c) {
      if c == b.blockno {
        assert w.bufs[i].Holds(ROOTDEV, c) && w.bufs[i].valid;
      } else {
        assert Buffered(w.(pending := v.pending), c);
      }
    }
    forall j | 0 <= j < |w.bufs| ensures BufOk(w, j) { LogBuf(v, i, j); }
  }

  /** Writing a locked buffer through to a block that is not pending changes that block alone. */
  lemma WriteThroughKeeps(v: View, i: nat, data: Block)
    requires Coherent(v) && Unique(v.bufs) && i < |v.bufs| && v.bufs[i].owner.Some? && v.bufs[i].valid
    requires v.bufs[i].dev == ROOTDEV && i !in v.dirty
    requires v.bufs[i].blockno < |v.logical| && v.bufs[i].blockno !in v.pending
    ensures var b := v.bufs[i];
            Coherent(WithBuf(v, i, b.(data := data), v.refs[i])
                       .(logical := v.logical[b.blockno := data], disk := v.disk[b.blockno := data]))
  {
    var b := v.bufs[i];
    var w := WithBuf(v, i, b.(data := data), v.refs[i])
               .(logical := v.logical[b.blockno := data], disk := v.disk[b.blockno := data]);
    StillBuffered(v, w, i);
    forall j | 0 <= j < |w.bufs| ensures BufOk(w, j) { assert BufOk(v, j); }
  }

  /** Writing a pending block home settles it: it is no longer pending and its pin is dropped. */
  lemma InstallKeeps(v: View, i: nat)
    requires Coherent(v) && Unique(v.bufs) && i < |v.bufs| && v.bufs[i].owner.Some? && v.bufs[i].valid
    requires v.bufs[i].dev == ROOTDEV && i !in v.dirty
    requires v.bufs[i].blockno < |v.logical| && v.bufs[i].blockno in v.pending
    ensures v.bufs[i].data == v.logical[v.bufs[i].blockno] && v.bufs[i].refcnt > 1
    ensures var b := v.bufs[i];
            Coherent(WithBuf(v, i, b.(refcnt := b.refcnt - 1), v.refs[i])
                       .(pending := v.pending - {b.blockno}, disk := v.disk[b.blockno := b.data]))
  {
    var b := v.bufs[i];
    assert BufOk(v, i);
    var w := WithBuf(v, i, b.(refcnt := b.refcnt - 1), v.refs[i])
               .(pending := v.pending - {b.blockno}, disk := v.disk[b.blockno := b.data]);
    StillBuffered(v, w, i);
    forall j | 0 <= j < |w.bufs| ensures BufOk(w, j) { assert BufOk(v, j); }
  }

  /** Booting: recovery has not finished.  Running: the log on disk is empty.  Installing: it lists
      the transaction being installed.  Clearing: all of it is installed, and the log is about to be emptied. */
  datatype Phase = Booting | Running | Installing | Clearing

  /** The blocks `bs` as they logically read: what commit copies to the log. */
  function Logged(logical: seq<Block>, bs: seq<nat>): seq<Block>
    requires forall t :: 0 <= t < |bs| ==> bs[t] < |logical|
  {
    seq(|bs|, t requires 0 <= t < |bs| => logical[bs[t]])
  }

  /** The first `k` log blocks on disk hold the logical contents of the first `k` blocks of `bs`. */
  ghost predicate Copied(a: Area, bs: seq<nat>, k: nat, disk: seq<Block>, logical: seq<Block>)
  {
    k <= |bs| && forall t :: 0 <= t < k ==>
      bs[t] < |logical| && a.start + 1 + t < |disk| && disk[a.start + 1 + t] == logical[bs[t]]
  }

  /** What the disk holds: while running, the durable state under an empty log, and the first `k` blocks of the
      transaction `bs` in the log area; while installing, a log carrying the whole transaction, whose effect is the
      durable state; while clearing, the durable state under whatever log recovers to it. */
  ghost predicate OnDisk(phase: Phase, a: Area, bs: seq<nat>, k: nat, disk: seq<Block>, logical: seq<Block>,
                         durable: seq<Block>)
  {
    && Loggable(a, |disk|, bs) && |durable| == |logical| == |disk|
    && match phase
       case Booting => WellFormed(a, disk) && SameHome(a, Recovered(a, disk), durable)
       case Running => GetWord(disk[a.start], 0) == 0 && SameHome(a, disk, durable) && Copied(a, bs, k, disk, logical)
       case Installing =>
         Carries(a, disk, bs, Logged(logical, bs), logical) && SameHome(a, logical, durable)
       case Clearing =>
         && WellFormed(a, disk) && SameHome(a, Recovered(a, disk), durable)
         && SameHome(a, disk, durable) && SameHome(a, logical, durable)
  }

  /** While running, what is logged in memory does not matter to the disk. */
  lemma OnDiskWhileLogging(a: Area, bs: seq<nat>, bs': seq<nat>, disk: seq<Block>, logical: seq<Block>,
                           logical': seq<Block>, durable: seq<Block>)
    requires OnDisk(Running, a, bs, 0, disk, logical, durable)
    requires Loggable(a, |disk|, bs') && |logical'| == |logical|
    ensures OnDisk(Running, a, bs', 0, disk, logical', durable)
  {
  }

  /** Copying the next block of the transaction to the log. */
  lemma OnDiskLogBlock(a: Area, bs: seq<nat>, k: nat, disk: seq<Block>, logical: seq<Block>, durable: seq<Block>)
    requires OnDisk(Running, a, bs, k, disk, logical, durable) && k < |bs|
    ensures bs[k] < |logical| && a.start + 1 + k < |disk|
    ensures var x := logical[bs[k]];
            OnDisk(Running, a, bs, k + 1, disk[a.start + 1 + k := x], logical[a.start + 1 + k := x], durable)
  {
    var x := logical[bs[k]];
    var disk', logical' := disk[a.start + 1 + k := x], logical[a.start + 1 + k := x];
    forall t | 0 <= t < k + 1 ensures disk'[a.start + 1 + t] == logical'[bs[t]] { assert a.Home(bs[t]); }
  }

  /** The commit point: with every block of the transaction in the log, writing the header makes the
      logical contents the durable ones. */
  lemma OnDiskCommit(a: Area, bs: seq<nat>, disk: seq<Block>, logical: seq<Block>, durable: seq<Block>)
    requires OnDisk(Running, a, bs, |bs|, disk, logical, durable)
    requires forall b :: 0 <= b < |disk| && b !in bs ==> disk[b] == logical[b]
    ensures var h := PutHead(logical[a.start], bs);
            OnDisk(Installing, a, bs, |bs|, disk[a.start := h], logical[a.start := h], logical[a.start := h])
  {
    HeadRoundTrip(logical[a.start], bs);
    var h := PutHead(logical[a.start], bs);
    assert Logged(logical[a.start := h], bs) == Logged(logical, bs);
  }

  lemma OnDiskInstall(a: Area, bs: seq<nat>, disk: seq<Block>, logical: seq<Block>, durable: seq<Block>, k: nat, t: nat)
    requires OnDisk(Installing, a, bs, k, disk, logical, durable) && t < |bs|
    ensures OnDisk(Installing, a, bs, k, disk[bs[t] := logical[bs[t]]], logical, durable)
  {
    assert a.Home(bs[t]);
  }

  /** With everything installed, forgetting the transaction in memory changes nothing on disk. */
  lemma OnDiskForget(a: Area, bs: seq<nat>, disk: seq<Block>, logical: seq<Block>, durable: seq<Block>, k: nat)
    requires OnDisk(Installing, a, bs, k, disk, logical, durable) && SameHome(a, disk, logical)
    ensures OnDisk(Clearing, a, [], 0, disk, logical, durable)
  {
    OnDiskRecovers(Installing, a, bs, k, disk, logical, durable);
  }

  lemma OnDiskClear(a: Area, disk: seq<Block>, logical: seq<Block>, durable: seq<Block>)
    requires OnDisk(Clearing, a, [], 0, disk, logical, durable)
    ensures var h := PutHead(logical[a.start], []);
            OnDisk(Running, a, [], 0, disk[a.start := h], logical[a.start := h], durable)
  {
    HeadRoundTrip(logical[a.start], []);
  }

  lemma OnDiskRecovered(a: Area, d: seq<Block>, durable: seq<Block>)
    requires WellFormed(a, d) && SameHome(a, Recovered(a, d), durable)
    ensures OnDisk(Running, a, [], 0, Recovered(a, d), Recovered(a, d), durable)
  {
    RecoveredOverlays(a, d);
  }

  /** Installing the next block of the transaction removes exactly it from those pending. */
  lemma PendingShrinks(a: Area, size: nat, block: seq<nat>, k: nat, n: nat)
    requires k < n <= |block| && Loggable(a, size, block[..n])
    ensures Elements(block[k + 1..n]) == Elements(block[k..n]) - {block[k]}
    ensures block[k] in Elements(block[k..n])
  {
    var bs := block[..n];
    assert block[k..n] == [block[k]] + block[k + 1..n];
    var rest := block[k + 1..n];
    forall j | 0 <= j < |rest| ensures rest[j] != block[k] {
      assert bs[k + 1 + j] == rest[j] && bs[k] == block[k];
    }
  }

  lemma OnDiskRecovers(phase: Phase, a: Area, bs: seq<nat>, k: nat, disk: seq<Block>, logical: seq<Block>,
                       durable: seq<Block>)
    requires OnDisk(phase, a, bs, k, disk, logical, durable)
    ensures WellFormed(a, disk) && SameHome(a, Recovered(a, disk), durable)
  {
    match phase {
      case Booting =>
      case Clearing =>
      case Running =>
        assert HeadBlocks(disk[a.start]) == [];
        RecoversTo(a, disk, [], [], disk, disk);
      case Installing =>
        assert Overlaid(a, logical, bs, Logged(logical, bs), logical);
        RecoversTo(a, disk, bs, Logged(logical, bs), logical, logical);
    }
  }

  function Elements(s: seq<nat>): set<nat>
  {
    set x | x in s
  }

  lemma LoggableGrows(a: Area, size: nat, block: seq<nat>, n: nat)
    requires n < |block| && n < a.cap && Loggable(a, size, block[..n])
    requires block[n] < size && a.Home(block[n]) && block[n] !in block[..n]
    ensures Loggable(a, size, block[..n + 1])
    ensures Elements(block[0..n + 1]) == Elements(block[0..n]) + {block[n]}
  {
    assert block[..n + 1] == block[..n] + [block[n]];
    assert block[0..n] == block[..n] && block[0..n + 1] == block[..n + 1];
  }

  /** The writes of a commit of blocks `bs` with their logical contents. */
  ghost function Committing(a: Area, logical: seq<Block>, bs: seq<nat>): seq<Write>
    requires Loggable(a, |logical|, bs)
  {
    CommitWrites(a, logical[a.start], bs, Logged(logical, bs))
  }

  /** The first `k` writes of the commit of `bs` were made since the writes were `w0` and the logical blocks `l0`, and
      no home block reads differently. */
  ghost predicate Progress(a: Area, w0: seq<Write>, l0: seq<Block>, bs: seq<nat>, k: nat, writes: seq<Write>,
                           logical: seq<Block>)
  {
    && Loggable(a, |l0|, bs) && k <= 2 * |bs| + 2 && |Committing(a, l0, bs)| == 2 * |bs| + 2
    && writes == w0 + Committing(a, l0, bs)[..k] && SameHome(a, logical, l0)
    && (k <= 2 * |bs| + 1 ==> logical[a.start] == if k <= |bs| then l0[a.start] else PutHead(l0[a.start], bs))
  }

  lemma ProgressStart(a: Area, w0: seq<Write>, l0: seq<Block>, bs: seq<nat>)
    requires Loggable(a, |l0|, bs)
    ensures Progress(a, w0, l0, bs, 0, w0, l0)
  {
    assert Committing(a, l0, bs)[..0] == [];
  }

  lemma ProgressSame(a: Area, w0: seq<Write>, l0: seq<Block>, bs: seq<nat>, k: nat, writes: seq<Write>, logical: seq<Block>)
    requires Progress(a, w0, l0, bs, k, writes, logical)
    ensures SameHome(a, logical, l0)
  {
  }

  lemma OneMore(w0: seq<Write>, ws: seq<Write>, k: nat, writes: seq<Write>)
    requires k < |ws| && writes == w0 + ws[..k]
    ensures writes + [ws[k]] == w0 + ws[..k + 1]
  {
    assert ws[..k + 1] == ws[..k] + [ws[k]];
  }

  lemma ProgressLog(a: Area, w0: seq<Write>, l0: seq<Block>, bs: seq<nat>, k: nat, writes: seq<Write>, logical: seq<Block>)
    requires Progress(a, w0, l0, bs, k, writes, logical) && k < |bs|
    ensures bs[k] < |logical| && a.start + 1 + k < |logical|
    ensures var x := logical[bs[k]];
            Progress(a, w0, l0, bs, k + 1, writes + [Write(a.start + 1 + k, x)], logical[a.start + 1 + k := x])
  {
    hide CommitWrites;
    CommitWriteAt(a, l0[a.start], bs, Logged(l0, bs), |l0|, k);
    assert a.Home(bs[k]);
    OneMore(w0, Committing(a, l0, bs), k, writes);
  }

  lemma ProgressHead(a: Area, w0: seq<Write>, l0: seq<Block>, bs: seq<nat>, writes: seq<Write>, logical: seq<Block>)
    requires Progress(a, w0, l0, bs, |bs|, writes, logical)
    ensures var h := PutHead(logical[a.start], bs);
            Progress(a, w0, l0, bs, |bs| + 1, writes + [Write(a.start, h)], logical[a.start := h])
  {
    hide CommitWrites;
    CommitWriteAt(a, l0[a.start], bs, Logged(l0, bs), |l0|, |bs|);
    OneMore(w0, Committing(a, l0, bs), |bs|, writes);
  }

  lemma ProgressHome(a: Area, w0: seq<Write>, l0: seq<Block>, bs: seq<nat>, t: nat, writes: seq<Write>, logical: seq<Block>)
    requires t < |bs| && Progress(a, w0, l0, bs, |bs| + 1 + t, writes, logical)
    ensures bs[t] < |logical| && Progress(a, w0, l0, bs, |bs| + 2 + t, writes + [Write(bs[t], logical[bs[t]])], logical)
  {
    hide CommitWrites;
    CommitWriteAt(a, l0[a.start], bs, Logged(l0, bs), |l0|, |bs| + 1 + t);
    assert a.Home(bs[t]);
    OneMore(w0, Committing(a, l0, bs), |bs| + 1 + t, writes);
  }

  lemma ProgressErase(a: Area, w0: seq<Write>, l0: seq<Block>, bs: seq<nat>, writes: seq<Write>, logical: seq<Block>)
    requires Progress(a, w0, l0, bs, 2 * |bs| + 1, writes, logical)
    ensures var h := PutHead(logical[a.start], []);
            Progress(a, w0, l0, bs, 2 * |bs| + 2, writes + [Write(a.start, h)], logical[a.start := h])
  {
    hide CommitWrites;
    CommitWriteAt(a, l0[a.start], bs, Logged(l0, bs), |l0|, 2 * |bs| + 1);
    OneMore(w0, Committing(a, l0, bs), 2 * |bs| + 1, writes);
  }

  /** What the others may do to the cache while process `pid` works: its references stay, and so do the blocks they are
      to. */
  ghost predicate RefsKept(pid: nat, bufs: seq<Buf>, refs: seq<multiset<nat>>, bufs': seq<Buf>, refs': seq<multiset<nat>>)
  {
    && |bufs'| == |bufs| == |refs| == |refs'|
    && forall i :: 0 <= i < |bufs| ==>
         && refs'[i][pid] == refs[i][pid]
         && (refs[i][pid] > 0 ==> bufs'[i].dev == bufs[i].dev && bufs'[i].blockno == bufs[i].blockno)
  }

  /** The buffers process `pid` has locked are as they were, up to the references others have to them. */
  ghost predicate LocksKept(pid: nat, bufs: seq<Buf>, bufs': seq<Buf>)
  {
    && |bufs'| == |bufs|
    && forall i :: 0 <= i < |bufs| && bufs[i].owner == Some(pid) ==> bufs'[i] == bufs[i].(refcnt := bufs'[i].refcnt)
  }

  /** The step of another process touched one buffer, and not one that `pid` had locked. */
  lemma OneStep(pid: nat, q: nat, bufs: seq<Buf>, refs: seq<multiset<nat>>, bufs': seq<Buf>, refs': seq<multiset<nat>>, i: nat)
    requires |bufs| == |refs| && i < |bufs| && q != pid
    requires |bufs'| == |bufs| && bufs' == bufs[i := bufs'[i]] && |refs'| == |refs| && refs' == refs[i := refs'[i]]
    requires refs'[i][pid] == refs[i][pid]
    requires refs[i][pid] > 0 ==> bufs'[i].dev == bufs[i].dev && bufs'[i].blockno == bufs[i].blockno
    requires bufs[i].owner == Some(pid) ==> bufs'[i] == bufs[i].(refcnt := bufs'[i].refcnt)
    ensures RefsKept(pid, bufs, refs, bufs', refs') && LocksKept(pid, bufs, bufs')
  {
  }

  lemma KeptAlready(pid: nat, bufs: seq<Buf>, refs: seq<multiset<nat>>)
    requires |bufs| == |refs|
    ensures RefsKept(pid, bufs, refs, bufs, refs) && LocksKept(pid, bufs, bufs)
  {
  }

  lemma KeptTwice(pid: nat, b0: seq<Buf>, r0: seq<multiset<nat>>, b1: seq<Buf>, r1: seq<multiset<nat>>, b2: seq<Buf>, r2: seq<multiset<nat>>)
    requires RefsKept(pid, b0, r0, b1, r1) && RefsKept(pid, b1, r1, b2, r2) && LocksKept(pid, b0, b1) && LocksKept(pid, b1, b2)
    ensures RefsKept(pid, b0, r0, b2, r2) && LocksKept(pid, b0, b2)
  {
    forall i | 0 <= i < |b0| && b0[i].owner == Some(pid) ensures b2[i] == b0[i].(refcnt := b2[i].refcnt) {
      assert b1[i].owner == Some(pid);
    }
  }

  lemma LocksTwice(pid: nat, b0: seq<Buf>, b1: seq<Buf>, b2: seq<Buf>)
    requires LocksKept(pid, b0, b1) && LocksKept(pid, b1, b2)
    ensures LocksKept(pid, b0, b2)
  {
    forall i | 0 <= i < |b0| && b0[i].owner == Some(pid) ensures b2[i] == b0[i].(refcnt := b2[i].refcnt) {
      assert b1[i].owner == Some(pid);
    }
  }

  lemma LockKept(pid: nat, b0: seq<Buf>, b1: seq<Buf>, i: nat)
    requires LocksKept(pid, b0, b1) && i < |b0| && b0[i].owner == Some(pid)
    ensures |b1| == |b0| && b1[i] == b0[i].(refcnt := b1[i].refcnt)
  {
  }

  /** Taking a reference disturbs no locked buffer. */
  lemma Referenced(pid: nat, b0: seq<Buf>, b1: seq<Buf>, i: nat)
    requires |b0| == |b1| && i < |b0| && b1 == b0[i := b1[i]]
    requires b0[i].owner == Some(pid) ==> b1[i] == b0[i].(refcnt := b1[i].refcnt)
    ensures LocksKept(pid, b0, b1)
  {
  }

  /** Locking a free buffer and filling it disturbs no buffer locked before. */
  lemma Relocked(pid: nat, b0: seq<Buf>, b1: seq<Buf>, b2: seq<Buf>, b3: seq<Buf>, b4: seq<Buf>, i: nat)
    requires i < |b0| == |b1| && b1 == b0[i := b1[i]] && b0[i].owner.None? && LocksKept(pid, b1, b2)
    requires |b3| == |b2| && b3 == b2[i := b3[i]] && LocksKept(pid, b3, b4)
    ensures LocksKept(pid, b0, b4)
  {
    forall k | 0 <= k < |b0| && b0[k].owner == Some(pid) ensures b4[k] == b0[k].(refcnt := b4[k].refcnt) {
      assert b1[k] == b0[k] && b3[k] == b2[k];
    }
  }

  /** Giving up one buffer leaves the others locked. */
  lemma Unlocks(pid: nat, b0: seq<Buf>, b1: seq<Buf>, b2: seq<Buf>, b3: seq<Buf>, i: nat)
    requires LocksKept(pid, b0, b1) && i < |b1| == |b2| && b2 == b1[i := b2[i]] && LocksKept(pid, b2, b3)
    ensures |b3| == |b0|
    ensures forall k :: 0 <= k < |b0| && k != i && b0[k].owner == Some(pid) ==> b3[k].owner == Some(pid)
  {
  }
}
