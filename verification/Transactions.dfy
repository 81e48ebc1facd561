/** Transactions from begin_op to the end of end_op, one after another, among any readers: the durable contents go from
    one transaction's to the next's. */
module Transactions {
  import opened Blocks
  import opened BufferCache
  import opened Recovery
  import opened LogViews
  import opened Logging

  /** Nothing is logged and no operation or commit is under way. */
  ghost predicate Idle(l: Log)
    reads l, l.bc
  {
    l.Valid() && l.phase.Running? && !l.committing && l.outstanding == 0 && l.n == 0
  }

  /** The writes are to blocks outside the log. */
  ghost predicate Writable(a: Area, size: nat, ws: seq<Write>)
  {
    forall k :: 0 <= k < |ws| ==> ws[k].blockno < size && a.Home(ws[k].blockno)
  }

  /** Every one of them is. */
  ghost predicate AllWritable(a: Area, size: nat, ts: seq<seq<Write>>)
  {
    forall k :: 0 <= k < |ts| ==> Writable(a, size, ts[k])
  }

  lemma IdleDurable(l: Log)
    requires Idle(l)
    ensures SameHome(l.a, l.logical, l.durable) && |l.logical| == |l.bc.disk|
  {
    l.Unlisted();
  }

  lemma {:induction false} ApplySame(a: Area, d: seq<Block>, e: seq<Block>, ws: seq<Write>)
    requires SameHome(a, d, e) && Writable(a, |d|, ws)
    ensures SameHome(a, Apply(d, ws), Apply(e, ws))
  {
    if ws != [] {
      ApplySame(a, d, e, ws[..|ws| - 1]);
    }
  }

  /** Disk `d` recovers to one of two contents of the home blocks. */
  ghost predicate RecoversToEither(a: Area, d: seq<Block>, before: seq<Block>, after: seq<Block>)
  {
    WellFormed(a, d) && (SameHome(a, Recovered(a, d), before) || SameHome(a, Recovered(a, d), after))
  }

  /** After any number of the writes that took `w0` to `writes`, starting from disk `d`, the disk recovers to one of the
      two. */
  ghost predicate Survives(a: Area, d: seq<Block>, w0: seq<Write>, writes: seq<Write>, before: seq<Block>, after: seq<Block>)
  {
    && w0 <= writes && InRange(|d|, writes[|w0|..])
    && forall j :: 0 <= j <= |writes| - |w0| ==> RecoversToEither(a, Apply(d, writes[|w0|..][..j]), before, after)
  }

  /** What a commit writes survives a crash at any point. */
  lemma CommitSurvives(a: Area, d: seq<Block>, w0: seq<Write>, l0: seq<Block>, bs: seq<nat>, k: nat, writes: seq<Write>,
                       logical: seq<Block>, before: seq<Block>, after: seq<Block>)
    requires Progress(a, w0, l0, bs, k, writes, logical) && |l0| == |d|
    requires a.start < |d| && GetWord(d[a.start], 0) == 0
    requires forall b :: 0 <= b < |d| && b !in bs ==> d[b] == l0[b]
    requires SameHome(a, d, before) && SameHome(a, l0, after)
    ensures Survives(a, d, w0, writes, before, after)
  {
    hide Apply, Recovered, CommitWrites;
    var ws, data := Committing(a, l0, bs), Logged(l0, bs);
    assert HeadBlocks(d[a.start]) == [];
    assert d[a.start] == l0[a.start];
    assert writes[|w0|..] == ws[..k];
    CommitInRange(a, l0[a.start], bs, data, |d|);
    forall j | 0 <= j <= k ensures RecoversToEither(a, Apply(d, writes[|w0|..][..j]), before, after) {
      assert ws[..k][..j] == ws[..j];
      var e := Apply(d, ws[..j]);
      assert Overlaid(a, d, bs, data, l0);
      CommitCrashAtomic(a, d, bs, data, j, e, l0);
    }
  }

  lemma CommitInRange(a: Area, h: Block, bs: seq<nat>, data: seq<Block>, size: nat)
    requires |bs| == |data| && Loggable(a, size, bs)
    ensures InRange(size, CommitWrites(a, h, bs, data))
  {
    hide CommitWrites;
    forall i | 0 <= i < |CommitWrites(a, h, bs, data)| ensures CommitWrites(a, h, bs, data)[i].blockno < size {
      CommitWriteAt(a, h, bs, data, size, i);
    }
  }

  /** bread, change, log_write and brelse of one block. */
  method Update(l: Log, w: Write, pid: nat, env: nat -> seq<Act>) returns (ok: bool)
    requires l.Valid() && l.outstanding > 0 && l.dirty == {} && w.blockno < |l.bc.disk| && l.a.Home(w.blockno)
    modifies l`refs, l`n, l`block, l`dirty, l`logical, l.bc`bufs, l.bc`next, l.bc`prev, l.bc`order, l.bc`stamp, l.bc`clock
    ensures l.Valid()
    ensures ok ==> l.dirty == {} && w.blockno < |old(l.logical)| && l.logical == old(l.logical)[w.blockno := w.data]
  {
    hide Ring, ByAge, Unique, Tabled, Coherent, OnDisk, Loggable, RefsKept, LocksKept;
    var r, i := l.Acquire(w.blockno, pid, env, 0);
    if !r.Done? { return false; }
    l.Modify(i, pid, w.data);
    ghost var b := l.bc.bufs;
    l.Others(env(3), pid);
    LockKept(pid, b, l.bc.bufs, i);
    ok := l.LogWrite(i, pid);
    if ok {
      l.Sizes();
      l.Release(i, pid, env, 4);
    }
  }

  /** The body of an operation: its updates, in order. */
  method Operate(l: Log, ws: seq<Write>, pid: nat, env: (nat, nat) -> seq<Act>) returns (ok: bool)
    requires l.Valid() && l.outstanding > 0 && l.dirty == {} && Writable(l.a, |l.bc.disk|, ws)
    modifies l`refs, l`n, l`block, l`dirty, l`logical, l.bc`bufs, l.bc`next, l.bc`prev, l.bc`order, l.bc`stamp, l.bc`clock
    ensures l.Valid()
    ensures ok ==> l.dirty == {} && |old(l.logical)| == |l.bc.disk| && l.logical == Apply(old(l.logical), ws)
  {
    hide Ring, ByAge, Unique, Tabled, Coherent, OnDisk, Loggable, RefsKept, LocksKept;
    l.Sizes();
    ghost var d := l.logical;
    for k := 0 to |ws|
      invariant l.Valid() && l.dirty == {} && l.logical == Apply(d, ws[..k])
    {
      ok := Update(l, ws[k], pid, (j: nat) => env(k, j));
      if !ok { return; }
      assert ws[..k + 1][..k] == ws[..k];
    }
    assert ws[..|ws|] == ws;
    return true;
  }

  lemma Ready(l: Log)
    requires l.Valid() && l.phase.Running?
    ensures |l.logical| == |l.bc.disk| && l.a.start < |l.bc.disk| && GetWord(l.bc.disk[l.a.start], 0) == 0
    ensures l.n <= |l.block| && forall b :: 0 <= b < |l.bc.disk| && b !in l.block[..l.n] ==> l.bc.disk[b] == l.logical[b]
    ensures SameHome(l.a, l.bc.disk, l.durable)
  {
    l.Unlisted();
  }

  lemma IdleSurvives(l: Log, after: seq<Block>)
    requires Idle(l)
    ensures Survives(l.a, l.bc.disk, l.bc.writes, l.bc.writes, l.durable, after)
  {
    hide Recovered;
    l.CrashSafe();
    assert l.bc.writes[|l.bc.writes|..] == [];
  }

  /** One operation from begin_op to the end of end_op.  If it completes, its updates are durable and the next may begin;
      if it stops on the way, all or none of them are. */
  method Transact(l: Log, ws: seq<Write>, pid: nat, env: (nat, nat) -> seq<Act>, env': (nat, nat) -> seq<Act>) returns (ok: bool)
    requires Idle(l) && Writable(l.a, |l.bc.disk|, ws)
    modifies l, l.bc
    ensures l.Valid() && |l.bc.disk| == |old(l.bc.disk)| == |old(l.durable)|
    ensures ok ==> Idle(l) && SameHome(l.a, l.durable, Apply(old(l.durable), ws))
    ensures !ok ==> l.durable == old(l.durable) || SameHome(l.a, l.durable, Apply(old(l.durable), ws))
    ensures Survives(l.a, old(l.bc.disk), old(l.bc.writes), l.bc.writes, old(l.durable), Apply(old(l.durable), ws))
  {
    hide Ring, ByAge, Unique, Tabled, Coherent, OnDisk, Loggable, RefsKept, LocksKept, Progress, Apply, Survives;
    IdleDurable(l);
    ApplySame(l.a, l.logical, l.durable, ws);
    IdleSurvives(l, Apply(l.durable, ws));
    ok := l.BeginOp();
    if !ok { return; }
    ok := Operate(l, ws, pid, env);
    if !ok { return; }
    var last := l.EndOp();
    ghost var w0, l0, bs := l.bc.writes, l.logical, l.block[..l.n];
    ghost var d := l.bc.disk;
    Ready(l);
    var r;
    ghost var done;
    r, done := l.Commit(pid, env');
    ProgressSame(l.a, w0, l0, bs, done, l.bc.writes, l.logical);
    CommitSurvives(l.a, d, w0, l0, bs, done, l.bc.writes, l.logical, old(l.durable), Apply(old(l.durable), ws));
    ok := r.Done?;
    if ok {
      l.EndCommit();
      IdleDurable(l);
    }
  }

  /** The contents after a series of transactions. */
  function ApplyAll(d: seq<Block>, ts: seq<seq<Write>>): (r: seq<Block>)
    requires forall k :: 0 <= k < |ts| ==> InRange(|d|, ts[k])
    ensures |r| == |d|
  {
    if ts == [] then d else Apply(ApplyAll(d, ts[..|ts| - 1]), ts[|ts| - 1])
  }

  /** Any number of transactions: those that completed are durable, in order, and the one that did not is durable as a
      whole or not at all. */
  method Run(l: Log, ts: seq<seq<Write>>, pid: nat, env: (nat, nat, nat) -> seq<Act>, env': (nat, nat, nat) -> seq<Act>)
    returns (done: nat)
    requires Idle(l) && AllWritable(l.a, |l.bc.disk|, ts)
    modifies l, l.bc
    ensures l.Valid() && done <= |ts| && |old(l.durable)| == |old(l.bc.disk)|
    ensures done == |ts| ==> Idle(l)
    ensures || SameHome(l.a, l.durable, ApplyAll(old(l.durable), ts[..done]))
            || (done < |ts| && SameHome(l.a, l.durable, ApplyAll(old(l.durable), ts[..done + 1])))
  {
    hide Ring, ByAge, Unique, Tabled, Coherent, OnDisk, Loggable, Apply;
    IdleDurable(l);
    ghost var d := l.durable;
    done := 0;
    while done < |ts|
      invariant Idle(l) && done <= |ts| && |l.bc.disk| == |d|
      invariant SameHome(l.a, l.durable, ApplyAll(d, ts[..done]))
    {
      ApplySame(l.a, l.durable, ApplyAll(d, ts[..done]), ts[done]);
      assert ts[..done + 1][..done] == ts[..done];
      var k := done;
      var ok := Transact(l, ts[done], pid, (i: nat, j: nat) => env(k, i, j), (i: nat, j: nat) => env'(k, i, j));
      if !ok { return; }
      done := done + 1;
    }
  }
}
