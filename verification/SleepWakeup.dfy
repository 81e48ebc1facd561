/** sleep and wakeup under mutexes, semaphores and sleeplocks, as a step system: any number of processes, each at a
    program point, interleaved in any order.  Every spinlock acquire, release and protected update is a step. */
module SleepWakeup {
  import opened Blocks

  datatype Kind = Mutex | Semaphore | SleepLock

  /** Where a process is in acquire or release of object `o`.  Sleep1 to Sleep5 are the points of sleep; a process at
      `Asleep` has been switched away from; `Wake` is at entry `i` of the scan in wakeup, `WakeHold` there with the
      other process's lock held. */
  datatype Pc =
    | Idle
    | Enter(o: nat) | Check(o: nat) | Leave(o: nat)
    | Sleep1(o: nat) | Sleep2(o: nat) | Sleep3(o: nat) | Sleep4(o: nat) | Asleep(o: nat) | Sleep5(o: nat)
    | Release(o: nat) | Update(o: nat) | Wake(o: nat, i: nat) | WakeHold(o: nat, i: nat)

  /** `sleeping` is state == SLEEPING, otherwise the process runs or may run; `lock` is the holder of p->lock. */
  datatype Proc = Proc(pc: Pc, sleeping: bool, chan: Option<nat>, lock: Option<nat>, killed: bool)

  /** `count` is the semaphore's count, or 0 for a lock that is locked and 1 for one that is not; `lk` is the holder of
      its spinlock.  `holders`, `init`, `posts`, `waits` and `stolen` are history: `holders` are those whose acquire got
      through and who have not released since, and a lock is stolen once a process that did not hold it has released it. */
  datatype Obj =
    Obj(kind: Kind, count: nat, lk: Option<nat>, holders: set<nat>, init: nat, posts: nat, waits: nat, stolen: bool)

  datatype State = State(procs: seq<Proc>, objs: seq<Obj>)

  // -------------------------------------------------------------------- steps

  datatype Action =
    | Call(p: nat, o: nat) | Return(p: nat, o: nat)     // begin an acquire or wait, a release or post
    | Spin(p: nat)                                      // take the object's spinlock
    | Test(p: nat)                                      // the loop test of acquire
    | Unlock(p: nat)                                    // release the object's spinlock at the end
    | LockSelf(p: nat) | Drop(p: nat) | Mark(p: nat) | Switch(p: nat)   // sleep, up to sched
    | Resume(p: nat) | Tidy(p: nat)                     // sleep, after being scheduled again
    | Change(p: nat)                                    // the update in release
    | Skip(p: nat) | LockOther(p: nat) | Visit(p: nat)  // one entry of the scan in wakeup
    | Kill(p: nat)

  predicate At(s: State, p: nat)
  {
    p < |s.procs| && !s.procs[p].pc.Idle? && s.procs[p].pc.o < |s.objs|
  }

  function ObjOf(s: State, p: nat): Obj
    requires At(s, p)
  {
    s.objs[s.procs[p].pc.o]
  }

  /** A sleeplock is released only by a holder, which its callers check; a mutex or semaphore by anyone. */
  predicate Enabled(s: State, a: Action)
  {
    match a
    case Call(p, o) => p < |s.procs| && s.procs[p].pc.Idle? && o < |s.objs|
    case Return(p, o) => p < |s.procs| && s.procs[p].pc.Idle? && o < |s.objs| && (s.objs[o].kind.SleepLock? ==> p in s.objs[o].holders)
    case Spin(p) => At(s, p) && (s.procs[p].pc.Enter? || s.procs[p].pc.Release?) && ObjOf(s, p).lk.None?
    case Test(p) => At(s, p) && s.procs[p].pc.Check?
    case Unlock(p) => At(s, p) && (s.procs[p].pc.Leave? || (s.procs[p].pc.Wake? && s.procs[p].pc.i == |s.procs|))
    case LockSelf(p) => At(s, p) && s.procs[p].pc.Sleep1? && s.procs[p].lock.None?
    case Drop(p) => At(s, p) && s.procs[p].pc.Sleep2?
    case Mark(p) => At(s, p) && s.procs[p].pc.Sleep3?
    case Switch(p) => At(s, p) && s.procs[p].pc.Sleep4?
    case Resume(p) => At(s, p) && s.procs[p].pc.Asleep? && !s.procs[p].sleeping && s.procs[p].lock.None?
    case Tidy(p) => At(s, p) && s.procs[p].pc.Sleep5?
    case Change(p) => At(s, p) && s.procs[p].pc.Update?
    case Skip(p) => At(s, p) && s.procs[p].pc.Wake? && s.procs[p].pc.i == p
    case LockOther(p) =>
      At(s, p) && s.procs[p].pc.Wake? && s.procs[p].pc.i != p && s.procs[p].pc.i < |s.procs| && s.procs[s.procs[p].pc.i].lock.None?
    case Visit(p) => At(s, p) && s.procs[p].pc.WakeHold? && s.procs[p].pc.i < |s.procs|
    case Kill(p) => p < |s.procs| && s.procs[p].lock.None?
  }

  function SetProc(s: State, p: nat, q: Proc): State
    requires p < |s.procs|
  {
    s.(procs := s.procs[p := q])
  }

  function SetPc(s: State, p: nat, pc: Pc): State
    requires p < |s.procs|
  {
    SetProc(s, p, s.procs[p].(pc := pc))
  }

  function SetObj(s: State, o: nat, x: Obj): State
    requires o < |s.objs|
  {
    s.(objs := s.objs[o := x])
  }

  function Do(s: State, a: Action): State
    requires Enabled(s, a)
  {
    match a
    case Call(p, o) => SetPc(s, p, Enter(o))
    case Return(p, o) => SetPc(s, p, Release(o))
    case Spin(p) =>
      var o := s.procs[p].pc.o;
      SetPc(SetObj(s, o, s.objs[o].(lk := Some(p))), p, if s.procs[p].pc.Enter? then Check(o) else Update(o))
    case Test(p) =>
      var o := s.procs[p].pc.o;
      var x := s.objs[o];
      if x.count > 0 then
        SetPc(SetObj(s, o, x.(count := x.count - 1, holders := x.holders + {p}, waits := x.waits + 1)), p, Leave(o))
      else if s.procs[p].killed && !x.kind.SleepLock? then SetPc(s, p, Leave(o))
      else SetPc(s, p, Sleep1(o))
    case Unlock(p) =>
      var o := s.procs[p].pc.o;
      SetPc(SetObj(s, o, s.objs[o].(lk := None)), p, Idle)
    case LockSelf(p) => SetProc(s, p, s.procs[p].(pc := Sleep2(s.procs[p].pc.o), lock := Some(p)))
    case Drop(p) =>
      var o := s.procs[p].pc.o;
      SetPc(SetObj(s, o, s.objs[o].(lk := None)), p, Sleep3(o))
    case Mark(p) =>
      SetProc(s, p, s.procs[p].(pc := Sleep4(s.procs[p].pc.o), chan := Some(s.procs[p].pc.o), sleeping := true))
    case Switch(p) => SetProc(s, p, s.procs[p].(pc := Asleep(s.procs[p].pc.o), lock := None))
    case Resume(p) => SetProc(s, p, s.procs[p].(pc := Sleep5(s.procs[p].pc.o), lock := Some(p)))
    case Tidy(p) => SetProc(s, p, s.procs[p].(pc := Enter(s.procs[p].pc.o), chan := None, lock := None))
    case Change(p) =>
      var o := s.procs[p].pc.o;
      var x := s.objs[o];
      if x.kind.Mutex? && x.count > 0 then SetPc(s, p, Leave(o))
      else
        var count := if x.kind.Semaphore? then x.count + 1 else 1;
        var stolen := x.stolen || (!x.kind.Semaphore? && p !in x.holders);
        SetPc(SetObj(s, o, x.(count := count, holders := x.holders - {p}, posts := x.posts + 1, stolen := stolen)), p, Wake(o, 0))
    case Skip(p) => SetPc(s, p, Wake(s.procs[p].pc.o, p + 1))
    case LockOther(p) =>
      var pc := s.procs[p].pc;
      SetProc(SetPc(s, p, WakeHold(pc.o, pc.i)), pc.i, s.procs[pc.i].(lock := Some(p)))
    case Visit(p) =>
      var pc := s.procs[p].pc;
      var q := s.procs[pc.i];
      var woken := q.sleeping && q.chan == Some(pc.o);
      SetPc(SetProc(s, pc.i, q.(sleeping := q.sleeping && !woken, lock := None)), p, Wake(pc.o, pc.i + 1))
    case Kill(p) => SetProc(s, p, s.procs[p].(killed := true, sleeping := false))
  }

  // --------------------------------------------------------------- invariants

  /** The object whose spinlock a process holds at `pc`. */
  function HoldsLk(pc: Pc): Option<nat>
  {
    if pc.Check? || pc.Leave? || pc.Sleep1? || pc.Sleep2? || pc.Update? || pc.Wake? || pc.WakeHold? then Some(pc.o) else None
  }

  /** The process whose p->lock process `p` holds at `pc`. */
  function HoldsLock(p: nat, pc: Pc): Option<nat>
  {
    if pc.Sleep2? || pc.Sleep3? || pc.Sleep4? || pc.Sleep5? then Some(p)
    else if pc.WakeHold? then Some(pc.i) else None
  }

  /** The process's point, state and channel agree. */
  ghost predicate PointOk(s: State, p: nat)
    requires p < |s.procs|
  {
    var q := s.procs[p];
    && (!q.pc.Idle? ==> q.pc.o < |s.objs|)
    && (q.pc.Wake? ==> q.pc.i <= |s.procs|) && (q.pc.WakeHold? ==> q.pc.i < |s.procs| && q.pc.i != p)
    && (q.sleeping ==> q.pc.Sleep4? || q.pc.Asleep?)
    && (q.pc.Sleep4? ==> q.sleeping) && (q.pc.Sleep4? || q.pc.Asleep? ==> q.chan == Some(q.pc.o))
    && ((q.pc.Release? || q.pc.Update?) && s.objs[q.pc.o].kind.SleepLock? ==> p in s.objs[q.pc.o].holders)
  }

  /** A process at a point where it holds a lock is recorded as its holder. */
  ghost predicate HoldsOk(s: State, p: nat)
    requires p < |s.procs|
  {
    var pc := s.procs[p].pc;
    && (HoldsLk(pc).Some? ==> pc.o < |s.objs| && s.objs[pc.o].lk == Some(p))
    && (HoldsLock(p, pc).Some? ==> HoldsLock(p, pc).value < |s.procs| && s.procs[HoldsLock(p, pc).value].lock == Some(p))
  }

  ghost predicate ProcOk(s: State, p: nat)
    requires p < |s.procs|
  {
    PointOk(s, p) && HoldsOk(s, p)
  }

  /** Whoever is recorded as holding a lock is at a point where it does. */
  ghost predicate LockOk(s: State, p: nat)
    requires p < |s.procs|
  {
    s.procs[p].lock.Some? ==>
      var h := s.procs[p].lock.value; h < |s.procs| && HoldsLock(h, s.procs[h].pc) == Some(p)
  }

  ghost predicate LkOk(s: State, o: nat)
    requires o < |s.objs|
  {
    s.objs[o].lk.Some? ==> s.objs[o].lk.value < |s.procs| && HoldsLk(s.procs[s.objs[o].lk.value].pc) == Some(o)
  }

  /** The process is asleep on `o`, or past the test that sends it to sleep there. */
  ghost predicate Committed(s: State, p: nat, o: nat)
    requires p < |s.procs|
  {
    var q := s.procs[p];
    !q.pc.Idle? && q.pc.o == o && (q.pc.Sleep1? || q.pc.Sleep2? || q.pc.Sleep3? || q.pc.Sleep4? || (q.pc.Asleep? && q.sleeping))
  }

  /** A releaser holds the spinlock and its scan has not got past `p`. */
  ghost predicate WillWake(s: State, p: nat, o: nat)
    requires o < |s.objs|
  {
    var lk := s.objs[o].lk;
    && lk.Some? && lk.value < |s.procs|
    && var pc := s.procs[lk.value].pc; (pc.Wake? || pc.WakeHold?) && pc.o == o && pc.i <= p
  }

  /** Whoever is committed to sleep has reason to wait, or is about to be woken. */
  ghost predicate WakeOk(s: State, p: nat, o: nat)
    requires p < |s.procs| && o < |s.objs|
  {
    Committed(s, p, o) ==> s.objs[o].count == 0 || WillWake(s, p, o)
  }

  /** A semaphore's count is what was posted and not waited for; a lock that was never stolen is free or has exactly one
      holder. */
  ghost predicate ValueOk(x: Obj)
  {
    if x.kind.Semaphore? then x.count + x.waits == x.init + x.posts
    else x.count <= 1 && (x.kind.SleepLock? ==> !x.stolen) && (!x.stolen ==> |x.holders| + x.count == 1)
  }

  ghost predicate Inv(s: State)
  {
    && (forall p :: 0 <= p < |s.procs| ==> ProcOk(s, p) && LockOk(s, p))
    && (forall o :: 0 <= o < |s.objs| ==> LkOk(s, o) && ValueOk(s.objs[o]))
    && (forall p, o :: 0 <= p < |s.procs| && 0 <= o < |s.objs| ==> WakeOk(s, p, o))
  }

  lemma InvProc(s: State, p: nat)
    requires Inv(s) && p < |s.procs|
    ensures ProcOk(s, p) && LockOk(s, p)
  {
  }

  lemma InvObj(s: State, o: nat)
    requires Inv(s) && o < |s.objs|
    ensures LkOk(s, o) && ValueOk(s.objs[o])
  {
  }

  /** The steps outside sleep and outside the scan of wakeup. */
  predicate Outer(a: Action)
  {
    a.Call? || a.Return? || a.Spin? || a.Test? || a.Unlock? || a.Change?
  }

  /** The steps of the scan in wakeup. */
  predicate Scan(a: Action)
  {
    a.Skip? || a.LockOther? || a.Visit?
  }

  lemma OuterPoint(s: State, a: Action, q: nat)
    requires Inv(s) && Enabled(s, a) && Outer(a) && q < |s.procs|
    ensures |Do(s, a).procs| == |s.procs| && |Do(s, a).objs| == |s.objs| && PointOk(Do(s, a), q)
  {
    hide Inv, PointOk, HoldsOk, LockOk, LkOk, ValueOk, Do, Enabled;
    if q == a.p { OuterPointSelf(s, a); } else { OuterPointOther(s, a, q); }
  }

  lemma OuterPointSelf(s: State, a: Action)
    requires Inv(s) && Enabled(s, a) && Outer(a)
    ensures |Do(s, a).procs| == |s.procs| && |Do(s, a).objs| == |s.objs| && a.p < |s.procs| && PointOk(Do(s, a), a.p)
  {
    hide Inv, ValueOk, LockOk, LkOk, HoldsOk;
    InvProc(s, a.p);
  }

  lemma OuterPointOther(s: State, a: Action, q: nat)
    requires Inv(s) && Enabled(s, a) && Outer(a) && q < |s.procs| && q != a.p
    ensures |Do(s, a).procs| == |s.procs| && |Do(s, a).objs| == |s.objs| && PointOk(Do(s, a), q)
  {
    hide Inv, ValueOk, LockOk, LkOk, HoldsOk;
    InvProc(s, q);
    assert Do(s, a).procs[q] == s.procs[q];
  }

  lemma OuterHolds(s: State, a: Action, q: nat)
    requires Inv(s) && Enabled(s, a) && Outer(a) && q < |s.procs|
    ensures |Do(s, a).procs| == |s.procs| && |Do(s, a).objs| == |s.objs| && HoldsOk(Do(s, a), q)
  {
    hide Inv, HoldsOk, LockOk, LkOk, ValueOk, PointOk, Do, Enabled;
    if q == a.p { OuterHoldsSelf(s, a); } else { OuterHoldsOther(s, a, q); }
  }

  lemma OuterHoldsSelf(s: State, a: Action)
    requires Inv(s) && Enabled(s, a) && Outer(a)
    ensures |Do(s, a).procs| == |s.procs| && |Do(s, a).objs| == |s.objs| && a.p < |s.procs| && HoldsOk(Do(s, a), a.p)
  {
    hide Inv, ValueOk, LockOk, LkOk, PointOk;
    InvProc(s, a.p);
    assert HoldsLock(a.p, Do(s, a).procs[a.p].pc).None?;
  }

  lemma OuterHoldsOther(s: State, a: Action, q: nat)
    requires Inv(s) && Enabled(s, a) && Outer(a) && q < |s.procs| && q != a.p
    ensures |Do(s, a).procs| == |s.procs| && |Do(s, a).objs| == |s.objs| && HoldsOk(Do(s, a), q)
  {
    hide Inv, ValueOk, LockOk, LkOk, PointOk;
    InvProc(s, a.p);
    InvProc(s, q);
    assert Do(s, a).procs[q] == s.procs[q];
  }

  lemma OuterLock(s: State, a: Action, q: nat)
    requires Inv(s) && Enabled(s, a) && Outer(a) && q < |s.procs|
    ensures LockOk(Do(s, a), q)
  {
    hide Inv, ValueOk;
    InvProc(s, a.p);
    InvProc(s, q);
    if s.procs[q].lock.Some? {
      InvProc(s, s.procs[q].lock.value);
    }
  }

  lemma OuterLk(s: State, a: Action, o: nat)
    requires Inv(s) && Enabled(s, a) && Outer(a) && o < |s.objs|
    ensures LkOk(Do(s, a), o)
  {
    hide Inv, ValueOk, LockOk, PointOk;
    InvProc(s, a.p);
    InvObj(s, o);
  }

  lemma OuterWake(s: State, a: Action, q: nat, o: nat)
    requires Inv(s) && Enabled(s, a) && Outer(a) && q < |s.procs| && o < |s.objs|
    ensures WakeOk(Do(s, a), q, o)
  {
    hide Inv, Do, Enabled, WakeOk;
    if a.Test? { TestWake(s, a, q, o); } else if a.Change? { ChangeWake(s, a, q, o); } else { MoveWake(s, a, q, o); }
  }

  lemma TestWake(s: State, a: Action, q: nat, o: nat)
    requires Inv(s) && Enabled(s, a) && a.Test? && q < |s.procs| && o < |s.objs|
    ensures WakeOk(Do(s, a), q, o)
  {
    hide Inv, ValueOk, LockOk, LkOk;
    InvProc(s, a.p);
    InvWake(s, q, o);
  }

  lemma ChangeWake(s: State, a: Action, q: nat, o: nat)
    requires Inv(s) && Enabled(s, a) && a.Change? && q < |s.procs| && o < |s.objs|
    ensures WakeOk(Do(s, a), q, o)
  {
    hide Inv, ValueOk, LockOk, LkOk;
    InvProc(s, a.p);
    InvWake(s, q, o);
  }

  lemma MoveWake(s: State, a: Action, q: nat, o: nat)
    requires Inv(s) && Enabled(s, a) && Outer(a) && !a.Test? && !a.Change? && q < |s.procs| && o < |s.objs|
    ensures WakeOk(Do(s, a), q, o)
  {
    hide Inv, ValueOk, LockOk;
    InvProc(s, a.p);
    InvObj(s, o);
    InvWake(s, q, o);
  }

  lemma SleepPoint(s: State, a: Action, q: nat)
    requires Inv(s) && Enabled(s, a) && !Outer(a) && !Scan(a) && q < |s.procs|
    ensures |Do(s, a).procs| == |s.procs| && |Do(s, a).objs| == |s.objs| && PointOk(Do(s, a), q)
  {
    hide Inv, ValueOk, LockOk;
    InvProc(s, a.p);
    InvProc(s, q);
  }

  lemma SleepHolds(s: State, a: Action, q: nat)
    requires Inv(s) && Enabled(s, a) && !Outer(a) && !Scan(a) && q < |s.procs|
    ensures |Do(s, a).procs| == |s.procs| && |Do(s, a).objs| == |s.objs| && HoldsOk(Do(s, a), q)
  {
    hide Inv, ValueOk, LockOk, PointOk;
    InvProc(s, a.p);
    InvProc(s, q);
  }

  lemma SleepLock(s: State, a: Action, q: nat)
    requires Inv(s) && Enabled(s, a) && !Outer(a) && !Scan(a) && q < |s.procs|
    ensures LockOk(Do(s, a), q)
  {
    hide Inv, ValueOk;
    InvProc(s, a.p);
    InvProc(s, q);
    if s.procs[q].lock.Some? {
      InvProc(s, s.procs[q].lock.value);
    }
  }

  lemma SleepLk(s: State, a: Action, o: nat)
    requires Inv(s) && Enabled(s, a) && !Outer(a) && !Scan(a) && o < |s.objs|
    ensures LkOk(Do(s, a), o)
  {
    hide Inv, ValueOk, LockOk, PointOk;
    InvProc(s, a.p);
    InvObj(s, o);
  }

  lemma SleepWake(s: State, a: Action, q: nat, o: nat)
    requires Inv(s) && Enabled(s, a) && !Outer(a) && !Scan(a) && q < |s.procs| && o < |s.objs|
    ensures WakeOk(Do(s, a), q, o)
  {
    hide Inv, ValueOk;
    InvProc(s, a.p);
    InvProc(s, q);
    InvObj(s, o);
    InvWake(s, q, o);
  }

  lemma ScanPoint(s: State, a: Action, q: nat)
    requires Inv(s) && Enabled(s, a) && Scan(a) && q < |s.procs|
    ensures |Do(s, a).procs| == |s.procs| && |Do(s, a).objs| == |s.objs| && PointOk(Do(s, a), q)
  {
    hide Inv, ValueOk, LockOk;
    InvProc(s, a.p);
    InvProc(s, q);
  }

  lemma ScanHolds(s: State, a: Action, q: nat)
    requires Inv(s) && Enabled(s, a) && Scan(a) && q < |s.procs|
    ensures |Do(s, a).procs| == |s.procs| && |Do(s, a).objs| == |s.objs| && HoldsOk(Do(s, a), q)
  {
    hide Inv, HoldsOk, LockOk, LkOk, ValueOk, PointOk, Do, Enabled;
    if q == a.p { ScanHoldsSelf(s, a); } else { ScanHoldsOther(s, a, q); }
  }

  lemma ScanHoldsSelf(s: State, a: Action)
    requires Inv(s) && Enabled(s, a) && Scan(a)
    ensures |Do(s, a).procs| == |s.procs| && |Do(s, a).objs| == |s.objs| && a.p < |s.procs| && HoldsOk(Do(s, a), a.p)
  {
    hide Inv, ValueOk, LockOk, LkOk, PointOk;
    InvProc(s, a.p);
  }

  lemma ScanHoldsOther(s: State, a: Action, q: nat)
    requires Inv(s) && Enabled(s, a) && Scan(a) && q < |s.procs| && q != a.p
    ensures |Do(s, a).procs| == |s.procs| && |Do(s, a).objs| == |s.objs| && HoldsOk(Do(s, a), q)
  {
    hide Inv, ValueOk, LockOk, LkOk, PointOk;
    InvProc(s, a.p);
    InvProc(s, q);
  }

  lemma ScanLock(s: State, a: Action, q: nat)
    requires Inv(s) && Enabled(s, a) && Scan(a) && q < |s.procs|
    ensures LockOk(Do(s, a), q)
  {
    hide Inv, ValueOk;
    InvProc(s, a.p);
    InvProc(s, q);
    if s.procs[q].lock.Some? {
      InvProc(s, s.procs[q].lock.value);
    }
  }

  lemma ScanLk(s: State, a: Action, o: nat)
    requires Inv(s) && Enabled(s, a) && Scan(a) && o < |s.objs|
    ensures LkOk(Do(s, a), o)
  {
    hide Inv, ValueOk, LockOk, PointOk;
    InvProc(s, a.p);
    InvObj(s, o);
  }

  lemma ScanWake(s: State, a: Action, q: nat, o: nat)
    requires Inv(s) && Enabled(s, a) && Scan(a) && q < |s.procs| && o < |s.objs|
    ensures WakeOk(Do(s, a), q, o)
  {
    hide Inv, ValueOk;
    InvProc(s, a.p);
    InvProc(s, q);
    InvObj(s, o);
    InvWake(s, q, o);
  }

  lemma StepValue(s: State, a: Action, o: nat)
    requires Inv(s) && Enabled(s, a) && o < |s.objs|
    ensures ValueOk(Do(s, a).objs[o])
  {
    hide Inv, Do, Enabled, ValueOk;
    SameSize(s, a);
    if a.Test? { TestValue(s, a, o); } else if a.Change? { ChangeValue(s, a, o); } else { SameValue(s, a, o); }
  }

  lemma TestValue(s: State, a: Action, o: nat)
    requires Inv(s) && Enabled(s, a) && a.Test? && o < |s.objs|
    ensures ValueOk(Do(s, a).objs[o])
  {
    hide Inv, HoldsOk, LockOk, LkOk, PointOk;
    InvObj(s, o);
  }

  lemma ChangeValue(s: State, a: Action, o: nat)
    requires Inv(s) && Enabled(s, a) && a.Change? && o < |s.objs|
    ensures ValueOk(Do(s, a).objs[o])
  {
    hide Inv, HoldsOk, LockOk, LkOk;
    InvProc(s, a.p);
    InvObj(s, o);
  }

  lemma SameValue(s: State, a: Action, o: nat)
    requires Inv(s) && Enabled(s, a) && !a.Test? && !a.Change? && o < |s.objs|
    ensures ValueOk(Do(s, a).objs[o])
  {
    hide Inv, HoldsOk, LockOk, LkOk, PointOk;
    InvObj(s, o);
    assert Do(s, a).objs[o] == s.objs[o].(lk := Do(s, a).objs[o].lk);
  }

  lemma InvWake(s: State, p: nat, o: nat)
    requires Inv(s) && p < |s.procs| && o < |s.objs|
    ensures WakeOk(s, p, o)
  {
  }

  /** Every step keeps the invariant. */
  lemma StepKeeps(s: State, a: Action)
    requires Inv(s) && Enabled(s, a)
    ensures Inv(Do(s, a))
  {
    hide Inv, PointOk, HoldsOk, LockOk, LkOk, ValueOk, WakeOk, Do, Enabled;
    var s' := Do(s, a);
    SameSize(s, a);
    forall q | 0 <= q < |s'.procs|
      ensures ProcOk(s', q) && LockOk(s', q)
    {
      if Outer(a) {
        OuterPoint(s, a, q);
        OuterHolds(s, a, q);
        OuterLock(s, a, q);
      } else if Scan(a) {
        ScanPoint(s, a, q);
        ScanHolds(s, a, q);
        ScanLock(s, a, q);
      } else {
        SleepPoint(s, a, q);
        SleepHolds(s, a, q);
        SleepLock(s, a, q);
      }
    }
    forall o | 0 <= o < |s'.objs|
      ensures LkOk(s', o) && ValueOk(s'.objs[o])
    {
      StepValue(s, a, o);
      if Outer(a) { OuterLk(s, a, o); } else if Scan(a) { ScanLk(s, a, o); } else { SleepLk(s, a, o); }
    }
    forall q, o | 0 <= q < |s'.procs| && 0 <= o < |s'.objs|
      ensures WakeOk(s', q, o)
    {
      if Outer(a) { OuterWake(s, a, q, o); } else if Scan(a) { ScanWake(s, a, q, o); } else { SleepWake(s, a, q, o); }
    }
    InvFrom(s');
  }

  lemma SameSize(s: State, a: Action)
    requires Enabled(s, a)
    ensures |Do(s, a).procs| == |s.procs| && |Do(s, a).objs| == |s.objs|
  {
  }

  lemma InvFrom(s: State)
    requires forall p :: 0 <= p < |s.procs| ==> ProcOk(s, p) && LockOk(s, p)
    requires forall o :: 0 <= o < |s.objs| ==> LkOk(s, o) && ValueOk(s.objs[o])
    requires forall p, o :: 0 <= p < |s.procs| && 0 <= o < |s.objs| ==> WakeOk(s, p, o)
    ensures Inv(s)
  {
  }

  // --------------------------------------------------------------------- runs

  /** At boot nobody is waiting and no lock is held. */
  ghost predicate Boot(s: State)
  {
    && (forall p :: 0 <= p < |s.procs| ==> s.procs[p] == Proc(Idle, false, None, None, false))
    && (forall o :: 0 <= o < |s.objs| ==>
          s.objs[o].lk.None? && s.objs[o].holders == {} && s.objs[o].posts == 0 && s.objs[o].waits == 0
          && !s.objs[o].stolen && s.objs[o].count == s.objs[o].init && (!s.objs[o].kind.Semaphore? ==> s.objs[o].init == 1))
  }

  ghost predicate Run(states: seq<State>, actions: seq<Action>)
  {
    && |states| == |actions| + 1 && Boot(states[0])
    && forall k :: 0 <= k < |actions| ==> Enabled(states[k], actions[k]) && states[k + 1] == Do(states[k], actions[k])
  }

  lemma {:induction false} RunKeeps(states: seq<State>, actions: seq<Action>, k: nat)
    requires Run(states, actions) && k < |states|
    ensures Inv(states[k])
  {
    hide Do, Enabled, ProcOk, LockOk, LkOk, WakeOk;
    if k == 0 {
      BootKeeps(states[0]);
    } else {
      RunKeeps(states, actions, k - 1);
      assert states[k - 1 + 1] == Do(states[k - 1], actions[k - 1]);
      StepKeeps(states[k - 1], actions[k - 1]);
    }
  }

  lemma BootKeeps(s: State)
    requires Boot(s)
    ensures Inv(s)
  {
  }

  /** No lost wakeup, in every state of every run: while an object's spinlock is free, a process asleep on it or
      committed to sleep finds the lock locked, or the count zero. */
  lemma SleepersMustWait(states: seq<State>, actions: seq<Action>, k: nat, p: nat, o: nat)
    requires Run(states, actions) && k < |states| && p < |states[k].procs| && o < |states[k].objs|
    requires states[k].objs[o].lk.None? && Committed(states[k], p, o)
    ensures states[k].objs[o].count == 0
  {
    RunKeeps(states, actions, k);
    InvWake(states[k], p, o);
  }

  /** The step is the release of a locked mutex by a process that does not hold it. */
  predicate Steals(s: State, a: Action, o: nat)
  {
    && a.Change? && At(s, a.p) && s.procs[a.p].pc.o == o && o < |s.objs|
    && s.objs[o].kind.Mutex? && s.objs[o].count == 0 && a.p !in s.objs[o].holders
  }

  lemma StolenStep(s: State, a: Action, o: nat)
    requires Inv(s) && Enabled(s, a) && o < |s.objs|
    ensures o < |Do(s, a).objs| && Do(s, a).objs[o].kind == s.objs[o].kind
    ensures Do(s, a).objs[o].stolen <==> s.objs[o].stolen || Steals(s, a, o)
  {
    hide Inv, HoldsOk, LockOk, LkOk, ValueOk;
    InvProc(s, a.p);
  }

  lemma {:induction false} StolenIff(states: seq<State>, actions: seq<Action>, k: nat, o: nat)
    requires Run(states, actions) && k < |states| && o < |states[0].objs|
    ensures o < |states[k].objs|
    ensures states[k].objs[o].stolen <==> exists j :: 0 <= j < k && Steals(states[j], actions[j], o)
  {
    hide Do, Enabled, Inv, Steals;
    if k > 0 {
      StolenIff(states, actions, k - 1, o);
      RunKeeps(states, actions, k - 1);
      assert states[k - 1 + 1] == Do(states[k - 1], actions[k - 1]);
      StolenStep(states[k - 1], actions[k - 1], o);
    }
  }

  /** Unless somebody released it who did not hold it, a mutex or sleeplock never has two holders, and is locked exactly
      while it has one. */
  lemma MutualExclusion(states: seq<State>, actions: seq<Action>, k: nat, o: nat, p: nat, q: nat)
    requires Run(states, actions) && k < |states| && o < |states[0].objs|
    requires forall j :: 0 <= j < k ==> !Steals(states[j], actions[j], o)
    ensures o < |states[k].objs|
    ensures !states[k].objs[o].kind.Semaphore? && p in states[k].objs[o].holders && q in states[k].objs[o].holders ==> p == q
    ensures !states[k].objs[o].kind.Semaphore? ==> (states[k].objs[o].holders == {} <==> states[k].objs[o].count == 1)
  {
    hide Do, Enabled, Steals;
    RunKeeps(states, actions, k);
    StolenIff(states, actions, k, o);
    InvObj(states[k], o);
    var hs := states[k].objs[o].holders;
    if !states[k].objs[o].kind.Semaphore? && p in hs && q in hs && p != q {
      assert {p, q} <= hs;
      SubsetSize({p, q}, hs);
    }
  }

  /** mutex_release does not look at who calls it: on a locked mutex with one holder it leaves the lock free with nobody
      still inside exactly when the caller is that holder. */
  lemma ReleaseExactlyWhen(s: State, p: nat)
    requires Inv(s) && Enabled(s, Change(p)) && ObjOf(s, p).kind.Mutex? && ObjOf(s, p).count == 0 && !ObjOf(s, p).stolen
    ensures var o := s.procs[p].pc.o;
            Do(s, Change(p)).objs[o].count == 1 && (Do(s, Change(p)).objs[o].holders == {} <==> p in s.objs[o].holders)
  {
    InvObj(s, s.procs[p].pc.o);
    var hs := ObjOf(s, p).holders;
    if p in hs {
      assert |hs - {p}| == 0;
    } else {
      assert hs - {p} == hs && |hs| == 1;
    }
  }

  // ------------------------------------------------------------------- init

  /** mutex_init and sem_init on an object already in use: the value is set under the spinlock, nobody is woken. */
  function Reinit(s: State, o: nat, value: nat): State
    requires o < |s.objs|
  {
    SetObj(s, o, s.objs[o].(count := value, init := value, posts := 0, waits := 0, stolen := false))
  }

  /** A step, or mutex_init or sem_init. */
  datatype Move = Step(a: Action) | Init(o: nat, value: nat)

  predicate Possible(s: State, m: Move)
  {
    match m
    case Step(a) => Enabled(s, a)
    case Init(o, value) => o < |s.objs| && s.objs[o].lk.None? && (!s.objs[o].kind.Semaphore? ==> value == 1)
  }

  function After(s: State, m: Move): State
    requires Possible(s, m)
  {
    match m
    case Step(a) => Do(s, a)
    case Init(o, value) => Reinit(s, o, value)
  }

  /** A run in which objects may be initialised again at any time. */
  ghost predicate Moves(states: seq<State>, moves: seq<Move>)
  {
    && |states| == |moves| + 1 && Boot(states[0])
    && forall k :: 0 <= k < |moves| ==> Possible(states[k], moves[k]) && states[k + 1] == After(states[k], moves[k])
  }

  predicate Balanced(x: Obj)
  {
    x.kind.Semaphore? ==> x.count + x.waits == x.init + x.posts
  }

  lemma MoveBalances(s: State, m: Move, o: nat)
    requires Possible(s, m) && o < |s.objs| && Balanced(s.objs[o])
    ensures |After(s, m).objs| == |s.objs| && Balanced(After(s, m).objs[o])
  {
  }

  /** Since it was last initialised, a semaphore's count is its initial value and the posts, less the waits that got
      through.  It fits the source's int as long as value and posts do. */
  lemma {:induction false} CountConserved(states: seq<State>, moves: seq<Move>, k: nat, o: nat)
    requires Moves(states, moves) && k < |states| && o < |states[0].objs|
    ensures o < |states[k].objs|
    ensures states[k].objs[o].kind.Semaphore? ==>
              var x := states[k].objs[o];
              x.count == x.init + x.posts - x.waits && x.count >= 0 && (x.init + x.posts < 0x8000_0000 ==> x.count < 0x8000_0000)
  {
    hide After, Possible;
    Balances(states, moves, k, o);
  }

  lemma {:induction false} Balances(states: seq<State>, moves: seq<Move>, k: nat, o: nat)
    requires Moves(states, moves) && k < |states| && o < |states[0].objs|
    ensures o < |states[k].objs| && Balanced(states[k].objs[o])
  {
    hide After, Possible;
    if k > 0 {
      Balances(states, moves, k - 1, o);
      assert states[k - 1 + 1] == After(states[k - 1], moves[k - 1]);
      MoveBalances(states[k - 1], moves[k - 1], o);
    }
  }

  /** Initialising again is safe exactly when it leaves nobody asleep with the way clear and, for a lock, takes it from
      no holder. */
  lemma ReinitExactlyWhen(s: State, o: nat, value: nat)
    requires Inv(s) && o < |s.objs| && s.objs[o].lk.None? && (!s.objs[o].kind.Semaphore? ==> value == 1)
    ensures Inv(Reinit(s, o, value)) <==>
            && (value > 0 ==> forall p :: 0 <= p < |s.procs| ==> !Committed(s, p, o))
            && (!s.objs[o].kind.Semaphore? ==> s.objs[o].holders == {})
  {
    var s' := Reinit(s, o, value);
    assert forall p :: 0 <= p < |s.procs| ==> (Committed(s', p, o) <==> Committed(s, p, o));
    if (value > 0 ==> forall p :: 0 <= p < |s.procs| ==> !Committed(s, p, o)) && (!s.objs[o].kind.Semaphore? ==> s.objs[o].holders == {}) {
      ReinitKeeps(s, o, value);
    } else if value > 0 && exists p :: 0 <= p < |s.procs| && Committed(s, p, o) {
      var p :| 0 <= p < |s.procs| && Committed(s, p, o);
      assert !WakeOk(s', p, o);
    } else {
      assert !ValueOk(s'.objs[o]);
    }
  }

  lemma ReinitKeeps(s: State, o: nat, value: nat)
    requires Inv(s) && o < |s.objs| && s.objs[o].lk.None? && (!s.objs[o].kind.Semaphore? ==> value == 1 && s.objs[o].holders == {})
    requires value > 0 ==> forall p :: 0 <= p < |s.procs| ==> !Committed(s, p, o)
    ensures Inv(Reinit(s, o, value))
  {
    hide Inv;
    var s' := Reinit(s, o, value);
    forall p | 0 <= p < |s.procs|
      ensures ProcOk(s', p) && LockOk(s', p)
    {
      InvProc(s, p);
    }
    forall x | 0 <= x < |s.objs|
      ensures LkOk(s', x) && ValueOk(s'.objs[x])
    {
      InvObj(s, x);
    }
    forall p, x | 0 <= p < |s.procs| && 0 <= x < |s.objs|
      ensures WakeOk(s', p, x)
    {
      InvWake(s, p, x);
      assert Committed(s', p, x) <==> Committed(s, p, x);
      assert WillWake(s', p, x) <==> WillWake(s, p, x);
    }
    InvFrom(s');
  }

  // ------------------------------------------------------------ what can fail

  ghost predicate Reachable(s: State)
  {
    exists states: seq<State>, actions: seq<Action> :: Run(states, actions) && states[|states| - 1] == s
  }

  lemma Start(s: State)
    requires Boot(s)
    ensures Reachable(s)
  {
    var states: seq<State>, actions: seq<Action> := [s], [];
    assert Run(states, actions);
  }

  lemma Reach(s: State, a: Action)
    requires Reachable(s) && Enabled(s, a)
    ensures Reachable(Do(s, a))
  {
    hide Do, Enabled, Boot;
    var states: seq<State>, actions: seq<Action> :| Run(states, actions) && states[|states| - 1] == s;
    var states', actions' := states + [Do(s, a)], actions + [a];
    assert Run(states', actions');
    assert states'[|states'| - 1] == Do(s, a);
  }

  function Mutex0(count: nat, lk: Option<nat>, holders: set<nat>, posts: nat, waits: nat, stolen: bool): Obj
  {
    Obj(Mutex, count, lk, holders, 1, posts, waits, stolen)
  }

  function Awake(pc: Pc): Proc
  {
    Proc(pc, false, None, None, false)
  }

  /** Process 1 takes the mutex. */
  lemma Taken() returns (s: State)
    ensures Reachable(s) && s == State([Awake(Idle), Awake(Idle)], [Mutex0(0, None, {1}, 0, 1, false)])
  {
    hide Reachable;
    s := State([Awake(Idle), Awake(Idle)], [Mutex0(1, None, {}, 0, 0, false)]);
    Start(s);
    Reach(s, Call(1, 0));
    s := Do(s, Call(1, 0));
    Reach(s, Spin(1));
    s := Do(s, Spin(1));
    Reach(s, Test(1));
    s := Do(s, Test(1));
    Reach(s, Unlock(1));
    s := Do(s, Unlock(1));
    assert {} + {1} == {1};
    assert s.objs == [Mutex0(0, None, {1}, 0, 1, false)] && s.procs == [Awake(Idle), Awake(Idle)];
  }

  /** A mutex initialised under a sleeper: the lock is free and the sleeper sleeps on, with nobody to wake it. */
  lemma ReinitCanStrand()
    ensures exists s: State, p: nat, o: nat ::
              && Reachable(s) && p < |s.procs| && o < |s.objs| && s.objs[o].kind.Mutex? && s.objs[o].lk.None?
              && Committed(s, p, o) && s.procs[p].sleeping && Reinit(s, o, 1).objs[o].count == 1
              && Committed(Reinit(s, o, 1), p, o)
  {
    hide Reachable;
    var s := Taken();
    Reach(s, Call(0, 0));
    s := Do(s, Call(0, 0));
    Reach(s, Spin(0));
    s := Do(s, Spin(0));
    Reach(s, Test(0));
    s := Do(s, Test(0));
    Reach(s, LockSelf(0));
    s := Do(s, LockSelf(0));
    Reach(s, Drop(0));
    s := Do(s, Drop(0));
    Reach(s, Mark(0));
    s := Do(s, Mark(0));
    Reach(s, Switch(0));
    s := Do(s, Switch(0));
    assert Committed(s, 0, 0) && s.objs[0].lk.None? && Committed(Reinit(s, 0, 1), 0, 0);
  }

  /** A mutex released by a process that does not hold it and taken again: two processes hold it. */
  lemma ReleaseCanShare()
    ensures exists s: State, o: nat :: Reachable(s) && o < |s.objs| && s.objs[o].kind.Mutex? && s.objs[o].holders == {0, 1}
  {
    hide Reachable;
    var s := Taken();
    Reach(s, Return(0, 0));
    s := Do(s, Return(0, 0));
    Reach(s, Spin(0));
    s := Do(s, Spin(0));
    Reach(s, Change(0));
    s := Do(s, Change(0));
    Reach(s, Skip(0));
    s := Do(s, Skip(0));
    Reach(s, LockOther(0));
    s := Do(s, LockOther(0));
    Reach(s, Visit(0));
    s := Do(s, Visit(0));
    Reach(s, Unlock(0));
    s := Do(s, Unlock(0));
    assert s.objs == [Mutex0(1, None, {1} - {0}, 1, 1, true)] && s.procs[0].pc == Idle;
    Reach(s, Call(0, 0));
    s := Do(s, Call(0, 0));
    Reach(s, Spin(0));
    s := Do(s, Spin(0));
    Reach(s, Test(0));
    s := Do(s, Test(0));
    assert s.objs[0].holders == {0, 1};
  }
}
