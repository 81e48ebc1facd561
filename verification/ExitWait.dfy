/** Exit, wait, waitpid and thread join as a step system over the process table. */
module ExitWait {
  import opened Blocks

  datatype Life = Unused | Used | Live | Zombie

  /** What a waiting process waits for: any child, the child with a pid, or the thread with a tid. */
  datatype Want = Any | Child(pid: nat) | Thread(tid: nat)

  /** Where a process is.  `Fork1` and `Fork2` are creation of the process in slot `c` before and after its parent is
      set.  An exiting process hands its children over (`Reparent`, with `RootWake` the wakeup of init it does for
      each), wakes its parent (`ParentWake`) and marks itself (`Mark`); `Dead1` to `Dead3` are zombie points.  A waiting
      one scans the table and sleeps; the points of sleep are as in the sleep function. */
  datatype Pc =
    | Run
    | Fork1(c: nat) | Fork2(c: nat)
    | Exit(status: int) | Reparent(status: int, k: nat) | RootWake(status: int, k: nat, i: nat)
    | ParentWake(status: int, i: nat) | Mark(status: int) | Dead1 | Dead2 | Dead3
    | Wait(w: Want) | Scan(w: Want, i: nat, found: bool)
    | Sleep1(w: Want) | Sleep2(w: Want) | Sleep3(w: Want) | Sleep4(w: Want) | Asleep(w: Want) | Sleep5(w: Want)

  /** `sleeping` is SLEEPING among the live states; `chan` is the process slept on. */
  datatype Proc = Proc(life: Life, pc: Pc, sleeping: bool, chan: Option<nat>, killed: bool,
                       pid: nat, parent: Option<nat>, thread: bool, xstate: int)

  datatype Reap = Reap(pid: nat, status: int, told: nat)

  /** `lock` is the holder of wait_lock and `root` the slot of init.  `exits` and `reaped` are history: the status each
      process exited with, and who was told what about whom. */
  datatype State = State(procs: seq<Proc>, root: nat, lock: Option<nat>, nextpid: nat, exits: map<nat, int>, reaped: seq<Reap>)

  const FREE := Proc(Unused, Run, false, None, false, 0, None, false, 0)

  // -------------------------------------------------------------------- steps

  datatype Action =
    | Alloc(p: nat, c: nat, thread: bool) | Undo(p: nat) | Adopt(p: nat) | Start(p: nat)     // fork, thread create
    | Leave(p: nat, status: int) | Give(p: nat) | WakeRoot(p: nat) | WakeParent(p: nat)      // exit
    | Die(p: nat) | Drop(p: nat) | Switch(p: nat)
    | Call(p: nat, w: Want) | Take(p: nat) | Look(p: nat) | Fault(p: nat) | Decide(p: nat)   // wait
    | LockSelf(p: nat) | Resume(p: nat) | Tidy(p: nat) | Sleep(p: nat)
    | Kill(p: nat)

  predicate Matches(w: Want, c: Proc)
  {
    match w
    case Any => true
    case Child(pid) => c.pid == pid
    case Thread(tid) => c.pid == tid && c.thread
  }

  /** The process holds its own p->lock across steps. */
  predicate HoldsSelf(pc: Pc)
  {
    pc.Sleep2? || pc.Sleep3? || pc.Sleep4? || pc.Sleep5? || pc.Dead1? || pc.Dead2?
  }

  predicate HoldsWait(pc: Pc)
  {
    pc.Reparent? || pc.RootWake? || pc.ParentWake? || pc.Mark? || pc.Dead1? || pc.Scan? || pc.Sleep1? || pc.Sleep2?
  }

  /** Entry `i` may be visited by `p`: nobody but a sleeping or dying process itself holds its lock across steps. */
  predicate Visitable(s: State, p: nat, i: nat)
    requires i < |s.procs|
  {
    i == p || !HoldsSelf(s.procs[i].pc)
  }

  predicate IsChild(s: State, p: nat, c: nat, w: Want)
    requires c < |s.procs|
  {
    s.procs[c].parent == Some(p) && Matches(w, s.procs[c])
  }

  predicate Enabled(s: State, a: Action)
  {
    a.p < |s.procs| && var q := s.procs[a.p];
    match a
    case Alloc(p, c, _) => q.life.Live? && q.pc.Run? && c < |s.procs| && s.procs[c].life.Unused?
    case Undo(p) => q.pc.Fork1? && q.pc.c < |s.procs|
    case Adopt(p) => q.pc.Fork1? && q.pc.c < |s.procs| && s.lock.None?
    case Start(p) => q.pc.Fork2? && q.pc.c < |s.procs|
    case Leave(p, _) => q.life.Live? && q.pc.Run? && p != s.root
    case Give(p) => (q.pc.Exit? && s.lock.None?) || q.pc.Reparent?
    case WakeRoot(p) => q.pc.RootWake? && (q.pc.i < |s.procs| ==> Visitable(s, p, q.pc.i))
    case WakeParent(p) => q.pc.ParentWake? && (q.pc.i < |s.procs| ==> Visitable(s, p, q.pc.i))
    case Die(p) => q.pc.Mark?
    case Drop(p) => q.pc.Dead1?
    case Switch(p) => q.pc.Dead2? || q.pc.Sleep4?
    case Call(p, _) => q.life.Live? && q.pc.Run?
    case Take(p) => q.pc.Wait? && s.lock.None?
    case Look(p) =>
      q.pc.Scan? && q.pc.i < |s.procs| && (IsChild(s, p, q.pc.i, q.pc.w) ==> Visitable(s, p, q.pc.i))
    case Fault(p) =>
      q.pc.Scan? && q.pc.i < |s.procs| && IsChild(s, p, q.pc.i, q.pc.w) && Visitable(s, p, q.pc.i) && s.procs[q.pc.i].life.Zombie?
    case Decide(p) => q.pc.Scan? && q.pc.i == |s.procs|
    case LockSelf(p) => q.pc.Sleep1?
    case Sleep(p) => q.pc.Sleep2? || q.pc.Sleep3?
    case Resume(p) => q.pc.Asleep? && !q.sleeping
    case Tidy(p) => q.pc.Sleep5?
    case Kill(p) => !HoldsSelf(q.pc)
  }

  function Set(s: State, p: nat, q: Proc): State
    requires p < |s.procs|
  {
    s.(procs := s.procs[p := q])
  }

  function SetPc(s: State, p: nat, pc: Pc): State
    requires p < |s.procs|
  {
    Set(s, p, s.procs[p].(pc := pc))
  }

  /** One entry of wakeup(chan) by process `p`. */
  function Visit(s: State, p: nat, i: nat, chan: nat): State
    requires i < |s.procs|
  {
    var q := s.procs[i];
    if i != p && q.sleeping && q.chan == Some(chan) then Set(s, i, q.(sleeping := false)) else s
  }

  function Do(s: State, a: Action): State
    requires Enabled(s, a)
  {
    var q := s.procs[a.p];
    match a
    case Alloc(p, c, thread) =>
      SetPc(Set(s, c, FREE.(life := Used, pid := s.nextpid, thread := thread)), p, Fork1(c)).(nextpid := s.nextpid + 1)
    case Undo(p) => SetPc(Set(s, q.pc.c, FREE), p, Run)
    case Adopt(p) => SetPc(Set(s, q.pc.c, s.procs[q.pc.c].(parent := Some(p))), p, Fork2(q.pc.c))
    case Start(p) => SetPc(Set(s, q.pc.c, s.procs[q.pc.c].(life := Live)), p, Run)
    case Leave(p, status) => SetPc(s, p, Exit(status))
    case Give(p) =>
      if q.pc.Exit? then SetPc(s.(lock := Some(p)), p, Reparent(q.pc.status, 0))
      else if q.pc.k >= |s.procs| then SetPc(s, p, ParentWake(q.pc.status, 0))
      else if s.procs[q.pc.k].parent == Some(p) then
        SetPc(Set(s, q.pc.k, s.procs[q.pc.k].(parent := Some(s.root))), p, RootWake(q.pc.status, q.pc.k, 0))
      else SetPc(s, p, Reparent(q.pc.status, q.pc.k + 1))
    case WakeRoot(p) =>
      if q.pc.i < |s.procs| then SetPc(Visit(s, p, q.pc.i, s.root), p, RootWake(q.pc.status, q.pc.k, q.pc.i + 1))
      else SetPc(s, p, Reparent(q.pc.status, q.pc.k + 1))
    case WakeParent(p) =>
      if q.pc.i < |s.procs| then
        SetPc(if q.parent.Some? then Visit(s, p, q.pc.i, q.parent.value) else s, p, ParentWake(q.pc.status, q.pc.i + 1))
      else SetPc(s, p, Mark(q.pc.status))
    case Die(p) =>
      Set(s, p, q.(life := Zombie, xstate := q.pc.status, pc := Dead1)).(exits := s.exits[q.pid := q.pc.status])
    case Drop(p) => SetPc(s.(lock := None), p, Dead2)
    case Switch(p) => SetPc(s, p, if q.pc.Dead2? then Dead3 else Asleep(q.pc.w))
    case Call(p, w) => SetPc(s, p, Wait(w))
    case Take(p) => SetPc(s.(lock := Some(p)), p, Scan(q.pc.w, 0, false))
    case Look(p) =>
      var c := s.procs[q.pc.i];
      if !IsChild(s, p, q.pc.i, q.pc.w) then SetPc(s, p, Scan(q.pc.w, q.pc.i + 1, q.pc.found))
      else if !c.life.Zombie? then SetPc(s, p, Scan(q.pc.w, q.pc.i + 1, true))
      else SetPc(Set(s, q.pc.i, FREE), p, Run).(lock := None, reaped := s.reaped + [Reap(c.pid, c.xstate, q.pid)])
    case Fault(p) => SetPc(s.(lock := None), p, Run)
    case Decide(p) =>
      if !q.pc.found || q.killed then SetPc(s.(lock := None), p, Run) else SetPc(s, p, Sleep1(q.pc.w))
    case LockSelf(p) => SetPc(s, p, Sleep2(q.pc.w))
    case Sleep(p) =>
      if q.pc.Sleep2? then SetPc(s.(lock := None), p, Sleep3(q.pc.w))
      else Set(s, p, q.(pc := Sleep4(q.pc.w), chan := Some(p), sleeping := true))
    case Resume(p) => SetPc(s, p, Sleep5(q.pc.w))
    case Tidy(p) => Set(s, p, q.(pc := Wait(q.pc.w), chan := None))
    case Kill(p) => Set(s, p, q.(killed := true, sleeping := false))
  }

  // --------------------------------------------------------------- invariants

  /** Past the scan that found nothing to reap, and not yet woken. */
  predicate Committed(q: Proc)
  {
    q.pc.Sleep1? || q.pc.Sleep2? || q.pc.Sleep3? || q.pc.Sleep4? || (q.pc.Asleep? && q.sleeping)
  }

  predicate Exiting(pc: Pc)
  {
    pc.Exit? || pc.Reparent? || pc.RootWake? || pc.ParentWake? || pc.Mark?
  }

  predicate Dead(pc: Pc)
  {
    pc.Dead1? || pc.Dead2? || pc.Dead3?
  }

  /** The process's life, point, sleep and lock agree. */
  ghost predicate PointOk(s: State, p: nat)
    requires p < |s.procs|
  {
    var q := s.procs[p];
    && (q.life.Zombie? <==> Dead(q.pc)) && (q.life.Unused? || q.life.Used? ==> q.pc.Run?)
    && (q.sleeping ==> q.pc.Sleep4? || q.pc.Asleep?) && (q.pc.Sleep4? ==> q.sleeping)
    && (q.pc.Sleep4? || q.pc.Asleep? ==> q.chan == Some(p))
    && (HoldsWait(q.pc) ==> s.lock == Some(p))
    && (q.pc.Scan? ==> q.pc.i <= |s.procs|)
    && (Exiting(q.pc) || Dead(q.pc) ==> p != s.root)
  }

  /** The slot a fork is filling is its own. */
  ghost predicate ForkOk(s: State, p: nat)
    requires p < |s.procs|
  {
    var q := s.procs[p];
    && (q.pc.Fork1? ==> q.pc.c < |s.procs| && s.procs[q.pc.c].life.Used? && s.procs[q.pc.c].parent.None?)
    && (q.pc.Fork2? ==> q.pc.c < |s.procs| && s.procs[q.pc.c].life.Used? && s.procs[q.pc.c].parent == Some(p))
    && (q.pc.Fork1? || q.pc.Fork2? ==> s.procs[q.pc.c].pid > q.pid)
  }

  ghost predicate ForkApart(s: State, p: nat, q: nat)
    requires p < |s.procs| && q < |s.procs|
  {
    (s.procs[p].pc.Fork1? || s.procs[p].pc.Fork2?) && (s.procs[q].pc.Fork1? || s.procs[q].pc.Fork2?) && p != q ==>
      s.procs[p].pc.c != s.procs[q].pc.c
  }

  /** How far the exiting `q` has got with giving away its children. */
  function Given(s: State, q: Proc): nat
  {
    if q.pc.Reparent? then q.pc.k else if q.pc.RootWake? then q.pc.k + 1
    else if q.pc.ParentWake? || q.pc.Mark? then |s.procs| else 0
  }

  /** Every process but init has an older parent that has not exited and has not given it away. */
  ghost predicate ParentOk(s: State, p: nat)
    requires p < |s.procs|
  {
    var q := s.procs[p];
    && (q.life.Unused? ==> q.parent.None?)
    && (q.life.Live? || q.life.Zombie? ==> (q.parent.None? <==> p == s.root))
    && (q.parent.Some? ==>
          && q.parent.value < |s.procs| && q.parent.value != p && s.procs[q.parent.value].life.Live?
          && s.procs[q.parent.value].pid < q.pid && p >= Given(s, s.procs[q.parent.value]))
  }

  ghost predicate PidOk(s: State, p: nat)
    requires p < |s.procs|
  {
    var q := s.procs[p];
    && (!q.life.Unused? ==> q.pid < s.nextpid)
    && (q.life.Used? || q.life.Live? ==> q.pid !in s.exits)
    && (q.life.Zombie? ==> q.pid in s.exits && s.exits[q.pid] == q.xstate)
    && (p != s.root && !q.life.Unused? && s.root < |s.procs| ==> s.procs[s.root].pid < q.pid)
  }

  ghost predicate PidsApart(s: State, p: nat, q: nat)
    requires p < |s.procs| && q < |s.procs|
  {
    p != q && !s.procs[p].life.Unused? && !s.procs[q].life.Unused? ==> s.procs[p].pid != s.procs[q].pid
  }

  /** A reaped process is gone for good, and its parent was told the status it exited with. */
  ghost predicate ReapOk(s: State, k: nat)
    requires k < |s.reaped|
  {
    && s.reaped[k].pid in s.exits && s.exits[s.reaped[k].pid] == s.reaped[k].status
    && (forall p :: 0 <= p < |s.procs| && !s.procs[p].life.Unused? ==> s.procs[p].pid != s.reaped[k].pid)
    && (forall j :: 0 <= j < k ==> s.reaped[j].pid != s.reaped[k].pid)
  }

  /** init is about to be woken by the holder of wait_lock. */
  ghost predicate RootPending(s: State)
  {
    s.lock.Some? && s.lock.value < |s.procs| && s.procs[s.lock.value].pc.RootWake? && s.procs[s.lock.value].pc.i <= s.root
  }

  /** Nobody committed to sleep has a zombie child to collect, unless a wakeup is on its way. */
  ghost predicate WaitOk(s: State, p: nat, c: nat)
    requires p < |s.procs| && c < |s.procs|
  {
    Committed(s.procs[p]) && IsChild(s, p, c, s.procs[p].pc.w) && s.procs[c].life.Zombie? ==> p == s.root && RootPending(s)
  }

  /** What a scan has passed was not there to collect. */
  ghost predicate ScanOk(s: State, p: nat, c: nat)
    requires p < |s.procs| && c < |s.procs|
  {
    s.procs[p].pc.Scan? && c < s.procs[p].pc.i && IsChild(s, p, c, s.procs[p].pc.w) ==>
      s.procs[p].pc.found && !s.procs[c].life.Zombie?
  }

  /** Once an exiting process has passed its parent in the wakeup scan, the parent is awake. */
  ghost predicate ExitOk(s: State, p: nat)
    requires p < |s.procs|
  {
    var q := s.procs[p];
    q.parent.Some? && q.parent.value < |s.procs| && ((q.pc.ParentWake? && q.parent.value < q.pc.i) || q.pc.Mark?) ==>
      !Committed(s.procs[q.parent.value])
  }

  ghost predicate Whole(s: State)
  {
    && s.root < |s.procs| && s.procs[s.root].life.Live?
    && (s.lock.Some? ==> s.lock.value < |s.procs| && HoldsWait(s.procs[s.lock.value].pc))
    && (forall pid :: pid in s.exits ==> pid < s.nextpid)
  }

  ghost predicate Inv(s: State)
  {
    && Whole(s)
    && (forall p :: 0 <= p < |s.procs| ==> PointOk(s, p) && ForkOk(s, p) && ParentOk(s, p) && PidOk(s, p) && ExitOk(s, p))
    && (forall p, q :: 0 <= p < |s.procs| && 0 <= q < |s.procs| ==>
          ForkApart(s, p, q) && PidsApart(s, p, q) && WaitOk(s, p, q) && ScanOk(s, p, q))
    && (forall k :: 0 <= k < |s.reaped| ==> ReapOk(s, k))
  }

  lemma One(s: State, p: nat)
    requires Inv(s) && p < |s.procs|
    ensures Whole(s) && PointOk(s, p) && ForkOk(s, p) && ParentOk(s, p) && PidOk(s, p) && ExitOk(s, p)
  {
  }

  lemma Two(s: State, p: nat, q: nat)
    requires Inv(s) && p < |s.procs| && q < |s.procs|
    ensures ForkApart(s, p, q) && PidsApart(s, p, q) && WaitOk(s, p, q) && ScanOk(s, p, q)
  {
  }

  lemma Reaped(s: State, k: nat)
    requires Inv(s) && k < |s.reaped|
    ensures ReapOk(s, k)
  {
  }

  // ------------------------------------------------ steps that leave the table alone

  predicate SameEntry(q: Proc, q': Proc)
  {
    q'.life == q.life && q'.pid == q.pid && q'.parent == q.parent && q'.thread == q.thread && q'.xstate == q.xstate
  }

  /** Only `p` moved: everyone else is where they were, except that some may have been woken. */
  ghost predicate Quiet(s: State, s': State, p: nat)
  {
    && |s'.procs| == |s.procs| && s'.root == s.root && s'.nextpid == s.nextpid && s'.exits == s.exits && s'.reaped == s.reaped
    && (s'.lock == s.lock || (s.lock.None? && s'.lock == Some(p)) || (s.lock == Some(p) && s'.lock.None?))
    && forall x :: 0 <= x < |s.procs| ==> QuietAt(s, s', p, x)
  }

  ghost predicate QuietAt(s: State, s': State, p: nat, x: nat)
    requires x < |s.procs| == |s'.procs|
  {
    var q, q' := s.procs[x], s'.procs[x];
    && SameEntry(q, q')
    && (x != p ==> q'.pc == q.pc && q'.chan == q.chan && (q'.sleeping ==> q.sleeping) && (HoldsSelf(q.pc) ==> q'.sleeping == q.sleeping))
  }

  predicate Forks(pc: Pc)
  {
    pc.Fork1? || pc.Fork2?
  }

  /** What the step of `p` itself must satisfy for the invariant to survive. */
  ghost predicate SelfOk(s: State, s': State, p: nat)
    requires p < |s.procs| == |s'.procs|
  {
    var q, q' := s.procs[p], s'.procs[p];
    && Whole(s') && PointOk(s', p) && ExitOk(s', p)
    && (q'.pc == q.pc || (!Forks(q.pc) && !Forks(q'.pc)))
    && (Committed(q') && !Committed(q) ==> s.lock == Some(p))
    && (RootPending(s) && s.lock == Some(p) ==> RootPending(s') || (s.root < |s.procs| && !Committed(s'.procs[s.root])))
    && (forall c :: 0 <= c < |s.procs| ==> WaitOk(s', p, c) && ScanOk(s', p, c))
    && (forall c :: 0 <= c < |s.procs| && s.procs[c].parent == Some(p) ==> c >= Given(s', q'))
  }

  lemma QuietOne(s: State, s': State, p: nat, x: nat)
    requires Inv(s) && p < |s.procs| && Quiet(s, s', p) && SelfOk(s, s', p) && x < |s.procs|
    ensures PointOk(s', x) && ForkOk(s', x) && PidOk(s', x)
  {
    hide Inv, ParentOk, ExitOk, WaitOk, ScanOk;
    One(s, x);
    assert QuietAt(s, s', p, x) && QuietAt(s, s', p, s.root);
    if Forks(s.procs[x].pc) {
      assert QuietAt(s, s', p, s.procs[x].pc.c);
    }
  }

  lemma QuietParent(s: State, s': State, p: nat, x: nat)
    requires Inv(s) && p < |s.procs| && Quiet(s, s', p) && SelfOk(s, s', p) && x < |s.procs|
    ensures ParentOk(s', x) && ExitOk(s', x)
  {
    hide Inv, ForkOk, PidOk, WaitOk, ScanOk;
    One(s, x);
    assert QuietAt(s, s', p, x);
    if s.procs[x].parent.Some? {
      assert QuietAt(s, s', p, s.procs[x].parent.value);
    }
  }

  lemma QuietTwo(s: State, s': State, p: nat, x: nat, y: nat)
    requires Inv(s) && p < |s.procs| && Quiet(s, s', p) && SelfOk(s, s', p) && x < |s.procs| && y < |s.procs|
    ensures ForkApart(s', x, y) && PidsApart(s', x, y) && ScanOk(s', x, y)
  {
    hide Inv, PointOk, ExitOk, Whole, WaitOk;
    Two(s, x, y);
    assert QuietAt(s, s', p, x) && QuietAt(s, s', p, y);
  }

  lemma QuietWait(s: State, s': State, p: nat, x: nat, y: nat)
    requires Inv(s) && p < |s.procs| && Quiet(s, s', p) && SelfOk(s, s', p) && x < |s.procs| && y < |s.procs|
    ensures WaitOk(s', x, y)
  {
    hide Inv, ExitOk, ScanOk, ForkOk, ParentOk, PidOk;
    One(s, x);
    Two(s, x, y);
    assert QuietAt(s, s', p, x) && QuietAt(s, s', p, y);
    if s.lock.Some? {
      One(s, s.lock.value);
      assert QuietAt(s, s', p, s.lock.value);
    }
  }

  lemma QuietReap(s: State, s': State, p: nat, k: nat)
    requires Inv(s) && Quiet(s, s', p) && k < |s.reaped|
    ensures ReapOk(s', k)
  {
    hide Inv;
    Reaped(s, k);
    forall x | 0 <= x < |s'.procs| && !s'.procs[x].life.Unused?
      ensures s'.procs[x].pid != s'.reaped[k].pid
    {
      assert QuietAt(s, s', p, x);
    }
  }

  lemma QuietKeeps(s: State, s': State, p: nat)
    requires Inv(s) && p < |s.procs| && Quiet(s, s', p) && SelfOk(s, s', p)
    ensures Inv(s')
  {
    hide PointOk, ForkOk, ParentOk, PidOk, ExitOk, ForkApart, PidsApart, WaitOk, ScanOk, ReapOk, QuietAt;
    forall x | 0 <= x < |s'.procs|
      ensures PointOk(s', x) && ForkOk(s', x) && ParentOk(s', x) && PidOk(s', x) && ExitOk(s', x)
    {
      QuietOne(s, s', p, x);
      QuietParent(s, s', p, x);
    }
    forall x, y | 0 <= x < |s'.procs| && 0 <= y < |s'.procs|
      ensures ForkApart(s', x, y) && PidsApart(s', x, y) && WaitOk(s', x, y) && ScanOk(s', x, y)
    {
      QuietTwo(s, s', p, x, y);
      QuietWait(s, s', p, x, y);
    }
    forall k | 0 <= k < |s'.reaped|
      ensures ReapOk(s', k)
    {
      QuietReap(s, s', p, k);
    }
  }

  /** The steps that change the process table. */
  predicate Special(s: State, a: Action)
    requires Enabled(s, a)
  {
    || a.Alloc? || a.Undo? || a.Adopt? || a.Start? || a.Die?
    || (a.Give? && s.procs[a.p].pc.Reparent? && s.procs[a.p].pc.k < |s.procs| && s.procs[s.procs[a.p].pc.k].parent == Some(a.p))
    || (a.Look? && IsChild(s, a.p, s.procs[a.p].pc.i, s.procs[a.p].pc.w) && s.procs[s.procs[a.p].pc.i].life.Zombie?)
  }

  /** What any other step does: the process's own entry, the lock, and whom it wakes. */
  datatype Turn = Turn(self: Proc, lock: Option<nat>, woken: Option<nat>)

  /** Whom one entry of wakeup(chan) by `p` wakes. */
  function Wakes(s: State, p: nat, i: nat, chan: nat): Option<nat>
    requires i < |s.procs|
  {
    if i != p && s.procs[i].sleeping && s.procs[i].chan == Some(chan) then Some(i) else None
  }

  function ExitTurn(s: State, a: Action): Turn
    requires Enabled(s, a) && !Special(s, a)
  {
    var q := s.procs[a.p];
    var t := Turn(q, s.lock, None);
    match a
    case Leave(_, status) => t.(self := q.(pc := Exit(status)))
    case Give(p) =>
      if q.pc.Exit? then Turn(q.(pc := Reparent(q.pc.status, 0)), Some(p), None)
      else t.(self := q.(pc := if q.pc.k >= |s.procs| then ParentWake(q.pc.status, 0) else Reparent(q.pc.status, q.pc.k + 1)))
    case WakeRoot(p) =>
      if q.pc.i < |s.procs| then Turn(q.(pc := RootWake(q.pc.status, q.pc.k, q.pc.i + 1)), s.lock, Wakes(s, p, q.pc.i, s.root))
      else t.(self := q.(pc := Reparent(q.pc.status, q.pc.k + 1)))
    case WakeParent(p) =>
      if q.pc.i < |s.procs| then
        Turn(q.(pc := ParentWake(q.pc.status, q.pc.i + 1)), s.lock,
             if q.parent.Some? then Wakes(s, p, q.pc.i, q.parent.value) else None)
      else t.(self := q.(pc := Mark(q.pc.status)))
    case Drop(_) => Turn(q.(pc := Dead2), None, None)
    case _ => t
  }

  function WaitTurn(s: State, a: Action): Turn
    requires Enabled(s, a) && !Special(s, a)
  {
    var q := s.procs[a.p];
    var t := Turn(q, s.lock, None);
    match a
    case Switch(_) => t.(self := q.(pc := if q.pc.Dead2? then Dead3 else Asleep(q.pc.w)))
    case Call(_, w) => t.(self := q.(pc := Wait(w)))
    case Take(p) => Turn(q.(pc := Scan(q.pc.w, 0, false)), Some(p), None)
    case Look(p) =>
      t.(self := q.(pc := Scan(q.pc.w, q.pc.i + 1, q.pc.found || IsChild(s, p, q.pc.i, q.pc.w))))
    case Fault(_) => Turn(q.(pc := Run), None, None)
    case Decide(_) =>
      if !q.pc.found || q.killed then Turn(q.(pc := Run), None, None) else t.(self := q.(pc := Sleep1(q.pc.w)))
    case LockSelf(_) => t.(self := q.(pc := Sleep2(q.pc.w)))
    case Sleep(p) =>
      if q.pc.Sleep2? then Turn(q.(pc := Sleep3(q.pc.w)), None, None)
      else t.(self := q.(pc := Sleep4(q.pc.w), chan := Some(p), sleeping := true))
    case Resume(_) => t.(self := q.(pc := Sleep5(q.pc.w)))
    case Tidy(_) => t.(self := q.(pc := Wait(q.pc.w), chan := None))
    case Kill(_) => t.(self := q.(killed := true, sleeping := false))
    case _ => t
  }

  predicate InExit(a: Action)
  {
    a.Leave? || a.Give? || a.WakeRoot? || a.WakeParent? || a.Drop?
  }

  function TurnOf(s: State, a: Action): Turn
    requires Enabled(s, a) && !Special(s, a)
  {
    if InExit(a) then ExitTurn(s, a) else WaitTurn(s, a)
  }

  /** `s'` is `s` after the turn. */
  ghost predicate Turned(s: State, s': State, p: nat, t: Turn)
  {
    && p < |s.procs|
    && (t.woken.Some? ==> t.woken.value < |s.procs| && t.woken.value != p && !HoldsSelf(s.procs[t.woken.value].pc))
    && var procs := if t.woken.Some? then s.procs[t.woken.value := s.procs[t.woken.value].(sleeping := false)] else s.procs;
    s' == s.(procs := procs[p := t.self], lock := t.lock)
  }

  lemma ExitTurned(s: State, a: Action)
    requires Enabled(s, a) && !Special(s, a) && InExit(a)
    ensures Turned(s, Do(s, a), a.p, ExitTurn(s, a))
  {
  }

  lemma WaitTurned(s: State, a: Action)
    requires Enabled(s, a) && !Special(s, a) && !InExit(a)
    ensures Turned(s, Do(s, a), a.p, WaitTurn(s, a))
  {
  }

  lemma TurnIs(s: State, a: Action)
    requires Enabled(s, a) && !Special(s, a)
    ensures Turned(s, Do(s, a), a.p, TurnOf(s, a)) && |Do(s, a).procs| == |s.procs| && a.p < |s.procs|
  {
    hide Do, Enabled, Special, ExitTurn, WaitTurn;
    if InExit(a) { ExitTurned(s, a); } else { WaitTurned(s, a); }
  }

  lemma TurnCell(s: State, s': State, p: nat, t: Turn, x: nat)
    requires Turned(s, s', p, t) && x < |s.procs|
    ensures |s'.procs| == |s.procs|
    ensures s'.procs[x] == if x == p then t.self else if t.woken == Some(x) then s.procs[x].(sleeping := false) else s.procs[x]
  {
  }

  lemma TurnRest(s: State, s': State, p: nat, t: Turn)
    requires Turned(s, s', p, t)
    ensures |s'.procs| == |s.procs| && s'.lock == t.lock && s'.root == s.root
    ensures s'.nextpid == s.nextpid && s'.exits == s.exits && s'.reaped == s.reaped
  {
  }

  /** The entry keeps what makes it that process, and the lock is taken, released or left alone. */
  lemma TurnSame(s: State, a: Action)
    requires Inv(s) && Enabled(s, a) && !Special(s, a)
    ensures a.p < |s.procs| && SameEntry(s.procs[a.p], TurnOf(s, a).self)
    ensures var lock, lock' := s.lock, TurnOf(s, a).lock;
            lock' == lock || (lock.None? && lock' == Some(a.p)) || (lock == Some(a.p) && lock'.None?)
  {
    hide Inv, ForkOk, ParentOk, PidOk, ExitOk, Whole;
    One(s, a.p);
  }

  lemma QuietStep(s: State, a: Action)
    requires Inv(s) && Enabled(s, a) && !Special(s, a)
    ensures a.p < |s.procs| && Quiet(s, Do(s, a), a.p)
  {
    hide Inv, Do, Enabled, Special, TurnOf, SameEntry, Turned;
    TurnIs(s, a);
    TurnSame(s, a);
    TurnRest(s, Do(s, a), a.p, TurnOf(s, a));
    forall x | 0 <= x < |s.procs|
      ensures QuietAt(s, Do(s, a), a.p, x)
    {
      TurnQuiet(s, Do(s, a), a.p, TurnOf(s, a), x);
    }
  }

  lemma TurnQuiet(s: State, s': State, p: nat, t: Turn, x: nat)
    requires Turned(s, s', p, t) && x < |s.procs| == |s'.procs| && SameEntry(s.procs[p], t.self)
    ensures QuietAt(s, s', p, x)
  {
  }

  lemma LeavePoint(s: State, a: Action, s': State)
    requires Inv(s) && Enabled(s, a) && !Special(s, a) && InExit(a)
    requires |s'.procs| == |s.procs| && s'.root == s.root && s'.lock == ExitTurn(s, a).lock && s'.procs[a.p] == ExitTurn(s, a).self
    ensures PointOk(s', a.p)
  {
    hide Inv, ForkOk, ParentOk, PidOk, ExitOk, Whole, Do;
    One(s, a.p);
  }

  lemma WaitPoint(s: State, a: Action, s': State)
    requires Inv(s) && Enabled(s, a) && !Special(s, a) && !InExit(a)
    requires |s'.procs| == |s.procs| && s'.root == s.root && s'.lock == WaitTurn(s, a).lock && s'.procs[a.p] == WaitTurn(s, a).self
    ensures PointOk(s', a.p)
  {
    hide Inv, ForkOk, ParentOk, PidOk, ExitOk, Whole, Do;
    One(s, a.p);
  }

  lemma SelfPoint(s: State, a: Action)
    requires Inv(s) && Enabled(s, a) && !Special(s, a)
    ensures |Do(s, a).procs| == |s.procs| && PointOk(Do(s, a), a.p)
  {
    hide Inv, Do, Enabled, Special, Turned, ExitTurn, WaitTurn, PointOk;
    var s' := Do(s, a);
    TurnIs(s, a);
    TurnRest(s, s', a.p, TurnOf(s, a));
    TurnCell(s, s', a.p, TurnOf(s, a), a.p);
    if InExit(a) { LeavePoint(s, a, s'); } else { WaitPoint(s, a, s'); }
  }

  lemma TurnForks(s: State, a: Action)
    requires Enabled(s, a) && !Special(s, a)
    ensures var q, q' := s.procs[a.p], TurnOf(s, a).self; q'.pc == q.pc || (!Forks(q.pc) && !Forks(q'.pc))
  {
  }

  /** Only a finished scan commits a process to sleep. */
  lemma TurnCommit(s: State, a: Action)
    requires Enabled(s, a) && !Special(s, a)
    ensures var q, q' := s.procs[a.p], TurnOf(s, a).self;
            Committed(q') ==>
              || (Committed(q) && q'.pc.w == q.pc.w)
              || (q.pc.Scan? && q.pc.i == |s.procs| && q'.pc.w == q.pc.w)
  {
  }

  /** The process holds the lock afterwards exactly if it is at a point where it should. */
  lemma TurnLock(s: State, a: Action)
    requires Inv(s) && Enabled(s, a) && !Special(s, a)
    ensures TurnOf(s, a).lock == Some(a.p) ==> HoldsWait(TurnOf(s, a).self.pc)
  {
    hide Inv, ForkOk, ParentOk, PidOk, ExitOk;
    One(s, a.p);
  }

  lemma SelfWhole(s: State, a: Action)
    requires Inv(s) && Enabled(s, a) && !Special(s, a)
    ensures Whole(Do(s, a))
  {
    hide Inv, Do, Enabled, Special, TurnOf, Turned, PointOk, ForkOk, ParentOk, PidOk, ExitOk;
    TurnIs(s, a);
    One(s, a.p);
    TurnSame(s, a);
    TurnLock(s, a);
    TurnRest(s, Do(s, a), a.p, TurnOf(s, a));
    TurnCell(s, Do(s, a), a.p, TurnOf(s, a), s.root);
    TurnCell(s, Do(s, a), a.p, TurnOf(s, a), a.p);
    if s.lock.Some? {
      TurnCell(s, Do(s, a), a.p, TurnOf(s, a), s.lock.value);
    }
  }

  lemma TurnPast(s: State, a: Action)
    requires Enabled(s, a) && !Special(s, a)
    ensures var q' := TurnOf(s, a).self; q'.pc.ParentWake? || q'.pc.Mark? ==> a.WakeParent? || a.Give? || a.Kill?
  {
  }

  lemma SelfExit(s: State, a: Action)
    requires Inv(s) && Enabled(s, a) && !Special(s, a)
    ensures |Do(s, a).procs| == |s.procs| && ExitOk(Do(s, a), a.p)
  {
    hide Inv, Do, Enabled, Special, TurnOf, Turned, ExitOk;
    TurnIs(s, a);
    TurnPast(s, a);
    TurnCell(s, Do(s, a), a.p, TurnOf(s, a), a.p);
    if a.WakeParent? || a.Give? || a.Kill? {
      PastParent(s, a);
    } else {
      NotPast(Do(s, a), a.p);
    }
  }

  lemma PastParent(s: State, a: Action)
    requires Inv(s) && Enabled(s, a) && !Special(s, a) && (a.WakeParent? || a.Give? || a.Kill?)
    ensures |Do(s, a).procs| == |s.procs| && ExitOk(Do(s, a), a.p)
  {
    hide Inv, ForkOk, PidOk, Do, Turned;
    One(s, a.p);
    TurnIs(s, a);
    TurnCell(s, Do(s, a), a.p, TurnOf(s, a), a.p);
    if s.procs[a.p].parent.Some? {
      One(s, s.procs[a.p].parent.value);
      TurnCell(s, Do(s, a), a.p, TurnOf(s, a), s.procs[a.p].parent.value);
    }
  }

  lemma SelfRoot(s: State, a: Action)
    requires Inv(s) && Enabled(s, a) && !Special(s, a) && RootPending(s) && s.lock == Some(a.p) && s.root < |s.procs|
    ensures |Do(s, a).procs| == |s.procs| && (RootPending(Do(s, a)) || !Committed(Do(s, a).procs[s.root]))
  {
    hide Inv, ForkOk, PidOk, ExitOk, ParentOk, Do, Turned;
    One(s, a.p);
    One(s, s.root);
    TurnIs(s, a);
    TurnRest(s, Do(s, a), a.p, TurnOf(s, a));
    TurnCell(s, Do(s, a), a.p, TurnOf(s, a), a.p);
    TurnCell(s, Do(s, a), a.p, TurnOf(s, a), s.root);
  }

  lemma SelfWait(s: State, a: Action, c: nat)
    requires Inv(s) && Enabled(s, a) && !Special(s, a) && c < |s.procs|
    ensures |Do(s, a).procs| == |s.procs| && WaitOk(Do(s, a), a.p, c)
  {
    hide Inv, ForkOk, PidOk, ExitOk, ParentOk, Do, Enabled, Special, TurnOf, Turned;
    QuietStep(s, a);
    TurnIs(s, a);
    TurnCommit(s, a);
    TurnCell(s, Do(s, a), a.p, TurnOf(s, a), a.p);
    One(s, a.p);
    Two(s, a.p, c);
    assert QuietAt(s, Do(s, a), a.p, c) && QuietAt(s, Do(s, a), a.p, a.p);
    if s.lock.Some? {
      One(s, s.lock.value);
      assert QuietAt(s, Do(s, a), a.p, s.lock.value);
    }
  }

  lemma SelfScan(s: State, a: Action, c: nat)
    requires Inv(s) && Enabled(s, a) && !Special(s, a) && c < |s.procs|
    ensures |Do(s, a).procs| == |s.procs| && ScanOk(Do(s, a), a.p, c)
  {
    hide Inv, Do, Turned, ForkOk, PidOk, ExitOk, ParentOk, PointOk, WaitOk, PidsApart, ForkApart;
    Two(s, a.p, c);
    TurnIs(s, a);
    TurnCell(s, Do(s, a), a.p, TurnOf(s, a), a.p);
    TurnCell(s, Do(s, a), a.p, TurnOf(s, a), c);
  }

  /** A step gives away at most the next entry, and only if it is nobody's child or another's. */
  lemma TurnGiven(s: State, a: Action)
    requires Enabled(s, a) && !Special(s, a)
    ensures var q, q' := s.procs[a.p], TurnOf(s, a).self;
            || Given(s, q') <= Given(s, q)
            || (q.pc.Reparent? && q.pc.k < |s.procs| && Given(s, q') == q.pc.k + 1 && s.procs[q.pc.k].parent != Some(a.p))
  {
  }

  lemma SelfGiven(s: State, a: Action, c: nat)
    requires Inv(s) && Enabled(s, a) && !Special(s, a) && c < |s.procs| && s.procs[c].parent == Some(a.p)
    ensures |Do(s, a).procs| == |s.procs| && c >= Given(Do(s, a), Do(s, a).procs[a.p])
  {
    hide Inv, Do, Enabled, Special, TurnOf, Turned, PointOk, ForkOk, PidOk, ExitOk, Whole;
    One(s, c);
    TurnIs(s, a);
    TurnGiven(s, a);
    TurnCell(s, Do(s, a), a.p, TurnOf(s, a), a.p);
  }

  // ------------------------------------------------- steps that change the table

  /** What a step that changes the table does: another entry, the process's own entry, and the rest. */
  datatype Effect = Effect(c: nat, entry: Proc, self: Proc, lock: Option<nat>, nextpid: nat, exits: map<nat, int>, reaped: seq<Reap>)

  function EffectOf(s: State, a: Action): Effect
    requires Enabled(s, a) && Special(s, a)
  {
    var q := s.procs[a.p];
    var e := Effect(a.p, q, q, s.lock, s.nextpid, s.exits, s.reaped);
    match a
    case Alloc(_, c, thread) =>
      e.(c := c, entry := FREE.(life := Used, pid := s.nextpid, thread := thread), self := q.(pc := Fork1(c)), nextpid := s.nextpid + 1)
    case Undo(_) => e.(c := q.pc.c, entry := FREE, self := q.(pc := Run))
    case Adopt(p) => e.(c := q.pc.c, entry := s.procs[q.pc.c].(parent := Some(p)), self := q.(pc := Fork2(q.pc.c)))
    case Start(_) => e.(c := q.pc.c, entry := s.procs[q.pc.c].(life := Live), self := q.(pc := Run))
    case Die(_) => e.(self := q.(life := Zombie, xstate := q.pc.status, pc := Dead1), exits := s.exits[q.pid := q.pc.status])
    case Give(_) =>
      e.(c := q.pc.k, entry := s.procs[q.pc.k].(parent := Some(s.root)), self := q.(pc := RootWake(q.pc.status, q.pc.k, 0)))
    case Look(_) =>
      var c := s.procs[q.pc.i];
      e.(c := q.pc.i, entry := FREE, self := q.(pc := Run), lock := None, reaped := s.reaped + [Reap(c.pid, c.xstate, q.pid)])
  }

  /** `s'` is `s` with the effect. */
  ghost predicate Stepped(s: State, s': State, p: nat, e: Effect)
  {
    && p < |s.procs| && e.c < |s.procs|
    && s' == State(s.procs[e.c := e.entry][p := e.self], s.root, e.lock, e.nextpid, e.exits, e.reaped)
  }

  lemma Cell(s: State, s': State, p: nat, e: Effect, x: nat)
    requires Stepped(s, s', p, e) && x < |s.procs|
    ensures |s'.procs| == |s.procs| && s'.procs[x] == if x == p then e.self else if x == e.c then e.entry else s.procs[x]
  {
  }

  lemma Rest(s: State, s': State, p: nat, e: Effect)
    requires Stepped(s, s', p, e)
    ensures |s'.procs| == |s.procs| && s'.root == s.root && s'.lock == e.lock && s'.nextpid == e.nextpid
    ensures s'.exits == e.exits && s'.reaped == e.reaped
  {
  }

  /** No step gives away, frees or fills the entry of the process that makes it. */
  lemma EffectApart(s: State, a: Action)
    requires Inv(s) && Enabled(s, a) && Special(s, a)
    ensures EffectOf(s, a).c < |s.procs| && a.p < |s.procs| && (!a.Die? ==> EffectOf(s, a).c != a.p)
  {
    hide Inv, Do, ExitOk, WaitOk, PidOk, Whole;
    One(s, a.p);
    if !a.Die? { One(s, EffectOf(s, a).c); }
  }

  lemma EffectIs(s: State, a: Action)
    requires Inv(s) && Enabled(s, a) && Special(s, a)
    ensures Stepped(s, Do(s, a), a.p, EffectOf(s, a))
  {
    EffectApart(s, a);
    hide Inv;
  }

  predicate InFork(a: Action)
  {
    a.Alloc? || a.Undo? || a.Adopt? || a.Start?
  }

  /** The steps of fork: the process itself only moves on, and the entry it fills is nobody's parent. */
  ghost predicate ForkLaw(s: State, p: nat, e: Effect)
    requires p < |s.procs| && e.c < |s.procs|
  {
    var q, c := s.procs[p], s.procs[e.c];
    && e.c != p && q.life.Live? && !Exiting(q.pc) && !Dead(q.pc) && !Committed(q) && !q.pc.Scan?
    && e.self == q.(pc := e.self.pc) && (e.self.pc.Run? || Forks(e.self.pc))
    && e.lock == s.lock && e.exits == s.exits && e.reaped == s.reaped && s.nextpid <= e.nextpid
    && (c.life.Unused? || c.life.Used?) && c.pc.Run? && e.entry.pc.Run? && !e.entry.sleeping
    && (e.entry.life.Unused? ==> e.entry == FREE) && !e.entry.life.Zombie?
    && (e.entry.parent.None? || e.entry.parent == Some(p)) && (e.entry.life.Live? ==> e.entry.parent == Some(p))
    && (!e.entry.life.Unused? ==> e.entry.pid > q.pid)
  }

  /** Where the process moves to, and what becomes of the entry. */
  ghost predicate ForkMove(s: State, p: nat, e: Effect)
    requires p < |s.procs| && e.c < |s.procs|
  {
    var q, c := s.procs[p], s.procs[e.c];
    if q.pc.Run? then
      && c.life.Unused? && e.self.pc == Fork1(e.c) && e.entry.life.Used? && e.entry.parent.None?
      && e.entry.pid == s.nextpid && e.nextpid == s.nextpid + 1
    else
      && Forks(q.pc) && q.pc.c == e.c && c.life.Used? && e.nextpid == s.nextpid
      && (e.entry == FREE || e.entry.pid == c.pid)
      && (e.self.pc == Run || (e.self.pc == Fork2(e.c) && e.entry.life.Used? && e.entry.parent == Some(p)))
  }

  lemma ForkEffect(s: State, a: Action)
    requires Inv(s) && Enabled(s, a) && Special(s, a) && InFork(a)
    ensures EffectOf(s, a).c < |s.procs| && a.p < |s.procs| && ForkLaw(s, a.p, EffectOf(s, a)) && ForkMove(s, a.p, EffectOf(s, a))
  {
    hide Inv, ExitOk, WaitOk, ScanOk, PidsApart, ForkApart, Do;
    EffectIs(s, a);
    One(s, a.p);
    One(s, EffectOf(s, a).c);
  }

  /** The steps of exit and wait, with wait_lock held: marking oneself a zombie, giving a child to init, freeing a
      zombie child. */
  ghost predicate ExitLaw(s: State, p: nat, e: Effect)
    requires p < |s.procs| && e.c < |s.procs|
  {
    var q, c := s.procs[p], s.procs[e.c];
    && q.life.Live? && s.lock == Some(p) && e.nextpid == s.nextpid && !Forks(q.pc) && !q.sleeping
    && ((q.pc.Mark? && e.c == p && e.self == q.(life := Zombie, xstate := q.pc.status, pc := Dead1)
         && e.lock == s.lock && e.exits == s.exits[q.pid := q.pc.status] && e.reaped == s.reaped)
        || (q.pc.Reparent? && e.c == q.pc.k && c.parent == Some(p) && e.entry == c.(parent := Some(s.root))
            && e.self == q.(pc := RootWake(q.pc.status, e.c, 0)) && e.lock == s.lock && e.exits == s.exits && e.reaped == s.reaped)
        || (q.pc.Scan? && e.c == q.pc.i && c.parent == Some(p) && c.life.Zombie? && e.entry == FREE
            && e.self == q.(pc := Run) && e.lock.None? && e.exits == s.exits
            && e.reaped == s.reaped + [Reap(c.pid, c.xstate, q.pid)]))
  }

  lemma ExitEffect(s: State, a: Action)
    requires Inv(s) && Enabled(s, a) && Special(s, a) && !InFork(a)
    ensures EffectOf(s, a).c < |s.procs| && a.p < |s.procs| && ExitLaw(s, a.p, EffectOf(s, a))
  {
    hide Inv, ExitOk, WaitOk, ScanOk, PidsApart, ForkApart, ForkOk, ParentOk, PidOk, Do;
    EffectIs(s, a);
    One(s, a.p);
  }

  ghost predicate ForkStep(s: State, s': State, p: nat, e: Effect)
  {
    p < |s.procs| && e.c < |s.procs| && Stepped(s, s', p, e) && ForkLaw(s, p, e) && ForkMove(s, p, e)
  }

  ghost predicate ExitStep(s: State, s': State, p: nat, e: Effect)
  {
    p < |s.procs| && e.c < |s.procs| && Stepped(s, s', p, e) && ExitLaw(s, p, e)
  }

  lemma EffectLaw(s: State, a: Action)
    requires Inv(s) && Enabled(s, a) && Special(s, a)
    ensures var s', e := Do(s, a), EffectOf(s, a);
            if InFork(a) then ForkStep(s, s', a.p, e) else ExitStep(s, s', a.p, e)
  {
    hide Inv, Do, Enabled, Special, EffectOf, ForkLaw, ForkMove, ExitLaw, Stepped;
    EffectIs(s, a);
    if InFork(a) { ForkEffect(s, a); } else { ExitEffect(s, a); }
  }

  lemma ForkPoint(s: State, s': State, p: nat, e: Effect, x: nat)
    requires Inv(s) && ForkStep(s, s', p, e) && x < |s.procs| == |s'.procs|
    ensures PointOk(s', x)
  {
    hide Inv, Stepped, ForkOk, ParentOk, PidOk, ExitOk, ForkApart, PidsApart, WaitOk, ScanOk, ForkMove, Whole;
    Rest(s, s', p, e);
    One(s, x);
    One(s, p);
    Cell(s, s', p, e, x);
  }

  lemma ExitPoint(s: State, s': State, p: nat, e: Effect, x: nat)
    requires Inv(s) && ExitStep(s, s', p, e) && x < |s.procs| == |s'.procs|
    ensures PointOk(s', x)
  {
    hide Inv, Stepped, ForkOk, ParentOk, PidOk, ExitOk, ForkApart, PidsApart, WaitOk, ScanOk, Whole;
    Rest(s, s', p, e);
    One(s, x);
    One(s, p);
    Cell(s, s', p, e, x);
  }

  lemma ForkFork(s: State, s': State, p: nat, e: Effect, x: nat)
    requires Inv(s) && ForkStep(s, s', p, e) && x < |s.procs| == |s'.procs|
    ensures ForkOk(s', x)
  {
    hide Inv, Stepped, PointOk, ParentOk, PidOk, ExitOk, PidsApart, WaitOk, ScanOk, Whole;
    One(s, p);
    One(s, x);
    Two(s, p, x);
    Cell(s, s', p, e, x);
    if Forks(s.procs[x].pc) { Cell(s, s', p, e, s.procs[x].pc.c); }
    Cell(s, s', p, e, e.c);
  }

  lemma ExitFork(s: State, s': State, p: nat, e: Effect, x: nat)
    requires Inv(s) && ExitStep(s, s', p, e) && x < |s.procs| == |s'.procs|
    ensures ForkOk(s', x)
  {
    hide Inv, Stepped, ParentOk, PidOk, ExitOk, ForkApart, PidsApart, WaitOk, ScanOk, Whole;
    One(s, p);
    One(s, x);
    Cell(s, s', p, e, x);
    if Forks(s.procs[x].pc) { Cell(s, s', p, e, s.procs[x].pc.c); }
  }

  lemma ForkPid(s: State, s': State, p: nat, e: Effect, x: nat)
    requires Inv(s) && ForkStep(s, s', p, e) && x < |s.procs| == |s'.procs|
    ensures PidOk(s', x)
  {
    hide Inv, Stepped, PointOk, ForkOk, ParentOk, ExitOk, ForkApart, PidsApart, WaitOk, ScanOk;
    Rest(s, s', p, e);
    One(s, e.c);
    One(s, p);
    One(s, x);
    One(s, s.root);
    Cell(s, s', p, e, x);
    Cell(s, s', p, e, s.root);
  }

  lemma ExitPid(s: State, s': State, p: nat, e: Effect, x: nat)
    requires Inv(s) && ExitStep(s, s', p, e) && x < |s.procs| == |s'.procs|
    ensures PidOk(s', x)
  {
    hide Inv, Stepped, PointOk, ForkOk, ParentOk, ExitOk, ForkApart, WaitOk, ScanOk;
    Rest(s, s', p, e);
    One(s, p);
    One(s, x);
    One(s, s.root);
    Two(s, p, x);
    Cell(s, s', p, e, x);
    Cell(s, s', p, e, s.root);
  }

  lemma ForkParent(s: State, s': State, p: nat, e: Effect, x: nat)
    requires Inv(s) && ForkStep(s, s', p, e) && x < |s.procs| == |s'.procs|
    ensures ParentOk(s', x)
  {
    hide Inv, Stepped, PointOk, ForkOk, PidOk, ExitOk, ForkApart, PidsApart, WaitOk, ScanOk, ForkMove;
    Rest(s, s', p, e);
    One(s, x);
    RootThere(s);
    Cell(s, s', p, e, x);
    Cell(s, s', p, e, p);
    if s.procs[x].parent.Some? {
      One(s, s.procs[x].parent.value);
      Cell(s, s', p, e, s.procs[x].parent.value);
    }
  }

  /** init never exits, and is older than everybody. */
  lemma RootStays(s: State, x: nat)
    requires Inv(s) && x < |s.procs|
    ensures s.root < |s.procs| && s.procs[s.root].life.Live? && !Exiting(s.procs[s.root].pc)
    ensures x != s.root && !s.procs[x].life.Unused? ==> s.procs[s.root].pid < s.procs[x].pid
  {
    hide Inv, ForkOk, ParentOk, ExitOk;
    One(s, x);
    One(s, s.root);
  }

  lemma ExitParent(s: State, s': State, p: nat, e: Effect, x: nat)
    requires Inv(s) && ExitStep(s, s', p, e) && x < |s.procs| == |s'.procs|
    ensures ParentOk(s', x)
  {
    hide Inv, Stepped, PointOk, ForkOk, PidOk, ExitOk, Whole;
    Rest(s, s', p, e);
    One(s, x);
    RootStays(s, x);
    Cell(s, s', p, e, x);
    Cell(s, s', p, e, s.root);
    if s.procs[x].parent.Some? {
      Cell(s, s', p, e, s.procs[x].parent.value);
    }
  }

  lemma ForkForks(s: State, s': State, p: nat, e: Effect, x: nat, y: nat)
    requires Inv(s) && ForkStep(s, s', p, e) && x < |s.procs| == |s'.procs| && y < |s.procs|
    ensures ForkApart(s', x, y)
  {
    hide Inv, Stepped, PointOk, ParentOk, PidOk, ExitOk, PidsApart, WaitOk, ScanOk, Whole;
    One(s, x);
    One(s, y);
    Two(s, x, y);
    Cell(s, s', p, e, x);
    Cell(s, s', p, e, y);
  }

  lemma ExitForks(s: State, s': State, p: nat, e: Effect, x: nat, y: nat)
    requires Inv(s) && ExitStep(s, s', p, e) && x < |s.procs| == |s'.procs| && y < |s.procs|
    ensures ForkApart(s', x, y)
  {
    hide Inv, Stepped, PointOk, ForkOk, ParentOk, PidOk, ExitOk, PidsApart, WaitOk, ScanOk, Whole;
    Two(s, x, y);
    One(s, x);
    One(s, y);
    Cell(s, s', p, e, x);
    Cell(s, s', p, e, y);
  }

  lemma ForkPids(s: State, s': State, p: nat, e: Effect, x: nat, y: nat)
    requires Inv(s) && ForkStep(s, s', p, e) && x < |s.procs| == |s'.procs| && y < |s.procs|
    ensures PidsApart(s', x, y)
  {
    hide Inv, Stepped, PointOk, ForkOk, ParentOk, ExitOk, ForkApart, WaitOk, ScanOk, Whole;
    One(s, x);
    One(s, y);
    Two(s, x, y);
    Cell(s, s', p, e, x);
    Cell(s, s', p, e, y);
  }

  lemma ExitPids(s: State, s': State, p: nat, e: Effect, x: nat, y: nat)
    requires Inv(s) && ExitStep(s, s', p, e) && x < |s.procs| == |s'.procs| && y < |s.procs|
    ensures PidsApart(s', x, y)
  {
    hide Inv, Stepped, PointOk, ForkOk, ParentOk, PidOk, ExitOk, ForkApart, WaitOk, ScanOk, Whole;
    Two(s, x, y);
    Cell(s, s', p, e, x);
    Cell(s, s', p, e, y);
  }

  lemma ForkScan(s: State, s': State, p: nat, e: Effect, x: nat, y: nat)
    requires Inv(s) && ForkStep(s, s', p, e) && x < |s.procs| == |s'.procs| && y < |s.procs|
    ensures ScanOk(s', x, y)
  {
    hide Inv, Stepped, PointOk, ForkOk, PidOk, ExitOk, ForkApart, PidsApart, WaitOk, ForkMove, Whole;
    One(s, x);
    One(s, y);
    Two(s, x, y);
    Cell(s, s', p, e, x);
    Cell(s, s', p, e, y);
  }

  lemma ExitScan(s: State, s': State, p: nat, e: Effect, x: nat, y: nat)
    requires Inv(s) && ExitStep(s, s', p, e) && x < |s.procs| == |s'.procs| && y < |s.procs|
    ensures ScanOk(s', x, y)
  {
    hide Inv, Stepped, ForkOk, ParentOk, PidOk, ExitOk, ForkApart, PidsApart, WaitOk, Whole;
    One(s, x);
    One(s, y);
    Two(s, x, y);
    Cell(s, s', p, e, x);
    Cell(s, s', p, e, y);
  }

  lemma ForkWait(s: State, s': State, p: nat, e: Effect, x: nat, y: nat)
    requires Inv(s) && ForkStep(s, s', p, e) && x < |s.procs| == |s'.procs| && y < |s.procs|
    ensures WaitOk(s', x, y)
  {
    hide Inv, Stepped, ForkOk, ParentOk, PidOk, ExitOk, ForkApart, PidsApart, ScanOk, ForkMove;
    Rest(s, s', p, e);
    One(s, x);
    One(s, y);
    Two(s, x, y);
    Cell(s, s', p, e, x);
    Cell(s, s', p, e, y);
    if s.lock.Some? {
      One(s, s.lock.value);
      Cell(s, s', p, e, s.lock.value);
    }
  }

  lemma GiveWaits(s: State, s': State, p: nat, e: Effect, x: nat, y: nat)
    requires Inv(s) && ExitStep(s, s', p, e) && s.procs[p].pc.Reparent? && x < |s.procs| == |s'.procs| && y < |s.procs|
    ensures WaitOk(s', x, y)
  {
    hide Inv, Stepped, ForkOk, PidOk, ForkApart, PidsApart, ScanOk;
    Rest(s, s', p, e);
    One(s, p);
    One(s, x);
    One(s, y);
    Two(s, x, y);
    Cell(s, s', p, e, x);
    Cell(s, s', p, e, y);
    Cell(s, s', p, e, p);
  }

  lemma LeaveWaits(s: State, s': State, p: nat, e: Effect, x: nat, y: nat)
    requires Inv(s) && ExitStep(s, s', p, e) && !s.procs[p].pc.Reparent? && x < |s.procs| == |s'.procs| && y < |s.procs|
    ensures WaitOk(s', x, y)
  {
    hide Inv, Stepped, ForkOk, PidOk, ForkApart, PidsApart, ScanOk;
    Rest(s, s', p, e);
    One(s, p);
    One(s, x);
    One(s, y);
    Two(s, x, y);
    Cell(s, s', p, e, x);
    Cell(s, s', p, e, y);
    Cell(s, s', p, e, p);
  }

  lemma ExitWaits(s: State, s': State, p: nat, e: Effect, x: nat, y: nat)
    requires Inv(s) && ExitStep(s, s', p, e) && x < |s.procs| == |s'.procs| && y < |s.procs|
    ensures WaitOk(s', x, y)
  {
    hide Inv, ExitLaw, Stepped, WaitOk;
    if s.procs[p].pc.Reparent? { GiveWaits(s, s', p, e, x, y); } else { LeaveWaits(s, s', p, e, x, y); }
  }

  lemma ForkPast(s: State, s': State, p: nat, e: Effect, x: nat)
    requires Inv(s) && ForkStep(s, s', p, e) && x < |s.procs| == |s'.procs|
    ensures ExitOk(s', x)
  {
    hide Inv, Stepped, PointOk, ForkOk, ParentOk, PidOk, ForkApart, PidsApart, WaitOk, ScanOk, ForkMove, Whole;
    One(s, x);
    Cell(s, s', p, e, x);
    if s.procs[x].parent.Some? && s.procs[x].parent.value < |s.procs| {
      Cell(s, s', p, e, s.procs[x].parent.value);
    }
  }

  /** Only the holder of wait_lock can be past its parent. */
  lemma ExitPast(s: State, s': State, p: nat, e: Effect, x: nat)
    requires Inv(s) && ExitStep(s, s', p, e) && x < |s.procs| == |s'.procs|
    ensures ExitOk(s', x)
  {
    hide Inv, Stepped, ForkOk, PidOk, ForkApart, PidsApart, WaitOk, ScanOk, Whole;
    One(s, p);
    One(s, x);
    Cell(s, s', p, e, x);
  }

  lemma NotPast(s: State, x: nat)
    requires x < |s.procs| && !s.procs[x].pc.ParentWake? && !s.procs[x].pc.Mark?
    ensures ExitOk(s, x)
  {
  }

  lemma ForkWhole(s: State, s': State, p: nat, e: Effect)
    requires Inv(s) && ForkStep(s, s', p, e)
    ensures Whole(s')
  {
    hide Inv, Stepped, ForkMove, ForkOk, ParentOk, PidOk, ExitOk;
    One(s, p);
    RootThere(s);
    Rest(s, s', p, e);
    Cell(s, s', p, e, s.root);
    if s.lock.Some? { Cell(s, s', p, e, s.lock.value); }
  }

  lemma ExitWhole(s: State, s': State, p: nat, e: Effect)
    requires Inv(s) && ExitStep(s, s', p, e)
    ensures Whole(s')
  {
    hide Inv, Stepped, ForkOk, ExitOk;
    One(s, p);
    RootThere(s);
    One(s, s.root);
    Rest(s, s', p, e);
    Cell(s, s', p, e, s.root);
    Cell(s, s', p, e, p);
  }

  /** Nothing reaped comes back. */
  lemma ForkReap(s: State, s': State, p: nat, e: Effect, k: nat)
    requires Inv(s) && ForkStep(s, s', p, e) && k < |s'.reaped|
    ensures ReapOk(s', k)
  {
    hide Inv, Stepped, PointOk, ForkOk, ParentOk, PidOk, ExitOk;
    Rest(s, s', p, e);
    One(s, p);
    Reaped(s, k);
    forall x | 0 <= x < |s'.procs| && !s'.procs[x].life.Unused?
      ensures s'.procs[x].pid != s'.reaped[k].pid
    {
      Cell(s, s', p, e, x);
    }
  }

  lemma ExitReap(s: State, s': State, p: nat, e: Effect, k: nat)
    requires Inv(s) && ExitStep(s, s', p, e) && k < |s'.reaped|
    ensures ReapOk(s', k)
  {
    hide Inv, Stepped, PointOk, ForkOk, ParentOk, PidOk, ExitOk, Whole;
    Rest(s, s', p, e);
    if k < |s.reaped| {
      Reaped(s, k);
      forall x | 0 <= x < |s'.procs| && !s'.procs[x].life.Unused?
        ensures s'.procs[x].pid != s'.reaped[k].pid
      {
        Cell(s, s', p, e, x);
      }
    } else {
      CollectReap(s, s', p, e);
    }
  }

  /** A process being reaped has not been reaped before. */
  lemma CollectReap(s: State, s': State, p: nat, e: Effect)
    requires Inv(s) && ExitStep(s, s', p, e) && |s'.reaped| == |s.reaped| + 1
    ensures ReapOk(s', |s.reaped|)
  {
    hide Inv, Stepped, PointOk, ForkOk, ParentOk, ExitOk, Whole;
    Rest(s, s', p, e);
    var c, k := e.c, |s.reaped|;
    One(s, c);
    forall x | 0 <= x < |s'.procs| && !s'.procs[x].life.Unused?
      ensures s'.procs[x].pid != s'.reaped[k].pid
    {
      Two(s, c, x);
      Cell(s, s', p, e, x);
    }
    forall j | 0 <= j < k
      ensures s'.reaped[j].pid != s'.reaped[k].pid
    {
      Reaped(s, j);
    }
  }

  // --------------------------------------------------------------------- every step

  lemma SelfStep(s: State, a: Action)
    requires Inv(s) && Enabled(s, a) && !Special(s, a)
    ensures a.p < |s.procs| == |Do(s, a).procs| && SelfOk(s, Do(s, a), a.p)
  {
    hide Inv, Do, Enabled, PointOk, ExitOk, WaitOk, ScanOk, Whole, RootPending, Committed, Given, ForkOk, ParentOk, PidOk;
    hide Special, Quiet, Turned, TurnOf;
    var s' := Do(s, a);
    TurnIs(s, a);
    TurnCell(s, s', a.p, TurnOf(s, a), a.p);
    SelfPoint(s, a);
    SelfWhole(s, a);
    TurnForks(s, a);
    SelfCommits(s, a);
    SelfExit(s, a);
    RootThere(s);
    if RootPending(s) && s.lock == Some(a.p) {
      SelfRoot(s, a);
    }
    forall c | 0 <= c < |s.procs|
      ensures WaitOk(s', a.p, c) && ScanOk(s', a.p, c) && (s.procs[c].parent == Some(a.p) ==> c >= Given(s', s'.procs[a.p]))
    {
      SelfWait(s, a, c);
      SelfScan(s, a, c);
      if s.procs[c].parent == Some(a.p) {
        SelfGiven(s, a, c);
      }
    }
  }

  /** A process commits itself to sleep with wait_lock held. */
  lemma SelfCommits(s: State, a: Action)
    requires Inv(s) && Enabled(s, a) && !Special(s, a)
    ensures |Do(s, a).procs| == |s.procs|
    ensures Committed(Do(s, a).procs[a.p]) && !Committed(s.procs[a.p]) ==> s.lock == Some(a.p)
  {
    hide Inv, Do, Enabled, Special, TurnOf, Turned, ExitOk, Whole, ForkOk, ParentOk, PidOk;
    TurnIs(s, a);
    TurnCell(s, Do(s, a), a.p, TurnOf(s, a), a.p);
    TurnCommit(s, a);
    One(s, a.p);
  }

  lemma QuietAction(s: State, a: Action)
    requires Inv(s) && Enabled(s, a) && !Special(s, a)
    ensures Inv(Do(s, a))
  {
    hide Inv, Do, Enabled, Special, Quiet, SelfOk;
    QuietStep(s, a);
    SelfStep(s, a);
    QuietKeeps(s, Do(s, a), a.p);
  }

  lemma RootThere(s: State)
    requires Inv(s)
    ensures s.root < |s.procs|
  {
  }

  lemma ForkKeeps(s: State, s': State, p: nat, e: Effect)
    requires Inv(s) && ForkStep(s, s', p, e)
    ensures Inv(s')
  {
    hide ForkStep, Whole, PointOk, ForkOk, ParentOk, PidOk, ExitOk, ForkApart, PidsApart, WaitOk, ScanOk, ReapOk;
    ForkSize(s, s', p, e);
    ForkWhole(s, s', p, e);
    forall x | 0 <= x < |s'.procs|
      ensures PointOk(s', x) && ForkOk(s', x) && ParentOk(s', x) && PidOk(s', x) && ExitOk(s', x)
    {
      ForkPoint(s, s', p, e, x);
      ForkFork(s, s', p, e, x);
      ForkParent(s, s', p, e, x);
      ForkPid(s, s', p, e, x);
      ForkPast(s, s', p, e, x);
    }
    forall x, y | 0 <= x < |s'.procs| && 0 <= y < |s'.procs|
      ensures ForkApart(s', x, y) && PidsApart(s', x, y) && WaitOk(s', x, y) && ScanOk(s', x, y)
    {
      ForkForks(s, s', p, e, x, y);
      ForkPids(s, s', p, e, x, y);
      ForkWait(s, s', p, e, x, y);
      ForkScan(s, s', p, e, x, y);
    }
    forall k | 0 <= k < |s'.reaped|
      ensures ReapOk(s', k)
    {
      ForkReap(s, s', p, e, k);
    }
  }

  lemma ExitKeeps(s: State, s': State, p: nat, e: Effect)
    requires Inv(s) && ExitStep(s, s', p, e)
    ensures Inv(s')
  {
    hide ExitStep, Whole, PointOk, ForkOk, ParentOk, PidOk, ExitOk, ForkApart, PidsApart, WaitOk, ScanOk, ReapOk;
    ExitSize(s, s', p, e);
    ExitWhole(s, s', p, e);
    forall x | 0 <= x < |s'.procs|
      ensures PointOk(s', x) && ForkOk(s', x) && ParentOk(s', x) && PidOk(s', x) && ExitOk(s', x)
    {
      ExitPoint(s, s', p, e, x);
      ExitFork(s, s', p, e, x);
      ExitParent(s, s', p, e, x);
      ExitPid(s, s', p, e, x);
      ExitPast(s, s', p, e, x);
    }
    forall x, y | 0 <= x < |s'.procs| && 0 <= y < |s'.procs|
      ensures ForkApart(s', x, y) && PidsApart(s', x, y) && WaitOk(s', x, y) && ScanOk(s', x, y)
    {
      ExitForks(s, s', p, e, x, y);
      ExitPids(s, s', p, e, x, y);
      ExitWaits(s, s', p, e, x, y);
      ExitScan(s, s', p, e, x, y);
    }
    forall k | 0 <= k < |s'.reaped|
      ensures ReapOk(s', k)
    {
      ExitReap(s, s', p, e, k);
    }
  }

  lemma ForkSize(s: State, s': State, p: nat, e: Effect)
    requires ForkStep(s, s', p, e)
    ensures |s'.procs| == |s.procs|
  {
  }

  lemma ExitSize(s: State, s': State, p: nat, e: Effect)
    requires ExitStep(s, s', p, e)
    ensures |s'.procs| == |s.procs|
  {
  }

  /** Every step keeps the invariant. */
  lemma StepKeeps(s: State, a: Action)
    requires Inv(s) && Enabled(s, a)
    ensures Inv(Do(s, a))
  {
    hide Inv, Do, Enabled, Special, ForkStep, ExitStep, EffectOf;
    if !Special(s, a) {
      QuietAction(s, a);
    } else {
      EffectLaw(s, a);
      if InFork(a) {
        ForkKeeps(s, Do(s, a), a.p, EffectOf(s, a));
      } else {
        ExitKeeps(s, Do(s, a), a.p, EffectOf(s, a));
      }
    }
  }

  // --------------------------------------------------------------------- runs

  /** After boot: init alone, running. */
  ghost predicate Boot(s: State)
  {
    && s.root < |s.procs| && s.lock.None? && s.nextpid == 2 && s.exits == map[] && s.reaped == []
    && s.procs[s.root] == FREE.(life := Live, pid := 1)
    && forall p :: 0 <= p < |s.procs| && p != s.root ==> s.procs[p] == FREE
  }

  ghost predicate Runs(states: seq<State>, actions: seq<Action>)
  {
    && |states| == |actions| + 1 && Boot(states[0])
    && forall k :: 0 <= k < |actions| ==> Enabled(states[k], actions[k]) && states[k + 1] == Do(states[k], actions[k])
  }

  lemma BootKeeps(s: State)
    requires Boot(s)
    ensures Inv(s)
  {
  }

  lemma {:induction false} RunKeeps(states: seq<State>, actions: seq<Action>, k: nat)
    requires Runs(states, actions) && k < |states|
    ensures Inv(states[k])
  {
    hide Do, Enabled, PointOk, ForkOk, ParentOk, PidOk, ExitOk, ForkApart, PidsApart, WaitOk, ScanOk, ReapOk;
    if k == 0 {
      BootKeeps(states[0]);
    } else {
      RunKeeps(states, actions, k - 1);
      assert states[k - 1 + 1] == Do(states[k - 1], actions[k - 1]);
      StepKeeps(states[k - 1], actions[k - 1]);
    }
  }

  /** In every state of every run: while wait_lock is free, nobody sleeps in wait, waitpid or join, or is committed to,
      with a child there to collect. */
  lemma NobodyWaitsInVain(states: seq<State>, actions: seq<Action>, k: nat, p: nat, c: nat)
    requires Runs(states, actions) && k < |states| && p < |states[k].procs| && c < |states[k].procs|
    requires states[k].lock.None? && Committed(states[k].procs[p]) && IsChild(states[k], p, c, states[k].procs[p].pc.w)
    ensures !states[k].procs[c].life.Zombie?
  {
    RunKeeps(states, actions, k);
    Two(states[k], p, c);
  }

  /** No parent has exited or is an unused slot. */
  lemma ParentsAreLive(states: seq<State>, actions: seq<Action>, k: nat, p: nat)
    requires Runs(states, actions) && k < |states| && p < |states[k].procs| && states[k].procs[p].parent.Some?
    ensures var q := states[k].procs[p].parent.value; q < |states[k].procs| && states[k].procs[q].life.Live?
  {
    RunKeeps(states, actions, k);
    One(states[k], p);
  }

  /** The processes from `p` up through its parents. */
  ghost function Ancestry(s: State, p: nat): (r: seq<nat>)
    requires Inv(s) && p < |s.procs| && (s.procs[p].life.Live? || s.procs[p].life.Zombie?)
    ensures |r| > 0 && r[0] == p && r[|r| - 1] == s.root
    ensures forall i :: 0 <= i < |r| - 1 ==> r[i] < |s.procs| && s.procs[r[i]].parent == Some(r[i + 1])
    decreases s.procs[p].pid
  {
    One(s, p);
    if p == s.root then [p] else [p] + Ancestry(s, s.procs[p].parent.value)
  }

  /** The parent relation is a forest rooted at init: from every process, parents lead to init. */
  lemma ForestRootedAtInit(states: seq<State>, actions: seq<Action>, k: nat, p: nat)
    requires Runs(states, actions) && k < |states| && p < |states[k].procs|
    requires states[k].procs[p].life.Live? || states[k].procs[p].life.Zombie?
    ensures exists r: seq<nat> ::
              && |r| > 0 && r[0] == p && r[|r| - 1] == states[k].root
              && forall i :: 0 <= i < |r| - 1 ==> r[i] < |states[k].procs| && states[k].procs[r[i]].parent == Some(r[i + 1])
  {
    RunKeeps(states, actions, k);
    var r := Ancestry(states[k], p);
  }

  /** Nobody is reaped twice, and what a parent is told is the status the child exited with. */
  lemma ReapedOnce(states: seq<State>, actions: seq<Action>, k: nat, i: nat, j: nat)
    requires Runs(states, actions) && k < |states| && i <= j < |states[k].reaped|
    ensures i < j ==> states[k].reaped[i].pid != states[k].reaped[j].pid
    ensures var r := states[k].reaped[j]; r.pid in states[k].exits && states[k].exits[r.pid] == r.status
  {
    RunKeeps(states, actions, k);
    Reaped(states[k], j);
  }

  /** What one step adds to what was reaped. */
  lemma ReapStep(s: State, a: Action)
    requires Inv(s) && Enabled(s, a)
    ensures a.p < |s.procs|
    ensures Do(s, a).reaped == s.reaped ||
            (a.Look? && exists c ::
              && 0 <= c < |s.procs| && s.procs[c].parent == Some(a.p) && s.procs[c].life.Zombie?
              && Do(s, a).reaped == s.reaped + [Reap(s.procs[c].pid, s.procs[c].xstate, s.procs[a.p].pid)])
  {
    hide Inv;
    if a.Look? {
      assert 0 <= s.procs[a.p].pc.i < |s.procs|;
    }
  }

  /** Whoever was told about an exit was the zombie's parent at that moment, and was told the zombie's status. */
  lemma {:induction false} ToldToTheParent(states: seq<State>, actions: seq<Action>, k: nat, i: nat) returns (m: nat, c: nat)
    requires Runs(states, actions) && k < |states| && i < |states[k].reaped|
    ensures m < k && actions[m].p < |states[m].procs| && c < |states[m].procs| && |states[m].reaped| == i
    ensures states[m].procs[c].parent == Some(actions[m].p) && states[m].procs[c].life.Zombie?
    ensures states[k].reaped[i] ==
            Reap(states[m].procs[c].pid, states[m].procs[c].xstate, states[m].procs[actions[m].p].pid)
  {
    hide Inv, Do, Enabled;
    if k == 0 {
      assert false;
    } else {
      RunKeeps(states, actions, k - 1);
      var s, a := states[k - 1], actions[k - 1];
      assert states[k - 1 + 1] == Do(s, a);
      ReapStep(s, a);
      if i < |s.reaped| {
        m, c := ToldToTheParent(states, actions, k - 1, i);
      } else {
        m := k - 1;
        c :| 0 <= c < |s.procs| && s.procs[c].parent == Some(a.p) && s.procs[c].life.Zombie?
             && Do(s, a).reaped == s.reaped + [Reap(s.procs[c].pid, s.procs[c].xstate, s.procs[a.p].pid)];
      }
    }
  }
}
