/** How operations enter and leave the log, as a step system: begin_op's reservations, log_write's absorption, and the
    group commit done by the last operation to leave. */
module Admission {
  import opened Blocks

  /** Where a process is: about to begin (`Begin`), at the test with the log's lock held (`Test`), at a point of sleep,
      inside an operation that has logged the blocks `used` (`Active`), about to end it (`End`), committing, past the
      commit (`After`), or at entry `i` of a wakeup scan with the lock held. */
  datatype Pc =
    | Idle | Begin | Test | Sleep1 | Sleep2 | Sleep3 | Sleep4 | Asleep | Sleep5
    | Active(used: set<nat>) | End(used: set<nat>) | Commit | After | Wake(i: nat)

  datatype Proc = Proc(pc: Pc, sleeping: bool)

  /** `cap` is LOGBLOCKS and `maxop` MAXOPBLOCKS; `lock` is the holder of the log's spinlock. */
  datatype State = State(cap: nat, maxop: nat, procs: seq<Proc>, lock: Option<nat>,
                         block: seq<nat>, outstanding: int, committing: bool, panicked: bool)

  datatype Action =
    | Call(p: nat) | Take(p: nat) | Admit(p: nat)                                     // begin_op
    | LockSelf(p: nat) | Drop(p: nat) | Mark(p: nat) | Switch(p: nat) | Resume(p: nat) | Tidy(p: nat)   // sleep
    | Write(p: nat, b: nat)                                                           // log_write
    | Finish(p: nat) | Leave(p: nat)                                                  // end_op
    | Install(p: nat) | Reopen(p: nat)                                                // commit and what follows
    | Visit(p: nat)                                                                   // wakeup

  predicate HoldsSelf(pc: Pc)
  {
    pc.Sleep2? || pc.Sleep3? || pc.Sleep4? || pc.Sleep5?
  }

  predicate HoldsLog(pc: Pc)
  {
    pc.Test? || pc.Sleep1? || pc.Sleep2? || pc.Wake?
  }

  /** begin_op must wait: a commit is under way, or the log could not hold one more operation's reservation. */
  predicate MustWait(s: State)
  {
    s.committing || |s.block| + (s.outstanding + 1) * s.maxop > s.cap
  }

  /** Operations log at most `maxop` distinct blocks each. */
  predicate Enabled(s: State, a: Action)
  {
    a.p < |s.procs| && !s.panicked && var q := s.procs[a.p];
    match a
    case Call(_) => q.pc.Idle?
    case Take(_) => q.pc.Begin? && s.lock.None?
    case Admit(_) => q.pc.Test?
    case LockSelf(_) => q.pc.Sleep1?
    case Drop(_) => q.pc.Sleep2?
    case Mark(_) => q.pc.Sleep3?
    case Switch(_) => q.pc.Sleep4?
    case Resume(_) => q.pc.Asleep? && !q.sleeping
    case Tidy(_) => q.pc.Sleep5?
    case Write(_, b) => q.pc.Active? && s.lock.None? && (b in q.pc.used || |q.pc.used| < s.maxop)
    case Finish(_) => q.pc.Active?
    case Leave(_) => q.pc.End? && s.lock.None?
    case Install(_) => q.pc.Commit?
    case Reopen(_) => q.pc.After? && s.lock.None?
    case Visit(p) => q.pc.Wake? && (q.pc.i < |s.procs| && q.pc.i != p ==> !HoldsSelf(s.procs[q.pc.i].pc))
  }

  function Set(s: State, p: nat, pc: Pc): State
    requires p < |s.procs|
  {
    s.(procs := s.procs[p := s.procs[p].(pc := pc)])
  }

  function Do(s: State, a: Action): State
    requires Enabled(s, a)
  {
    var q := s.procs[a.p];
    match a
    case Call(p) => Set(s, p, Begin)
    case Take(p) => Set(s, p, Test).(lock := Some(p))
    case Admit(p) =>
      if MustWait(s) then Set(s, p, Sleep1)
      else Set(s, p, Active({})).(outstanding := s.outstanding + 1, lock := None)
    case LockSelf(p) => Set(s, p, Sleep2)
    case Drop(p) => Set(s, p, Sleep3).(lock := None)
    case Mark(p) => s.(procs := s.procs[p := Proc(Sleep4, true)])
    case Switch(p) => Set(s, p, Asleep)
    case Resume(p) => Set(s, p, Sleep5)
    case Tidy(p) => Set(s, p, Begin)
    case Write(p, b) =>
      if |s.block| >= s.cap then s.(panicked := true)
      else Set(s, p, Active(q.pc.used + {b})).(block := if b in s.block then s.block else s.block + [b])
    case Finish(p) => Set(s, p, End(q.pc.used))
    case Leave(p) =>
      if s.outstanding == 1 then Set(s, p, Commit).(outstanding := 0, committing := true)
      else Set(s, p, Wake(0)).(outstanding := s.outstanding - 1, lock := Some(p))
    case Install(p) => Set(s, p, After).(block := [])
    case Reopen(p) => Set(s, p, Wake(0)).(committing := false, lock := Some(p))
    case Visit(p) =>
      if q.pc.i >= |s.procs| then Set(s, p, Idle).(lock := None)
      else
        var w := s.procs[q.pc.i];
        Set(s.(procs := s.procs[q.pc.i := if q.pc.i == p then w else w.(sleeping := false)]), p, Wake(q.pc.i + 1))
  }

  // --------------------------------------------------------------- reservations

  predicate InOp(pc: Pc)
  {
    pc.Active? || pc.End?
  }

  /** The number of active operations, and what is left of their reservations. */
  function Count(procs: seq<Proc>): nat
  {
    if procs == [] then 0 else Count(procs[..|procs| - 1]) + if InOp(procs[|procs| - 1].pc) then 1 else 0
  }

  function Left(pc: Pc, maxop: nat): int
  {
    if InOp(pc) then maxop - |pc.used| else 0
  }

  function Unused(procs: seq<Proc>, maxop: nat): int
  {
    if procs == [] then 0 else Unused(procs[..|procs| - 1], maxop) + Left(procs[|procs| - 1].pc, maxop)
  }

  lemma {:induction false} SumsUpdate(procs: seq<Proc>, p: nat, q: Proc, maxop: nat)
    requires p < |procs|
    ensures Count(procs[p := q]) == Count(procs) - (if InOp(procs[p].pc) then 1 else 0) + (if InOp(q.pc) then 1 else 0)
    ensures Unused(procs[p := q], maxop) == Unused(procs, maxop) - Left(procs[p].pc, maxop) + Left(q.pc, maxop)
    decreases |procs|
  {
    var init := procs[..|procs| - 1];
    if p < |procs| - 1 {
      assert procs[p := q][..|procs| - 1] == init[p := q];
      SumsUpdate(init, p, q, maxop);
    } else {
      assert procs[p := q][..|procs| - 1] == init;
    }
  }

  lemma {:induction false} UnusedBound(procs: seq<Proc>, maxop: nat)
    ensures Unused(procs, maxop) <= Count(procs) * maxop
  {
    if procs != [] {
      UnusedBound(procs[..|procs| - 1], maxop);
    }
  }

  lemma {:induction false} UnusedAtLeast(procs: seq<Proc>, maxop: nat, p: nat)
    requires p < |procs| && forall x :: 0 <= x < |procs| ==> Left(procs[x].pc, maxop) >= 0
    ensures Unused(procs, maxop) >= Left(procs[p].pc, maxop) && (InOp(procs[p].pc) ==> Count(procs) >= 1)
    decreases |procs|
  {
    var init := procs[..|procs| - 1];
    assert forall x :: 0 <= x < |init| ==> init[x] == procs[x];
    if p < |init| {
      UnusedAtLeast(init, maxop, p);
    } else {
      UnusedSign(init, maxop);
    }
  }

  lemma {:induction false} UnusedSign(procs: seq<Proc>, maxop: nat)
    requires forall x :: 0 <= x < |procs| ==> Left(procs[x].pc, maxop) >= 0
    ensures Unused(procs, maxop) >= 0
  {
    if procs != [] {
      var init := procs[..|procs| - 1];
      assert forall x :: 0 <= x < |init| ==> init[x] == procs[x];
      UnusedSign(init, maxop);
    }
  }

  // --------------------------------------------------------------- invariants

  predicate Committed(q: Proc)
  {
    q.pc.Sleep1? || q.pc.Sleep2? || q.pc.Sleep3? || q.pc.Sleep4? || (q.pc.Asleep? && q.sleeping)
  }

  ghost predicate WillWake(s: State, p: nat)
  {
    s.lock.Some? && s.lock.value < |s.procs| && s.procs[s.lock.value].pc.Wake? && s.procs[s.lock.value].pc.i <= p
  }

  predicate Distinct(block: seq<nat>)
  {
    forall i, j :: 0 <= i < j < |block| ==> block[i] != block[j]
  }

  ghost predicate ProcOk(s: State, p: nat)
    requires p < |s.procs|
  {
    var q := s.procs[p];
    && (HoldsLog(q.pc) ==> s.lock == Some(p))
    && (q.sleeping ==> q.pc.Sleep4? || q.pc.Asleep?) && (q.pc.Sleep4? ==> q.sleeping)
  }

  ghost predicate Listed(used: set<nat>, block: seq<nat>)
  {
    forall b :: b in used ==> b in block
  }

  lemma NoneListed(block: seq<nat>)
    ensures Listed({}, block)
  {
  }

  lemma OneMoreListed(used: set<nat>, block: seq<nat>, b: nat)
    requires Listed(used, block)
    ensures Listed(used, block + [b]) && Listed(used + {b}, block + [b]) && (b in block ==> Listed(used + {b}, block))
  {
  }

  /** What an operation has logged is in the log and within its reservation; a commit is announced. */
  ghost predicate OpOk(s: State, p: nat)
    requires p < |s.procs|
  {
    var q := s.procs[p];
    && (InOp(q.pc) ==> |q.pc.used| <= s.maxop && Listed(q.pc.used, s.block))
    && (q.pc.Commit? || q.pc.After? ==> s.committing) && (q.pc.After? ==> s.block == [])
  }

  /** Whoever is committed to sleep in begin_op has reason to, or is about to be woken. */
  ghost predicate SleepOk(s: State, p: nat)
    requires p < |s.procs|
  {
    Committed(s.procs[p]) ==> MustWait(s) || WillWake(s, p)
  }

  /** The committer is alone. */
  ghost predicate Alone(s: State, p: nat, q: nat)
    requires p < |s.procs| && q < |s.procs|
  {
    (s.procs[p].pc.Commit? || s.procs[p].pc.After?) && (s.procs[q].pc.Commit? || s.procs[q].pc.After?) ==> p == q
  }

  ghost predicate Whole(s: State)
  {
    && 0 < s.maxop <= s.cap
    && (s.lock.Some? ==> s.lock.value < |s.procs| && HoldsLog(s.procs[s.lock.value].pc))
    && s.outstanding == Count(s.procs) && (s.committing ==> s.outstanding == 0)
    && (!s.committing && s.outstanding == 0 ==> s.block == [])
    && Distinct(s.block) && |s.block| + Unused(s.procs, s.maxop) <= s.cap
  }

  ghost predicate Inv(s: State)
  {
    && Whole(s) && (forall p :: 0 <= p < |s.procs| ==> ProcOk(s, p) && OpOk(s, p) && SleepOk(s, p))
    && (forall p, q :: 0 <= p < |s.procs| && 0 <= q < |s.procs| ==> Alone(s, p, q))
  }

  lemma InvAt(s: State, p: nat)
    requires Inv(s) && p < |s.procs|
    ensures Whole(s) && ProcOk(s, p) && OpOk(s, p) && SleepOk(s, p)
  {
  }

  lemma InvPair(s: State, p: nat, q: nat)
    requires Inv(s) && p < |s.procs| && q < |s.procs|
    ensures Alone(s, p, q)
  {
  }

  lemma StepProc(s: State, a: Action, x: nat)
    requires Inv(s) && Enabled(s, a) && x < |s.procs|
    ensures |Do(s, a).procs| == |s.procs| && ProcOk(Do(s, a), x)
  {
    hide Inv, Unused, Count, Distinct, SleepOk, OpOk;
    InvAt(s, a.p);
    InvAt(s, x);
  }

  lemma StepOp(s: State, a: Action, x: nat)
    requires Inv(s) && Enabled(s, a) && x < |s.procs|
    ensures |Do(s, a).procs| == |s.procs| && OpOk(Do(s, a), x)
  {
    hide Inv, Do, Enabled, OpOk;
    if x == a.p { OwnOp(s, a); } else { OtherOp(s, a, x); }
  }

  lemma OwnOp(s: State, a: Action)
    requires Inv(s) && Enabled(s, a)
    ensures |Do(s, a).procs| == |s.procs| && a.p < |s.procs| && OpOk(Do(s, a), a.p)
  {
    hide Inv, Unused, Count, Distinct, SleepOk, ProcOk, Listed;
    InvAt(s, a.p);
    NoneListed(s.block);
    if a.Write? {
      OneMoreListed(s.procs[a.p].pc.used, s.block, a.b);
    }
  }

  lemma OtherOp(s: State, a: Action, x: nat)
    requires Inv(s) && Enabled(s, a) && x < |s.procs| && x != a.p
    ensures |Do(s, a).procs| == |s.procs| && OpOk(Do(s, a), x)
  {
    hide Inv, Unused, Count, Distinct, SleepOk, ProcOk, Listed;
    InvAt(s, a.p);
    InvAt(s, x);
    InvPair(s, a.p, x);
    if InOp(s.procs[a.p].pc) {
      SomeoneIn(s, a.p);
    }
    if InOp(s.procs[x].pc) {
      SomeoneIn(s, x);
      if a.Write? {
        OneMoreListed(s.procs[x].pc.used, s.block, a.b);
      }
    }
  }

  lemma WithinReservation(s: State)
    requires Inv(s)
    ensures forall y :: 0 <= y < |s.procs| ==> Left(s.procs[y].pc, s.maxop) >= 0
  {
    forall y | 0 <= y < |s.procs|
      ensures Left(s.procs[y].pc, s.maxop) >= 0
    {
      InvAt(s, y);
    }
  }

  lemma SomeoneIn(s: State, x: nat)
    requires Inv(s) && x < |s.procs| && InOp(s.procs[x].pc)
    ensures Count(s.procs) >= 1 && s.maxop - |s.procs[x].pc.used| <= Unused(s.procs, s.maxop)
  {
    WithinReservation(s);
    UnusedAtLeast(s.procs, s.maxop, x);
  }

  lemma StepSleep(s: State, a: Action, x: nat)
    requires Inv(s) && Enabled(s, a) && x < |s.procs|
    ensures |Do(s, a).procs| == |s.procs| && SleepOk(Do(s, a), x)
  {
    hide Inv, Do, Enabled, SleepOk;
    if x == a.p { OwnSleep(s, a); } else { OtherSleep(s, a, x); }
  }

  lemma OwnSleep(s: State, a: Action)
    requires Inv(s) && Enabled(s, a)
    ensures |Do(s, a).procs| == |s.procs| && a.p < |s.procs| && SleepOk(Do(s, a), a.p)
  {
    hide Inv, Unused, Count, Distinct, OpOk;
    InvAt(s, a.p);
  }

  lemma OtherSleep(s: State, a: Action, x: nat)
    requires Inv(s) && Enabled(s, a) && x < |s.procs| && x != a.p
    ensures |Do(s, a).procs| == |s.procs| && SleepOk(Do(s, a), x)
  {
    hide Inv, Do, Enabled, Unused, Count, Distinct, OpOk, ProcOk, MustWait, WillWake;
    InvAt(s, x);
    SamePoint(s, a, x);
    OthersSleep(s, a, x);
    if MustWait(s) {
      WaitEnds(s, a, x);
    } else if Committed(s.procs[x]) {
      WakeComes(s, a, x);
    }
  }

  lemma OthersSleep(s: State, a: Action, x: nat)
    requires Enabled(s, a) && x < |s.procs| && x != a.p
    ensures |Do(s, a).procs| == |s.procs| && (Committed(Do(s, a).procs[x]) ==> Committed(s.procs[x]))
  {
    hide MustWait;
  }

  /** A step that ends the reason to wait starts a wakeup. */
  lemma WaitEnds(s: State, a: Action, x: nat)
    requires Inv(s) && Enabled(s, a) && MustWait(s)
    ensures MustWait(Do(s, a)) || WillWake(Do(s, a), x)
  {
    hide Inv, Unused, Count, Distinct, SleepOk, ProcOk, Listed;
    InvAt(s, a.p);
    OneMore(s.outstanding, s.maxop);
  }

  /** A wakeup under way comes to everyone who sleeps. */
  lemma WakeComes(s: State, a: Action, x: nat)
    requires Inv(s) && Enabled(s, a) && x < |s.procs| && x != a.p && WillWake(s, x) && Committed(s.procs[x])
    ensures |Do(s, a).procs| == |s.procs| && (WillWake(Do(s, a), x) || !Committed(Do(s, a).procs[x]))
  {
    hide Inv, Unused, Count, Distinct, SleepOk, OpOk, MustWait;
    InvAt(s, a.p);
    InvAt(s, x);
  }

  lemma OneMore(n: int, m: nat)
    ensures (n + 2) * m == (n + 1) * m + m
  {
  }

  lemma StepAlone(s: State, a: Action, x: nat, y: nat)
    requires Inv(s) && Enabled(s, a) && x < |s.procs| && y < |s.procs|
    ensures |Do(s, a).procs| == |s.procs| && Alone(Do(s, a), x, y)
  {
    hide Inv, Do, Enabled, Unused, Count, Distinct, SleepOk, ProcOk, Listed;
    SamePoint(s, a, x);
    SamePoint(s, a, y);
    StartsCommit(s, a);
    InvAt(s, x);
    InvAt(s, y);
    InvPair(s, x, y);
    if s.procs[a.p].pc.End? {
      SomeoneIn(s, a.p);
    }
  }

  lemma SamePoint(s: State, a: Action, x: nat)
    requires Enabled(s, a) && x < |s.procs|
    ensures |Do(s, a).procs| == |s.procs| && a.p < |s.procs| && (x != a.p ==> Do(s, a).procs[x].pc == s.procs[x].pc)
  {
  }

  /** Only an operation that ends starts a commit. */
  lemma StartsCommit(s: State, a: Action)
    requires Enabled(s, a)
    ensures |Do(s, a).procs| == |s.procs|
    ensures var pc, pc' := s.procs[a.p].pc, Do(s, a).procs[a.p].pc; pc'.Commit? || pc'.After? ==> pc.Commit? || pc.After? || pc.End?
  {
  }

  /** What a step does to the sums over the processes. */
  lemma StepSums(s: State, a: Action)
    requires Enabled(s, a)
    ensures var q, s' := s.procs[a.p], Do(s, a);
            && |s'.procs| == |s.procs|
            && Count(s'.procs) == Count(s.procs) - (if InOp(q.pc) then 1 else 0) + (if InOp(s'.procs[a.p].pc) then 1 else 0)
            && Unused(s'.procs, s.maxop) == Unused(s.procs, s.maxop) - Left(q.pc, s.maxop) + Left(s'.procs[a.p].pc, s.maxop)
  {
    hide Count, Unused;
    var s' := Do(s, a);
    var procs := s.procs;
    if a.Visit? && s.procs[a.p].pc.i < |s.procs| && s.procs[a.p].pc.i != a.p {
      var i := s.procs[a.p].pc.i;
      procs := s.procs[i := s.procs[i].(sleeping := false)];
      SumsUpdate(s.procs, i, procs[i], s.maxop);
    }
    SumsUpdate(procs, a.p, s'.procs[a.p], s.maxop);
    assert s'.procs == procs[a.p := s'.procs[a.p]];
  }

  lemma StepWhole(s: State, a: Action)
    requires Inv(s) && Enabled(s, a) && !a.Write?
    ensures Whole(Do(s, a))
  {
    hide Inv, Unused, Count, SleepOk;
    InvAt(s, a.p);
    StepSums(s, a);
    UnusedBound(s.procs, s.maxop);
    OneMore(s.outstanding - 1, s.maxop);
  }

  /** A block logged for the first time takes a slot its operation had reserved. */
  lemma WriteWhole(s: State, a: Action)
    requires Inv(s) && Enabled(s, a) && a.Write?
    ensures Whole(Do(s, a)) && (a.b !in s.block ==> |s.block| < s.cap)
  {
    hide Inv, Unused, Count, SleepOk;
    InvAt(s, a.p);
    StepSums(s, a);
    SomeoneIn(s, a.p);
  }

  /** Every step keeps the invariant. */
  lemma StepKeeps(s: State, a: Action)
    requires Inv(s) && Enabled(s, a)
    ensures Inv(Do(s, a))
  {
    hide Do, Enabled, ProcOk, OpOk, SleepOk, Alone, Whole;
    var s' := Do(s, a);
    if a.Write? { WriteWhole(s, a); } else { StepWhole(s, a); }
    forall x | 0 <= x < |s'.procs|
      ensures ProcOk(s', x) && OpOk(s', x) && SleepOk(s', x)
    {
      SameSize(s, a);
      StepProc(s, a, x);
      StepOp(s, a, x);
      StepSleep(s, a, x);
    }
    forall x, y | 0 <= x < |s'.procs| && 0 <= y < |s'.procs|
      ensures Alone(s', x, y)
    {
      SameSize(s, a);
      StepAlone(s, a, x, y);
    }
  }

  lemma SameSize(s: State, a: Action)
    requires Enabled(s, a)
    ensures |Do(s, a).procs| == |s.procs| && Do(s, a).cap == s.cap && Do(s, a).maxop == s.maxop
  {
  }

  // --------------------------------------------------------------------- runs

  ghost predicate Boot(s: State)
  {
    && 0 < s.maxop <= s.cap && s.lock.None? && s.block == [] && s.outstanding == 0 && !s.committing && !s.panicked
    && forall p :: 0 <= p < |s.procs| ==> s.procs[p] == Proc(Idle, false)
  }

  ghost predicate Runs(states: seq<State>, actions: seq<Action>)
  {
    && |states| == |actions| + 1 && Boot(states[0])
    && forall k :: 0 <= k < |actions| ==> Enabled(states[k], actions[k]) && states[k + 1] == Do(states[k], actions[k])
  }

  lemma {:induction false} IdleSums(procs: seq<Proc>, maxop: nat)
    requires forall p :: 0 <= p < |procs| ==> procs[p] == Proc(Idle, false)
    ensures Count(procs) == 0 && Unused(procs, maxop) == 0
  {
    if procs != [] {
      IdleSums(procs[..|procs| - 1], maxop);
    }
  }

  lemma {:induction false} RunKeeps(states: seq<State>, actions: seq<Action>, k: nat)
    requires Runs(states, actions) && k < |states|
    ensures Inv(states[k])
  {
    hide Do, Enabled;
    if k == 0 {
      IdleSums(states[0].procs, states[0].maxop);
    } else {
      RunKeeps(states, actions, k - 1);
      assert states[k - 1 + 1] == Do(states[k - 1], actions[k - 1]);
      StepKeeps(states[k - 1], actions[k - 1]);
    }
  }

  /** In every state of every run, what is logged and what active operations may still log fits in the log, and no block
      is listed twice. */
  lemma LogNeverOverflows(states: seq<State>, actions: seq<Action>, k: nat)
    requires Runs(states, actions) && k < |states|
    ensures var s := states[k]; |s.block| + Unused(s.procs, s.maxop) <= s.cap && Distinct(s.block)
  {
    hide Unused, Distinct, ProcOk, OpOk, SleepOk, Alone;
    RunKeeps(states, actions, k);
  }

  /** A block not yet in the log always finds a slot. */
  lemma NewBlockFits(states: seq<State>, actions: seq<Action>, k: nat, p: nat, b: nat)
    requires Runs(states, actions) && k < |states| && Enabled(states[k], Write(p, b)) && b !in states[k].block
    ensures |states[k].block| < states[k].cap && !Do(states[k], Write(p, b)).panicked
  {
    RunKeeps(states, actions, k);
    WriteWhole(states[k], Write(p, b));
  }

  /** The commit runs alone: no operation is active, and no other process commits. */
  lemma CommitRunsAlone(states: seq<State>, actions: seq<Action>, k: nat, p: nat, q: nat)
    requires Runs(states, actions) && k < |states| && p < |states[k].procs| && q < |states[k].procs|
    requires states[k].procs[p].pc.Commit?
    ensures !InOp(states[k].procs[q].pc) && (states[k].procs[q].pc.Commit? ==> q == p)
  {
    RunKeeps(states, actions, k);
    InvAt(states[k], p);
    InvPair(states[k], p, q);
    if InOp(states[k].procs[q].pc) {
      SomeoneIn(states[k], q);
    }
  }

  /** While the log's lock is free, a process asleep in begin_op, or committed to, must wait; and then an operation is
      active or a commit under way, whose end wakes it. */
  lemma SleepersWillBeWoken(states: seq<State>, actions: seq<Action>, k: nat, p: nat)
    requires Runs(states, actions) && k < |states| && p < |states[k].procs|
    requires states[k].lock.None? && Committed(states[k].procs[p])
    ensures MustWait(states[k]) && (states[k].committing || Count(states[k].procs) >= 1)
  {
    hide Unused, Count;
    RunKeeps(states, actions, k);
    InvAt(states[k], p);
  }

  // --------------------------------------------------- the check in log_write

  /** log_write's size check comes before the search for the block, so a write that would be absorbed panics too: exactly
      when the log is full, which takes every active operation having used its whole reservation. */
  lemma PanicsExactlyWhenFull(s: State, p: nat, b: nat)
    requires Inv(s) && Enabled(s, Write(p, b))
    ensures Do(s, Write(p, b)).panicked <==> |s.block| == s.cap
    ensures |s.block| == s.cap ==> b in s.block && Unused(s.procs, s.maxop) == 0
    ensures |s.procs[p].pc.used| < s.maxop ==> !Do(s, Write(p, b)).panicked
  {
    hide Unused, Count;
    InvAt(s, p);
    WriteWhole(s, Write(p, b));
    SomeoneIn(s, p);
    WithinReservation(s);
    UnusedSign(s.procs, s.maxop);
  }

  ghost predicate Reachable(s: State)
  {
    exists states, actions :: Runs(states, actions) && states[|actions|] == s
  }

  lemma ReachStep(s: State, a: Action)
    requires Reachable(s) && Enabled(s, a)
    ensures Reachable(Do(s, a))
  {
    hide Do, Enabled, Boot;
    var states, actions :| Runs(states, actions) && states[|actions|] == s;
    var states', actions' := states + [Do(s, a)], actions + [a];
    forall k | 0 <= k < |actions'|
      ensures Enabled(states'[k], actions'[k]) && states'[k + 1] == Do(states'[k], actions'[k])
    {
      if k < |actions| {
        assert Enabled(states[k], actions[k]) && states[k + 1] == Do(states[k], actions[k]);
      }
    }
    assert Runs(states', actions') && states'[|actions'|] == Do(s, a);
  }

  /** A process enters an operation. */
  lemma Enter(s: State, p: nat) returns (s': State)
    requires Reachable(s) && p < |s.procs| && s.procs[p] == Proc(Idle, false) && s.lock.None? && !s.panicked && !MustWait(s)
    ensures Reachable(s') && s' == s.(procs := s.procs[p := Proc(Active({}), false)], outstanding := s.outstanding + 1)
  {
    hide Reachable;
    ReachStep(s, Call(p));
    var s1 := Do(s, Call(p));
    assert s1 == s.(procs := s.procs[p := Proc(Begin, false)]);
    ReachStep(s1, Take(p));
    var s2 := Do(s1, Take(p));
    assert s2 == s.(procs := s.procs[p := Proc(Test, false)], lock := Some(p));
    ReachStep(s2, Admit(p));
    s' := Do(s2, Admit(p));
  }

  /** The process logs `k` blocks that are not in the log yet. */
  lemma {:induction false} Fill(s: State, p: nat, k: nat) returns (s': State)
    requires Reachable(s) && p < |s.procs| && s.procs[p].pc.Active? && s.lock.None? && !s.panicked
    requires |s.procs[p].pc.used| + k <= s.maxop && |s.block| + k <= s.cap
    requires forall b :: b in s.procs[p].pc.used ==> b < |s.block|
    requires forall b :: b in s.block ==> b < |s.block|
    ensures Reachable(s') && |s'.block| == |s.block| + k && |s'.procs| == |s.procs| && s'.procs[p].pc.Active?
    ensures |s'.procs[p].pc.used| == |s.procs[p].pc.used| + k
    ensures forall b :: b in s'.block ==> b < |s'.block|
    ensures s' == s.(procs := s'.procs, block := s'.block) && forall x :: 0 <= x < |s.procs| && x != p ==> s'.procs[x] == s.procs[x]
    decreases k
  {
    s' := s;
    if k > 0 {
      var a := Write(p, |s.block|);
      ReachStep(s, a);
      s' := Fill(Do(s, a), p, k - 1);
    }
  }

  /** With the kernel's own constants, three operations that each stay within their reservation can fill the log, and the
      next write of a block already in it panics. */
  lemma AbsorbedWriteCanPanic()
    ensures exists s: State, p: nat, b: nat ::
              && Reachable(s) && s.cap == 30 && s.maxop == 10
              && Enabled(s, Write(p, b)) && b in s.block && Do(s, Write(p, b)).panicked
  {
    hide Do, Reachable;
    var idle := Proc(Idle, false);
    var s := State(30, 10, [idle, idle, idle], None, [], 0, false, false);
    BootReachable(s);
    s := Enter(s, 0);
    s := Enter(s, 1);
    s := Enter(s, 2);
    s := Fill(s, 0, 10);
    s := Fill(s, 1, 10);
    s := Fill(s, 2, 10);
    ReachInv(s);
    var b :| b in s.procs[2].pc.used;
    InvAt(s, 2);
    PanicsExactlyWhenFull(s, 2, b);
  }

  lemma BootReachable(s: State)
    requires Boot(s)
    ensures Reachable(s)
  {
    var states: seq<State>, actions: seq<Action> := [s], [];
    assert Runs(states, actions) && states[|actions|] == s;
  }

  lemma ReachInv(s: State)
    requires Reachable(s)
    ensures Inv(s)
  {
    var states, actions :| Runs(states, actions) && states[|actions|] == s;
    RunKeeps(states, actions, |actions|);
  }
}
