/** The priority scheduler as a step system: any number of CPUs scanning the process table at once. */
module Scheduler {
  import opened Blocks

  datatype RunState = Runnable | Running | Other

  /** `lock` is the CPU that holds p->lock, on behalf of its scheduler or of the process it runs. */
  datatype Proc = Proc(state: RunState, priority: int, lock: Option<nat>)

  /** Where a CPU is: about to lock entry `i` (`Scan`), holding it (`Look`), with a process chosen and switching to it
      (`Hand`), running it (`Run`), or switched back with its lock held (`Back`).  `seen` is history: the priorities the
      scan has found runnable. */
  datatype Cpu =
    | Scan(i: nat, best: Option<nat>, seen: map<nat, int>)
    | Look(i: nat, best: Option<nat>, seen: map<nat, int>)
    | Hand(p: nat) | Run(p: nat) | Back(p: nat)

  datatype State = State(procs: seq<Proc>, cpus: seq<Cpu>)

  /** `Touch` is anything else in the kernel that takes p->lock for a moment: wakeup, kill, fork, setpriority. */
  datatype Action =
    | Acquire(c: nat) | Consider(c: nat) | Choose(c: nat) | Start(c: nat) | Stop(c: nat, state: RunState) | Finish(c: nat)
    | Touch(c: nat, p: nat, state: RunState, priority: int)

  predicate Enabled(s: State, a: Action)
  {
    a.c < |s.cpus| && var u := s.cpus[a.c];
    match a
    case Acquire(_) => u.Scan? && u.i < |s.procs| && s.procs[u.i].lock.None?
    case Consider(_) => u.Look? && u.i < |s.procs| && (u.best.Some? ==> u.best.value < |s.procs|)
    case Choose(_) => u.Scan? && u.i >= |s.procs| && (u.best.Some? ==> u.best.value < |s.procs|)
    case Start(_) => u.Hand? && u.p < |s.procs|
    case Stop(_, state) => u.Run? && u.p < |s.procs| && s.procs[u.p].lock.None? && !state.Running?
    case Finish(_) => u.Back? && u.p < |s.procs|
    case Touch(_, p, state, _) =>
      p < |s.procs| && s.procs[p].lock.None? && (s.procs[p].state.Running? <==> state.Running?)
  }

  function SetCpu(s: State, c: nat, u: Cpu): State
    requires c < |s.cpus|
  {
    s.(cpus := s.cpus[c := u])
  }

  function SetProc(s: State, p: nat, q: Proc): State
    requires p < |s.procs|
  {
    s.(procs := s.procs[p := q])
  }

  function Unlock(s: State, p: nat): State
    requires p < |s.procs|
  {
    SetProc(s, p, s.procs[p].(lock := None))
  }

  function Do(s: State, a: Action): State
    requires Enabled(s, a)
  {
    var u := s.cpus[a.c];
    match a
    case Acquire(c) => SetProc(SetCpu(s, c, Look(u.i, u.best, u.seen)), u.i, s.procs[u.i].(lock := Some(c)))
    case Consider(c) =>
      var q := s.procs[u.i];
      if q.state.Runnable? then
        var seen: map<nat, int> := u.seen[u.i := q.priority];
        if u.best.None? then SetCpu(s, c, Scan(u.i + 1, Some(u.i), seen))
        else if q.priority > s.procs[u.best.value].priority then
          Unlock(SetCpu(s, c, Scan(u.i + 1, Some(u.i), seen)), u.best.value)
        else Unlock(SetCpu(s, c, Scan(u.i + 1, u.best, seen)), u.i)
      else Unlock(SetCpu(s, c, Scan(u.i + 1, u.best, u.seen)), u.i)
    case Choose(c) =>
      if u.best.None? then SetCpu(s, c, Scan(0, None, map[]))
      else SetProc(SetCpu(s, c, Hand(u.best.value)), u.best.value, s.procs[u.best.value].(state := Running))
    case Start(c) => Unlock(SetCpu(s, c, Run(u.p)), u.p)
    case Stop(c, state) => SetProc(SetCpu(s, c, Back(u.p)), u.p, s.procs[u.p].(state := state, lock := Some(c)))
    case Finish(c) => Unlock(SetCpu(s, c, Scan(0, None, map[])), u.p)
    case Touch(c, p, state, priority) => SetProc(s, p, s.procs[p].(state := state, priority := priority))
  }

  // --------------------------------------------------------------- invariants

  /** The locks a CPU holds. */
  predicate HoldsLock(u: Cpu, p: nat)
  {
    match u
    case Scan(_, best, _) => best == Some(p)
    case Look(i, best, _) => best == Some(p) || i == p
    case Hand(q) => q == p
    case Run(_) => false
    case Back(q) => q == p
  }

  /** `b` is the best of what was seen: nothing higher, and nothing as high at a lower index. */
  ghost predicate Best(seen: map<nat, int>, b: nat)
  {
    b in seen && forall j :: j in seen ==> seen[j] < seen[b] || (seen[j] == seen[b] && j >= b)
  }

  /** A scan's choice so far is still there as it was seen, below where the scan has come to. */
  ghost predicate ScanOk(s: State, i: nat, best: Option<nat>, seen: map<nat, int>)
  {
    && i <= |s.procs| && (forall j :: j in seen ==> j < i)
    && match best
       case None => seen == map[]
       case Some(b) => b < i && Best(seen, b) && s.procs[b].state.Runnable? && s.procs[b].priority == seen[b]
  }

  ghost predicate CpuOk(s: State, c: nat)
    requires c < |s.cpus|
  {
    match s.cpus[c]
    case Scan(i, best, seen) => ScanOk(s, i, best, seen) && (best.Some? ==> Locked(s, best.value, c))
    case Look(i, best, seen) => ScanOk(s, i, best, seen) && (best.Some? ==> Locked(s, best.value, c)) && Locked(s, i, c)
    case Hand(p) => Locked(s, p, c) && s.procs[p].state.Running?
    case Run(p) => p < |s.procs| && s.procs[p].state.Running?
    case Back(p) => Locked(s, p, c) && !s.procs[p].state.Running?
  }

  predicate Locked(s: State, p: nat, c: nat)
  {
    p < |s.procs| && s.procs[p].lock == Some(c)
  }

  ghost predicate LockOk(s: State, p: nat)
    requires p < |s.procs|
  {
    s.procs[p].lock.Some? ==> s.procs[p].lock.value < |s.cpus| && HoldsLock(s.cpus[s.procs[p].lock.value], p)
  }

  predicate RunsIt(u: Cpu, p: nat)
  {
    (u.Hand? || u.Run?) && u.p == p
  }

  /** No two CPUs run the same process. */
  ghost predicate Apart(s: State, c: nat, d: nat)
    requires c < |s.cpus| && d < |s.cpus|
  {
    c != d ==> forall p :: RunsIt(s.cpus[c], p) ==> !RunsIt(s.cpus[d], p)
  }

  /** A running process runs somewhere. */
  ghost predicate Somewhere(s: State, p: nat)
    requires p < |s.procs|
  {
    s.procs[p].state.Running? ==> exists c :: 0 <= c < |s.cpus| && RunsIt(s.cpus[c], p)
  }

  ghost predicate Inv(s: State)
  {
    && (forall c :: 0 <= c < |s.cpus| ==> CpuOk(s, c))
    && (forall p :: 0 <= p < |s.procs| ==> LockOk(s, p) && Somewhere(s, p))
    && (forall c, d :: 0 <= c < |s.cpus| && 0 <= d < |s.cpus| ==> Apart(s, c, d))
  }

  lemma CpuAt(s: State, c: nat)
    requires Inv(s) && c < |s.cpus|
    ensures CpuOk(s, c)
  {
  }

  lemma ProcAt(s: State, p: nat)
    requires Inv(s) && p < |s.procs|
    ensures LockOk(s, p) && Somewhere(s, p)
  {
  }

  lemma PairAt(s: State, c: nat, d: nat)
    requires Inv(s) && c < |s.cpus| && d < |s.cpus|
    ensures Apart(s, c, d)
  {
  }

  lemma SameSize(s: State, a: Action)
    requires Enabled(s, a)
    ensures |Do(s, a).procs| == |s.procs| && |Do(s, a).cpus| == |s.cpus|
  {
  }

  lemma SameCpu(s: State, a: Action, d: nat)
    requires Enabled(s, a) && d < |s.cpus| && d != a.c
    ensures |Do(s, a).procs| == |s.procs| && |Do(s, a).cpus| == |s.cpus| && Do(s, a).cpus[d] == s.cpus[d]
  {
  }

  /** No step touches a process that another CPU has locked. */
  lemma Untouched(s: State, a: Action, p: nat, d: nat)
    requires Enabled(s, a) && a.c < |s.cpus| && CpuOk(s, a.c) && Locked(s, p, d) && d != a.c
    ensures p < |Do(s, a).procs| && Do(s, a).procs[p] == s.procs[p]
  {
    hide Best;
  }

  /** No step stops a process that another CPU runs. */
  lemma StillRuns(s: State, a: Action, p: nat)
    requires Enabled(s, a) && a.c < |s.cpus| && p < |s.procs| && s.procs[p].state.Running? && !RunsIt(s.cpus[a.c], p)
    ensures p < |Do(s, a).procs| && Do(s, a).procs[p].state.Running?
  {
    hide CpuOk;
  }

  /** What other CPUs do does not touch what a CPU has locked or is running. */
  lemma StepOther(s: State, a: Action, d: nat)
    requires Inv(s) && Enabled(s, a) && d < |s.cpus| && d != a.c
    ensures |Do(s, a).cpus| == |s.cpus| && CpuOk(Do(s, a), d)
  {
    hide Inv, Best, Do, Locked;
    var u := s.cpus[d];
    CpuAt(s, a.c);
    CpuAt(s, d);
    SameCpu(s, a, d);
    if (u.Scan? || u.Look?) && u.best.Some? { LockedStays(s, a, u.best.value, d); }
    if u.Look? { LockedStays(s, a, u.i, d); }
    if u.Hand? || u.Back? { LockedStays(s, a, u.p, d); }
    if u.Run? {
      PairAt(s, a.c, d);
      assert RunsIt(u, u.p);
      StillRuns(s, a, u.p);
    }
  }

  lemma LockedStays(s: State, a: Action, p: nat, d: nat)
    requires Enabled(s, a) && a.c < |s.cpus| && CpuOk(s, a.c) && Locked(s, p, d) && d != a.c
    ensures p < |s.procs| && Locked(Do(s, a), p, d) && p < |Do(s, a).procs| && Do(s, a).procs[p] == s.procs[p]
  {
    hide Do, CpuOk;
    Untouched(s, a, p, d);
  }

  lemma StepOwn(s: State, a: Action)
    requires Inv(s) && Enabled(s, a) && !a.Consider?
    ensures |Do(s, a).cpus| == |s.cpus| && CpuOk(Do(s, a), a.c)
  {
    hide Inv, Best;
    CpuAt(s, a.c);
  }

  lemma BestOf(seen: map<nat, int>, i: nat, x: int, best: Option<nat>)
    requires forall j :: j in seen ==> j < i
    requires match best case None => seen == map[] case Some(b) => Best(seen, b)
    ensures var seen': map<nat, int> := seen[i := x];
            match best
            case None => Best(seen', i)
            case Some(b) => if x > seen[b] then Best(seen', i) else Best(seen', b)
  {
  }

  lemma StepConsider(s: State, a: Action)
    requires Inv(s) && Enabled(s, a) && a.Consider?
    ensures |Do(s, a).cpus| == |s.cpus| && CpuOk(Do(s, a), a.c)
  {
    hide Inv, Best;
    CpuAt(s, a.c);
    var u := s.cpus[a.c];
    BestOf(u.seen, u.i, s.procs[u.i].priority, u.best);
    if u.best.Some? {
      BestIn(u.seen, u.best.value);
    }
  }

  lemma BestIn(seen: map<nat, int>, b: nat)
    requires Best(seen, b)
    ensures b in seen
  {
  }

  lemma StepCpu(s: State, a: Action, d: nat)
    requires Inv(s) && Enabled(s, a) && d < |s.cpus|
    ensures |Do(s, a).cpus| == |s.cpus| && CpuOk(Do(s, a), d)
  {
    hide Inv, CpuOk, Do, Enabled;
    if d != a.c {
      StepOther(s, a, d);
    } else if a.Consider? {
      StepConsider(s, a);
    } else {
      StepOwn(s, a);
    }
  }

  lemma StepLock(s: State, a: Action, p: nat)
    requires Inv(s) && Enabled(s, a) && p < |s.procs|
    ensures |Do(s, a).procs| == |s.procs| && LockOk(Do(s, a), p)
  {
    hide Inv, ScanOk, Somewhere;
    CpuAt(s, a.c);
    ProcAt(s, p);
  }

  lemma StepRuns(s: State, a: Action, p: nat)
    requires Inv(s) && Enabled(s, a) && p < |s.procs|
    ensures |Do(s, a).procs| == |s.procs| && Somewhere(Do(s, a), p)
  {
    hide Inv, ScanOk;
    CpuAt(s, a.c);
    ProcAt(s, p);
    var s' := Do(s, a);
    if s'.procs[p].state.Running? {
      if s.procs[p].state.Running? {
        var c :| 0 <= c < |s.cpus| && RunsIt(s.cpus[c], p);
        assert RunsIt(s'.cpus[c], p);
      } else {
        assert RunsIt(s'.cpus[a.c], p);
      }
    }
  }

  lemma StepApart(s: State, a: Action, c: nat, d: nat)
    requires Inv(s) && Enabled(s, a) && c < |s.cpus| && d < |s.cpus|
    ensures |Do(s, a).cpus| == |s.cpus| && Apart(Do(s, a), c, d)
  {
    hide Inv;
    CpuAt(s, a.c);
    CpuAt(s, c);
    CpuAt(s, d);
    PairAt(s, c, d);
  }

  /** Every step keeps the invariant. */
  lemma StepKeeps(s: State, a: Action)
    requires Inv(s) && Enabled(s, a)
    ensures Inv(Do(s, a))
  {
    hide Do, Enabled, CpuOk, LockOk, Somewhere, Apart;
    var s' := Do(s, a);
    SameSize(s, a);
    forall c | 0 <= c < |s'.cpus|
      ensures CpuOk(s', c)
    {
      StepCpu(s, a, c);
    }
    forall p | 0 <= p < |s'.procs|
      ensures LockOk(s', p) && Somewhere(s', p)
    {
      StepLock(s, a, p);
      StepRuns(s, a, p);
    }
    forall c, d | 0 <= c < |s'.cpus| && 0 <= d < |s'.cpus|
      ensures Apart(s', c, d)
    {
      StepApart(s, a, c, d);
    }
  }

  // --------------------------------------------------------------------- runs

  ghost predicate Boot(s: State)
  {
    && (forall p :: 0 <= p < |s.procs| ==> s.procs[p].lock.None? && !s.procs[p].state.Running?)
    && (forall c :: 0 <= c < |s.cpus| ==> s.cpus[c] == Scan(0, None, map[]))
  }

  ghost predicate Runs(states: seq<State>, actions: seq<Action>)
  {
    && |states| == |actions| + 1 && Boot(states[0])
    && forall k :: 0 <= k < |actions| ==> Enabled(states[k], actions[k]) && states[k + 1] == Do(states[k], actions[k])
  }

  lemma {:induction false} RunKeeps(states: seq<State>, actions: seq<Action>, k: nat)
    requires Runs(states, actions) && k < |states|
    ensures Inv(states[k])
  {
    hide Do, Enabled;
    if k > 0 {
      RunKeeps(states, actions, k - 1);
      assert states[k - 1 + 1] == Do(states[k - 1], actions[k - 1]);
      StepKeeps(states[k - 1], actions[k - 1]);
    }
  }

  /** Whatever a CPU dispatches has the highest priority its scan found runnable, at the lowest index among equals; and
      at that moment it is still runnable and still has that priority. */
  lemma DispatchesTheBest(states: seq<State>, actions: seq<Action>, k: nat, c: nat)
    requires Runs(states, actions) && k < |states| && Enabled(states[k], Choose(c)) && states[k].cpus[c].best.Some?
    ensures var s, u := states[k], states[k].cpus[c];
            var b := u.best.value;
            && Best(u.seen, b) && b < |s.procs| && s.procs[b].state.Runnable? && s.procs[b].priority == u.seen[b]
            && Do(s, Choose(c)).cpus[c] == Hand(b)
  {
    RunKeeps(states, actions, k);
    CpuAt(states[k], c);
  }

  predicate Scanning(u: Cpu)
  {
    u.Scan? || u.Look?
  }

  /** Step `m` is where the scan that CPU `c` is in at time `k` looked at entry `j`, its lock held. */
  ghost predicate LookedAt(states: seq<State>, actions: seq<Action>, k: nat, c: nat, j: nat, m: nat)
    requires Runs(states, actions) && k < |states|
  {
    && m < k && actions[m] == Consider(c) && Enabled(states[m], actions[m]) && states[m].cpus[c].i == j < |states[m].procs|
    && Locked(states[m], j, c)
    && forall l :: m < l <= k ==> c < |states[l].cpus| && Scanning(states[l].cpus[c]) && states[l].cpus[c].i > j
  }

  /** What the scan remembers of entry `j` is what was there when it looked. */
  ghost predicate Remembers(seen: map<nat, int>, j: nat, q: Proc)
  {
    (j in seen <==> q.state.Runnable?) && (j in seen ==> seen[j] == q.priority)
  }

  /** What one step does to what a scan remembers. */
  lemma SeenStep(s: State, a: Action, c: nat)
    requires Inv(s) && Enabled(s, a) && c < |s.cpus|
    ensures |Do(s, a).cpus| == |s.cpus|
    ensures var u, u' := s.cpus[c], Do(s, a).cpus[c];
            Scanning(u') && u'.i > 0 ==>
              && Scanning(u)
              && (if a == Consider(c)
                  then u.i + 1 == u'.i && u.i < |s.procs| && Locked(s, u.i, c) && Remembers(u'.seen, u.i, s.procs[u.i])
                       && (forall j :: j != u.i ==> (j in u'.seen <==> j in u.seen))
                       && (forall j :: j != u.i && j in u.seen ==> u'.seen[j] == u.seen[j])
                  else u'.i == u.i && u'.seen == u.seen)
  {
    hide Inv, Best;
    CpuAt(s, c);
  }

  /** Every scan looks at every entry it has passed, and remembers it as it was then. */
  lemma {:induction false} Seen(states: seq<State>, actions: seq<Action>, k: nat, c: nat, j: nat) returns (m: nat)
    requires Runs(states, actions) && k < |states| && c < |states[0].cpus|
    requires c < |states[k].cpus| && Scanning(states[k].cpus[c]) && j < states[k].cpus[c].i
    ensures LookedAt(states, actions, k, c, j, m) && j < |states[m].procs|
    ensures Remembers(states[k].cpus[c].seen, j, states[m].procs[j])
  {
    hide Do, Enabled, Inv, Remembers;
    if k == 0 {
      assert false;
    } else {
      RunKeeps(states, actions, k - 1);
      assert states[k - 1 + 1] == Do(states[k - 1], actions[k - 1]) && Enabled(states[k - 1], actions[k - 1]);
      SameSize(states[k - 1], actions[k - 1]);
      SeenStep(states[k - 1], actions[k - 1], c);
      if actions[k - 1] == Consider(c) && j == states[k - 1].cpus[c].i {
        m := k - 1;
      } else {
        m := Seen(states, actions, k - 1, c, j);
        RemembersStill(states[k - 1].cpus[c].seen, states[k].cpus[c].seen, j, states[m].procs[j]);
      }
    }
  }

  lemma RemembersStill(seen: map<nat, int>, seen': map<nat, int>, j: nat, q: Proc)
    requires Remembers(seen, j, q) && (j in seen' <==> j in seen) && (j in seen ==> seen'[j] == seen[j])
    ensures Remembers(seen', j, q)
  {
  }

  /** The chosen process against any entry of the table: its scan looked at that entry with the entry's lock held, and if
      it was runnable then, it had a lower priority than the chosen one, or the same and no lower index. */
  lemma BeatsWhatItSaw(states: seq<State>, actions: seq<Action>, k: nat, c: nat, j: nat) returns (m: nat)
    requires Runs(states, actions) && k < |states| && c < |states[0].cpus| && Enabled(states[k], Choose(c)) && j < |states[k].procs|
    ensures LookedAt(states, actions, k, c, j, m) && j < |states[m].procs|
    ensures match states[k].cpus[c].best
            case None => !states[m].procs[j].state.Runnable?
            case Some(b) =>
              && b < |states[k].procs| && states[k].procs[b].state.Runnable?
              && var x := states[k].procs[b].priority;
                 states[m].procs[j].state.Runnable? ==>
                   states[m].procs[j].priority < x || (states[m].procs[j].priority == x && j >= b)
  {
    hide Do, Inv;
    RunKeeps(states, actions, k);
    CpuAt(states[k], c);
    m := Seen(states, actions, k, c, j);
  }

  /** No process runs on two CPUs at once, in any state of any run. */
  lemma NeverOnTwoCpus(states: seq<State>, actions: seq<Action>, k: nat, c: nat, d: nat, p: nat)
    requires Runs(states, actions) && k < |states| && c < |states[k].cpus| && d < |states[k].cpus|
    requires RunsIt(states[k].cpus[c], p) && RunsIt(states[k].cpus[d], p)
    ensures c == d && p < |states[k].procs| && states[k].procs[p].state.Running?
  {
    RunKeeps(states, actions, k);
    CpuAt(states[k], c);
    PairAt(states[k], c, d);
  }

  // ------------------------------------------------------------------ deadlock

  /** The CPU is waiting for the lock of entry `i`. */
  predicate WaitsFor(s: State, c: nat, i: nat)
  {
    c < |s.cpus| && s.cpus[c].Scan? && s.cpus[c].i == i < |s.procs| && s.procs[i].lock.Some?
  }

  /** A scan holds at most two locks, and asks for them in increasing order: whatever it holds lies below what it waits
      for. */
  lemma HeldLieBelow(s: State, c: nat, i: nat, p: nat)
    requires Inv(s) && WaitsFor(s, c, i) && p < |s.procs| && s.procs[p].lock == Some(c)
    ensures p < i && s.cpus[c].best == Some(p)
  {
    CpuAt(s, c);
    ProcAt(s, p);
  }

  lemma AtMostTwo(s: State, c: nat, p: nat, q: nat, r: nat)
    requires Inv(s) && c < |s.cpus| && p < q < r < |s.procs|
    ensures !(s.procs[p].lock == Some(c) && s.procs[q].lock == Some(c) && s.procs[r].lock == Some(c))
  {
    ProcAt(s, p);
    ProcAt(s, q);
    ProcAt(s, r);
  }

  /** Waiting climbs the table: if one scan waits for a lock that another holds, the other waits, if at all, further up. */
  lemma WaitsClimb(s: State, c: nat, i: nat, d: nat, j: nat)
    requires Inv(s) && WaitsFor(s, c, i) && s.procs[i].lock == Some(d) && WaitsFor(s, d, j)
    ensures i < j
  {
    ProcAt(s, i);
    HeldLieBelow(s, d, j, i);
  }

  /** The entry whose lock a CPU needs next: the one its scan has come to, or that of the process it runs, to stop it. */
  function Wanted(s: State, c: nat): Option<nat>
    requires c < |s.cpus|
  {
    match s.cpus[c]
    case Scan(i, _, _) => if i < |s.procs| then Some(i) else None
    case Run(p) => if p < |s.procs| then Some(p) else None
    case Look(_, _, _) => None
    case Hand(_) => None
    case Back(_) => None
  }

  /** CPU `c` cannot go on because CPU `d` holds the lock it needs. */
  predicate BlockedBy(s: State, c: nat, d: nat)
  {
    c < |s.cpus| && Wanted(s, c).Some? && Wanted(s, c).value < |s.procs| && s.procs[Wanted(s, c).value].lock == Some(d)
  }

  /** Who blocks a CPU that runs a process is not blocked itself; who blocks a scan waits, if at all, further up. */
  lemma BlockedClimb(s: State, c: nat, d: nat, e: nat)
    requires Inv(s) && BlockedBy(s, c, d) && BlockedBy(s, d, e)
    ensures Wanted(s, c).value < Wanted(s, d).value
  {
    var w := Wanted(s, c).value;
    CpuAt(s, c);
    ProcAt(s, w);
    CpuAt(s, d);
  }

  /** Each CPU of the chain is blocked by the next. */
  ghost predicate Chain(s: State, chain: seq<nat>)
  {
    forall k :: 0 <= k < |chain| - 1 ==> BlockedBy(s, chain[k], chain[k + 1])
  }

  /** No deadlock: from any CPU, following whoever holds the lock that each one needs leads to a CPU that can take a step
      of its own. */
  lemma {:induction false} NeverDeadlocked(s: State, c: nat) returns (chain: seq<nat>, a: Action)
    requires Inv(s) && c < |s.cpus|
    ensures |chain| > 0 && chain[0] == c && Chain(s, chain)
    ensures Enabled(s, a) && !a.Touch? && a.c == chain[|chain| - 1]
    decreases if s.cpus[c].Run? then 1 else 0, if s.cpus[c].Scan? then |s.procs| - s.cpus[c].i else 0
  {
    CpuAt(s, c);
    if exists d: nat :: BlockedBy(s, c, d) {
      var d: nat :| BlockedBy(s, c, d);
      ProcAt(s, Wanted(s, c).value);
      CpuAt(s, d);
      if s.cpus[c].Run? { PairAt(s, c, d); }
      if s.cpus[c].Scan? && s.cpus[d].Scan? && s.cpus[d].i < |s.procs| { HeldBelow(s, d, s.cpus[c].i); }
      var rest;
      rest, a := NeverDeadlocked(s, d);
      chain := [c] + rest;
      assert chain[1..] == rest;
      assert forall k :: 1 <= k < |chain| - 1 ==> BlockedBy(s, rest[k - 1], rest[k]);
    } else {
      chain := [c];
      a := OwnStep(s, c);
    }
  }

  lemma HeldBelow(s: State, d: nat, i: nat)
    requires Inv(s) && d < |s.cpus| && s.cpus[d].Scan? && i < |s.procs| && s.procs[i].lock == Some(d)
    ensures i < s.cpus[d].i
  {
    CpuAt(s, d);
    ProcAt(s, i);
  }

  /** A CPU that nobody blocks can take a step. */
  lemma OwnStep(s: State, c: nat) returns (a: Action)
    requires Inv(s) && c < |s.cpus| && forall d: nat :: !BlockedBy(s, c, d)
    ensures Enabled(s, a) && !a.Touch? && a.c == c
  {
    CpuAt(s, c);
    match s.cpus[c]
    case Look(_, _, _) => a := Consider(c);
    case Hand(_) => a := Start(c);
    case Back(_) => a := Finish(c);
    case Run(p) =>
      assert s.procs[p].lock.Some? ==> BlockedBy(s, c, s.procs[p].lock.value);
      a := Stop(c, Runnable);
    case Scan(i, _, _) =>
      if i >= |s.procs| {
        a := Choose(c);
      } else {
        assert s.procs[i].lock.Some? ==> BlockedBy(s, c, s.procs[i].lock.value);
        a := Acquire(c);
      }
  }

  lemma {:induction false} ChainClimbs(s: State, chain: seq<nat>, k: nat)
    requires Inv(s) && Chain(s, chain) && k < |chain| - 1
    ensures BlockedBy(s, chain[0], chain[1]) && BlockedBy(s, chain[k], chain[k + 1])
    ensures Wanted(s, chain[0]).value + k <= Wanted(s, chain[k]).value
  {
    hide Inv, BlockedBy;
    assert BlockedBy(s, chain[k], chain[k + 1]) && BlockedBy(s, chain[0], chain[0 + 1]);
    if k > 0 {
      ChainClimbs(s, chain, k - 1);
      BlockedClimb(s, chain[k - 1], chain[k], chain[k + 1]);
    }
  }

  /** No CPUs wait for each other in a circle. */
  lemma NoCycle(s: State, ring: seq<nat>)
    requires Inv(s) && |ring| > 0 && Chain(s, ring)
    ensures !BlockedBy(s, ring[|ring| - 1], ring[0])
  {
    var n := |ring|;
    if BlockedBy(s, ring[n - 1], ring[0]) {
      var twice := ring + [ring[0]] + (if n > 1 then [ring[1]] else [ring[0]]);
      forall k | 0 <= k < |twice| - 1 ensures BlockedBy(s, twice[k], twice[k + 1]) {
        if k < n - 1 { assert BlockedBy(s, ring[k], ring[k + 1]); }
        if k == n && n > 1 { assert BlockedBy(s, ring[0], ring[0 + 1]); }
      }
      ChainClimbs(s, twice, n);
      assert false;
    }
  }
}
