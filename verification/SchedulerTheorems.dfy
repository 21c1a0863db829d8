/** What every step of the process machine keeps, and therefore holds in every reachable state. */
module SchedulerTheorems {
  import opened Processes
  import opened SchedulerSpec
  import opened SchedulerRuns
  import opened SchedulerInvariants

  /** A process as `Process::new` and `Process::fork` build it. */
  ghost predicate IsNew(p: Process) {
    p.state.Ready? && p.children == [] && p.stats.childrenCount == 0 && p.parentId != p.id
  }

  ghost predicate Legal(s: Sched, step: Step) {
    Fresh(s, step) && (step.Do? && step.op.AddOp? ==> IsNew(step.op.p))
  }

  /** From `s` to `t`: what every legal step keeps. */
  ghost predicate Keeps(s: Sched, t: Sched) {
    && (NoLostWakeup(s.procs) ==> NoLostWakeup(t.procs))
    && (SingleRunner(s.procs) ==> SingleRunner(t.procs))
    && (ChildCounts(s.procs) ==> ChildCounts(t.procs))
    && (NoSelfParent(s.procs) ==> NoSelfParent(t.procs))
  }

  lemma AddKeeps(s: Sched, p: Process)
    requires Wf(s) && Legal(s, Do(AddOp(p)))
    ensures Keeps(s, AddProcess(s, p))
  {
    if NoLostWakeup(s.procs) { AddKeepsWakeups(s.procs, p); }
  }

  lemma RegisterKeeps(s: Sched, parent: nat, child: nat)
    requires Wf(s)
    ensures Keeps(s, RegisterChild(s, parent, child).0)
  {
    var (t, outcome) := RegisterChild(s, parent, child);
    if outcome.Done? {
      RegisterHarmless(s.procs, parent, child);
      ComesFromKeepsRest(t.procs, s.procs);
      if SingleRunner(s.procs) { EachKeepsRunner(s.procs, ChildAdded(parent, child)); }
      if NoLostWakeup(s.procs) { ComesFromKeepsWakeups(t.procs, s.procs); }
    }
  }

  lemma ExitKeepsProcs(s: Sched, pid: nat, code: int)
    requires Wf(s)
    ensures var qs, ps := AfterExitOf(s, pid, code).procs, s.procs;
            && (SingleRunner(ps) ==> SingleRunner(qs))
            && (ChildCounts(ps) ==> ChildCounts(qs))
            && (NoSelfParent(ps) ==> NoSelfParent(qs))
  {
    hide AfterExitOf;
    ExitFields(s, pid, code);
    forall i | 0 <= i < |s.procs| ensures s.procs[i].id != 0 { assert Ids(s.procs)[i] == s.procs[i].id; }
  }

  lemma ExitKeeps(s: Sched, pid: nat, code: int)
    requires Wf(s)
    ensures Keeps(s, HandleExit(s, pid, code).0)
  {
    hide NoLostWakeup, SingleRunner, ChildCounts, NoSelfParent;
    ExitKeepsProcs(s, pid, code);
    if NoLostWakeup(s.procs) { ExitKeepsWakeups(s, pid, code); }
  }

  lemma ReapKeeps(s: Sched, parent: nat, child: nat)
    requires Wf(s)
    ensures Keeps(s, ReapZombieChild(s, parent, child).0)
  {
    var (t, outcome) := ReapZombieChild(s, parent, child);
    var k := IndexOf(s.procs, child);
    if outcome.Reaped? {
      ReapHarmless(s.procs, k, parent, child);
      ComesFromKeepsRest(t.procs, s.procs);
      if NoLostWakeup(s.procs) { ComesFromKeepsWakeups(t.procs, s.procs); }
      if SingleRunner(s.procs) {
        WithoutKeepsRunner(s.procs, k);
        EachKeepsRunner(Without(s.procs, k), ChildRemoved(parent, child));
      }
    }
  }

  lemma CleanupKeeps(s: Sched, pid: nat)
    requires Wf(s)
    ensures Keeps(s, CleanupTerminated(s, pid).0)
  {
    var (t, outcome) := CleanupTerminated(s, pid);
    var k := IndexOf(s.procs, pid);
    if outcome.Done? {
      WithoutHarmless(s.procs, k);
      ComesFromKeepsRest(t.procs, s.procs);
      if NoLostWakeup(s.procs) { ComesFromKeepsWakeups(t.procs, s.procs); }
      if SingleRunner(s.procs) { WithoutKeepsRunner(s.procs, k); }
    }
  }

  lemma ScheduleKeeps(s: Sched, context: nat)
    requires Wf(s)
    ensures Keeps(s, Schedule(s, context).0)
  {
    var t := Schedule(s, context).0;
    ScheduleHarmless(s, context);
    ComesFromKeepsRest(t.procs, s.procs);
    if NoLostWakeup(s.procs) { ComesFromKeepsWakeups(t.procs, s.procs); }
    if SingleRunner(s.procs) { ScheduleKeepsRunner(s, context); }
  }

  lemma BlockKeeps(s: Sched, target: nat)
    requires Wf(s) && FrontIsCurrent(s) && WaitChoice(s.procs, s.current, target) == 0
    ensures Keeps(s, Block(s, target).0)
  {
    var ps := s.procs;
    var rs := ps[0 := ps[0].(state := Waiting(Child(target)))];
    WaitChoiceIsComplete(ps, s.current, target);
    if NoLostWakeup(ps) { BlockKeepsWakeups(s, target); }
    if SingleRunner(ps) { BlockKeepsRunner(s, target); }
    PickHarmless(Rotate(rs), rs);
    ComesFromKeepsRest(Rotate(rs), rs);
  }

  lemma Wait4Keeps(s: Sched, target: nat, statusPtr: nat, options: nat)
    requires Wf(s)
    ensures Keeps(s, Wait4(s, target, statusPtr, options).0)
  {
    hide NoLostWakeup, SingleRunner, ChildCounts, NoSelfParent;
    if ValidWait(target, statusPtr, options) {
      var child := WaitChoice(s.procs, s.current, target);
      if child != 0 {
        ReapKeeps(s, s.current, child);
      } else if FrontIsCurrent(s) {
        BlockKeeps(s, target);
      }
    }
  }

  lemma ForkKeeps(s: Sched)
    requires Wf(s)
    ensures Keeps(s, Fork(s).0)
  {
    hide NoLostWakeup, SingleRunner, ChildCounts, NoSelfParent;
    if CanFork(s) { RegisterKeeps(AllocatePid(s).0, s.current, s.nextPid); }
  }

  lemma ExitCallKeeps(s: Sched, arg: nat)
    requires Wf(s)
    ensures Keeps(s, Exit(s, arg).0)
  {
    hide NoLostWakeup, SingleRunner, ChildCounts, NoSelfParent;
    ExitKeeps(s, s.current, AsI32(arg));
  }

  lemma YieldKeeps(s: Sched)
    requires Wf(s)
    ensures Keeps(s, Yield(s).0)
  {
    var t := Yield(s).0;
    YieldHarmless(s);
    ComesFromKeepsRest(t.procs, s.procs);
    if NoLostWakeup(s.procs) { ComesFromKeepsWakeups(t.procs, s.procs); }
  }

  lemma KillKeeps(s: Sched, pid: nat)
    requires Wf(s)
    ensures Keeps(s, Kill(s, pid))
  {
    hide NoLostWakeup;
    EachAt(s.procs, Killed(pid));
    if NoLostWakeup(s.procs) { KillKeepsWakeups(s.procs, pid); }
  }

  // ----- every step

  /** What a legal step does to the pids and to the four invariants that need no further condition. */
  ghost predicate StepOk(s: Sched, step: Step) {
    var (t, outcome) := Apply(s, step);
    Conserved(s, t, Entered(step), Gone(step, outcome)) && Keeps(s, t)
  }

  lemma AllocateOk(s: Sched)
    requires Wf(s)
    ensures StepOk(s, Do(AllocateOp))
  {
  }

  lemma OpOk(s: Sched, op: Op)
    requires Wf(s) && Legal(s, Do(op))
    ensures StepOk(s, Do(op))
  {
    hide Conserved, Keeps, AfterExitOf, Each, Ids, Without, RemoveFirst, Wf;
    match op
    case AllocateOp => AllocateOk(s);
    case AddOp(p) => AddIds(s, p); AddKeeps(s, p);
    case RegisterOp(parent, child) => RegisterIds(s, parent, child); RegisterKeeps(s, parent, child);
    case ExitOp(pid, code) => ExitIds(s, pid, code); ExitKeeps(s, pid, code);
    case ReapOp(parent, child) => ReapIds(s, parent, child); ReapKeeps(s, parent, child);
    case CleanupOp(pid) => CleanupIds(s, pid); CleanupKeeps(s, pid);
    case ScheduleOp(context) => ScheduleIds(s, context); ScheduleKeeps(s, context);
  }

  lemma EntryOk(s: Sched, entry: Entry)
    requires Wf(s)
    ensures StepOk(s, Enter(entry))
  {
    hide Conserved, Keeps, AfterExitOf, Each, Ids, Without, RemoveFirst, Rotate, Wf;
    match entry
    case ForkCall => ForkIds(s); ForkKeeps(s);
    case Wait4Call(target, statusPtr, options) =>
      Wait4Ids(s, target, statusPtr, options);
      Wait4Keeps(s, target, statusPtr, options);
    case YieldCall => YieldIds(s); YieldKeeps(s);
    case ExitCall(arg) => ExitCallIds(s, arg); ExitCallKeeps(s, arg);
    case TimerKill(pid) => KillIds(s, pid); KillKeeps(s, pid);
  }

  /** Every step of the machine keeps pids distinct and accounted for, loses no wake-up, and keeps a
      single runner, exact child counts and nobody its own parent. */
  lemma EveryStepOk(s: Sched, step: Step)
    requires Wf(s) && Legal(s, step)
    ensures StepOk(s, step)
  {
    match step
    case Do(op) => OpOk(s, op);
    case Enter(entry) => EntryOk(s, entry);
  }

  // ----- runs

  ghost predicate LegalRun(s: Sched, steps: seq<Step>)
    decreases |steps|
  {
    steps == [] || (Legal(s, steps[0]) && LegalRun(Apply(s, steps[0]).0, steps[1..]))
  }

  function EnteredAll(steps: seq<Step>): multiset<nat> {
    if steps == [] then multiset{} else Entered(steps[0]) + EnteredAll(steps[1..])
  }

  function GoneAll(s: Sched, steps: seq<Step>): multiset<nat>
    decreases |steps|
  {
    if steps == [] then multiset{}
    else
      var (t, outcome) := Apply(s, steps[0]);
      Gone(steps[0], outcome) + GoneAll(t, steps[1..])
  }

  lemma Balance(a: multiset<nat>, b: multiset<nat>, c: multiset<nat>,
                enteredFirst: multiset<nat>, enteredRest: multiset<nat>, goneFirst: multiset<nat>,
                goneRest: multiset<nat>)
    requires b + goneFirst == a + enteredFirst
    requires c + goneRest == b + enteredRest
    ensures c + (goneFirst + goneRest) == a + (enteredFirst + enteredRest)
  {
    forall x ensures (c + (goneFirst + goneRest))[x] == (a + (enteredFirst + enteredRest))[x] {
      assert (b + goneFirst)[x] == (a + enteredFirst)[x];
      assert (c + goneRest)[x] == (b + enteredRest)[x];
    }
  }

  /** Conservation: over any run the pids listed at the end and the pids that left are, counted with
      multiplicity, the pids listed at the start and the pids added. */
  lemma {:induction false} Conservation(s: Sched, steps: seq<Step>)
    requires Wf(s) && LegalRun(s, steps)
    ensures Conserved(s, Run(s, steps), EnteredAll(steps), GoneAll(s, steps))
    decreases |steps|
  {
    if steps != [] {
      var (t, outcome) := Apply(s, steps[0]);
      EveryStepOk(s, steps[0]);
      Conservation(t, steps[1..]);
      Balance(Pids(s), Pids(t), Pids(Run(t, steps[1..])), Entered(steps[0]), EnteredAll(steps[1..]),
              Gone(steps[0], outcome), GoneAll(t, steps[1..]));
    }
  }

  /** Holds initially and after every legal step. */
  ghost predicate Safe(s: Sched) {
    && Wf(s)
    && NoLostWakeup(s.procs)
    && SingleRunner(s.procs)
    && ChildCounts(s.procs)
    && NoSelfParent(s.procs)
  }

  lemma {:induction false} RunsAreSafe(s: Sched, steps: seq<Step>)
    requires Safe(s) && LegalRun(s, steps)
    ensures Safe(Run(s, steps))
    decreases |steps|
  {
    if steps != [] {
      EveryStepOk(s, steps[0]);
      RunsAreSafe(Apply(s, steps[0]).0, steps[1..]);
    }
  }

  /** In every state reachable from boot: no lost wake-up, at most one Running process and it is in
      front, child counts exact and within limits. */
  lemma ReachableStatesAreSafe(steps: seq<Step>)
    requires LegalRun(BOOT, steps)
    ensures Safe(Run(BOOT, steps))
  {
    RunsAreSafe(BOOT, steps);
  }
}
