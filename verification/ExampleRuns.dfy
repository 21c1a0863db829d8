/** Runs from boot: one that keeps every invariant while a family grows, and those in which an invariant
    or an expectation fails. */
module ExampleRuns {
  import opened Processes
  import opened SchedulerSpec
  import opened ProcessTree
  import opened SchedulerRuns
  import opened SchedulerInvariants
  import opened SchedulerTheorems
  import opened CarefulRuns

  /** A second exit syscall before the next switch keeps the records in agreement exactly when there is
      no orphan: every orphan is recorded once more. */
  lemma SecondExit(s: Sched, arg: nat, again: nat)
    requires Wf(s) && IndexAgrees(s) && s.current != 0
    requires ValidExitCode(AsI32(arg)) && ValidExitCode(AsI32(again))
    ensures var t := Exit(s, arg).0;
            IndexAgrees(t) && t.current == 0 && (IndexAgrees(Exit(t, again).0) <==> t.orphans == [])
  {
    hide IndexAgrees, AfterExitOf;
    var t := AfterExitOf(s, s.current, AsI32(arg));
    ExitAgrees(s, s.current, AsI32(arg));
    ExitIds(s, s.current, AsI32(arg));
    CurrentIsIrrelevant(t, 0);
    var u := t.(current := 0);
    ExitAgrees(u, 0, AsI32(again));
    CurrentIsIrrelevant(AfterExitOf(u, 0, AsI32(again)), 0);
    ZeroIsUnlisted(u);
  }

  lemma CurrentIsIrrelevant(s: Sched, pid: nat)
    ensures IndexAgrees(s) <==> IndexAgrees(s.(current := pid))
  {
  }

  lemma ZeroIsUnlisted(s: Sched)
    ensures ParentOf(s.procs, 0) == 0 || Listed(s.procs, 0)
  {
    var k := IndexOf(s.procs, 0);
    if k < |s.procs| { assert Ids(s.procs)[k] == 0; }
  }

  /** A process as the boot code adds it. */
  function NewProcess(pid: nat): Process {
    Process(pid, 0, 0, Ready, 0, [], 0, 10, Limits(0x400_0000, 30000, 32, 16), Stats(0, 0, 0, 0))
  }

  function OneRunning(pid: nat): Sched {
    Sched([NewProcess(pid).(state := Running)], map[pid := 0], [pid], pid, 10, 1)
  }

  lemma BootOne(pid: nat)
    requires pid != 0
    ensures Schedule(AddProcess(BOOT, NewProcess(pid)), 0).0 == OneRunning(pid)
    ensures Wf(OneRunning(pid)) && IndexAgrees(OneRunning(pid))
  {
  }

  /** Such a state is reachable: one process boots, runs and exits, and the exit syscall comes again,
      which records the process as an orphan twice. */
  lemma DoubleExitIsReachable()
    ensures var steps := [Do(AddOp(NewProcess(1))), Do(ScheduleOp(0)), Enter(ExitCall(0)), Enter(ExitCall(0))];
            && LegalRun(BOOT, steps) && !IndexAgrees(Run(BOOT, steps))
            && multiset(Run(BOOT, steps).orphans)[1] == 2
  {
    hide IndexAgrees, Exit, Schedule, AddProcess;
    var steps := [Do(AddOp(NewProcess(1))), Do(ScheduleOp(0)), Enter(ExitCall(0)), Enter(ExitCall(0))];
    BootOne(1);
    SecondExit(OneRunning(1), 0, 0);
    OrphanStays(OneRunning(1), 0);
    OrphanTwice();
    assert steps[1..] == [Do(ScheduleOp(0)), Enter(ExitCall(0)), Enter(ExitCall(0))];
    assert steps[1..][1..] == [Enter(ExitCall(0)), Enter(ExitCall(0))];
    assert steps[1..][1..][1..] == [Enter(ExitCall(0))];
  }

  lemma OrphanStays(s: Sched, arg: nat)
    requires s.orphans != []
    ensures Exit(s, arg).0.orphans != []
  {
  }

  lemma OrphanTwice()
    ensures multiset(Exit(Exit(OneRunning(1), 0).0, 0).0.orphans)[1] == 2
  {
    hide IndexAgrees, AfterExitOf;
    BootOne(1);
    SecondExit(OneRunning(1), 0, 0);
    ZombieAfterExit();
    var s, t := OneRunning(1), Exit(OneRunning(1), 0).0;
    ExitOrphans(s, 1, 0, 1);
    assert multiset(s.orphans)[1] == 1 && !Lists(s.procs, 1, 1);
    ExitOrphans(t, 0, 0, 1);
    assert t.procs[0].id == 1 && t.procs[0].parentId == 0;
    assert Lists(t.procs, 1, 0);
  }

  function OneZombie(pid: nat): Process {
    NewProcess(pid).(state := Zombie)
  }

  /** wait4 with current pid 0 reaps an orphaned zombie, which stays in the orphan list. */
  lemma ZeroReapsOrphan()
    ensures var steps := [Do(AddOp(NewProcess(1))), Do(ScheduleOp(0)), Enter(ExitCall(0)),
                         Enter(Wait4Call(ANY_CHILD, 0, 0))];
            && LegalRun(BOOT, steps) && !IndexAgrees(Run(BOOT, steps))
            && Run(BOOT, steps).procs == [] && 1 in Run(BOOT, steps).orphans
  {
    hide IndexAgrees, Exit, Schedule, AddProcess, Wait4;
    var steps := [Do(AddOp(NewProcess(1))), Do(ScheduleOp(0)), Enter(ExitCall(0)), Enter(Wait4Call(ANY_CHILD, 0, 0))];
    BootOne(1);
    SecondExit(OneRunning(1), 0, 0);
    ZombieAfterExit();
    ReapByZero(Exit(OneRunning(1), 0).0);
    var s1, s2, t := AddProcess(BOOT, NewProcess(1)), OneRunning(1), Exit(OneRunning(1), 0).0;
    var last := [Enter(Wait4Call(ANY_CHILD, 0, 0))];
    assert Run(t, last) == Wait4(t, ANY_CHILD, 0, 0).0 && LegalRun(t, last);
    var two := [Enter(ExitCall(0)), Enter(Wait4Call(ANY_CHILD, 0, 0))];
    assert two[1..] == last;
    assert Run(s2, two) == Run(t, last) && LegalRun(s2, two);
    var three := [Do(ScheduleOp(0)), Enter(ExitCall(0)), Enter(Wait4Call(ANY_CHILD, 0, 0))];
    assert three[1..] == two;
    assert Run(s1, three) == Run(s2, two) && LegalRun(s1, three);
    assert steps[1..] == three;
  }

  lemma ZombieAfterExit()
    ensures var t := Exit(OneRunning(1), 0).0;
            t.procs == [OneZombie(1)] && UniqueIds(t.procs) && 1 in t.orphans
  {
  }

  lemma ReapByZero(t: Sched)
    requires IndexAgrees(t) && t.current == 0 && t.procs == [OneZombie(1)] && UniqueIds(t.procs)
    ensures var u := Wait4(t, ANY_CHILD, 0, 0).0;
            !IndexAgrees(u) && u.procs == [] && u.orphans == t.orphans
  {
    assert t.procs[..0] == [];
    assert Keep(t.procs, ZombiesOf(0)) == [OneZombie(1)];
    ReapAgrees(t, 0, 1);
  }

  // ----- steps of the runs below, one at a time

  lemma Unroll(s: Sched, step: Step, rest: seq<Step>)
    ensures Run(s, [step] + rest) == Run(Apply(s, step).0, rest)
    ensures LegalRun(s, [step] + rest) <==> Legal(s, step) && LegalRun(Apply(s, step).0, rest)
    ensures forall inv :: CarefulRun(inv, s, [step] + rest) <==>
            Careful(inv, s, step) && CarefulRun(inv, Apply(s, step).0, rest)
  {
    assert ([step] + rest)[1..] == rest;
  }

  lemma Finished(s: Sched)
    ensures Run(s, []) == s && LegalRun(s, []) && forall inv :: CarefulRun(inv, s, [])
  {
  }

  // ----- a family, careful about everything

  function ChildOf(parent: nat, pid: nat): Process {
    NewProcess(pid).(parentId := parent)
  }

  /** Process 1 runs and has registered child 2; `others` are the processes behind it. */
  function Family(others: seq<Process>): Sched {
    Sched([NewProcess(1).(state := Running).AddChild(2)] + others, map[1 := 0, 2 := 1], [1], 1, 10, 3)
  }

  const ALONE: Sched := OneRunning(1).(nextPid := 2)

  lemma FamilyForks()
    ensures Fork(ALONE) == (Family([]), Forked(2))
  {
    assert ALONE.procs[1..] == [];
    assert RemoveFirst([1], 2) == [1];
  }

  lemma WalkFromParent(tree: map<nat, nat>, n: nat)
    requires 1 in tree && tree[1] == 0 && 0 !in tree
    ensures Up(tree, 1, n) <= 1
  {
    if n > 0 { assert Up(tree, 1, n) == Up(tree, 0, n - 1); }
  }

  lemma FamilyStepsAreCareful(inv: Invariant)
    ensures Careful(inv, BOOT.(nextPid := 2), Do(AddOp(NewProcess(1))))
    ensures Careful(inv, ALONE, Enter(ForkCall))
    ensures Careful(inv, Family([]), Do(AddOp(ChildOf(1, 2))))
  {
    assert Ids(Family([]).procs)[0] == 1;
    forall n ensures Up(map[], 0, n) != 1 {}
    forall n ensures Up(ALONE.tree, 1, n) != 2 { WalkFromParent(ALONE.tree, n); }
    forall n ensures Up(Family([]).tree, 1, n) != 2 { WalkFromParent(Family([]).tree, n); }
  }

  function FamilySteps(): seq<Step> {
    [Do(AllocateOp)] + ([Do(AddOp(NewProcess(1)))] +
        ([Do(ScheduleOp(0))] + ([Enter(ForkCall)] + ([Do(AddOp(ChildOf(1, 2)))] + []))))
  }

  /** A run that keeps all invariants and ends with a parent and its child, both listed. */
  lemma FamilyGrows()
    ensures LegalRun(BOOT, FamilySteps()) && forall inv :: CarefulRun(inv, BOOT, FamilySteps())
    ensures Run(BOOT, FamilySteps()) == Family([ChildOf(1, 2)])
  {
    hide Schedule, Fork, AddProcess, Careful, Legal;
    var s1, s2 := BOOT.(nextPid := 2), AddProcess(BOOT.(nextPid := 2), NewProcess(1));
    FamilyStates();
    FamilyForks();
    forall inv ensures Careful(inv, BOOT, Do(AllocateOp)) && Careful(inv, s2, Do(ScheduleOp(0))) {
      QuietIsCareful(inv, BOOT, Do(AllocateOp));
      QuietIsCareful(inv, s2, Do(ScheduleOp(0)));
    }
    forall inv { FamilyStepsAreCareful(inv); }
    var last := Family([ChildOf(1, 2)]);
    Finished(last);
    Unroll(Family([]), Do(AddOp(ChildOf(1, 2))), []);
    Unroll(ALONE, Enter(ForkCall), [Do(AddOp(ChildOf(1, 2)))] + []);
    Unroll(s2, Do(ScheduleOp(0)), [Enter(ForkCall)] + ([Do(AddOp(ChildOf(1, 2)))] + []));
    Unroll(s1, Do(AddOp(NewProcess(1))), [Do(ScheduleOp(0))] + ([Enter(ForkCall)] + ([Do(AddOp(ChildOf(1, 2)))] + [])));
    Unroll(BOOT, Do(AllocateOp),
           [Do(AddOp(NewProcess(1)))] +
               ([Do(ScheduleOp(0))] + ([Enter(ForkCall)] + ([Do(AddOp(ChildOf(1, 2)))] + []))));
  }

  lemma QuietIsCareful(inv: Invariant, s: Sched, step: Step)
    requires step == Do(AllocateOp) || (step == Do(ScheduleOp(0)) && SomeRunnable(s.procs))
    ensures Careful(inv, s, step)
  {
  }

  lemma FamilyStates()
    ensures var s := AddProcess(BOOT.(nextPid := 2), NewProcess(1));
            Schedule(s, 0).0 == ALONE && SomeRunnable(s.procs)
    ensures AddProcess(Family([]), ChildOf(1, 2)) == Family([ChildOf(1, 2)])
    ensures Legal(BOOT.(nextPid := 2), Do(AddOp(NewProcess(1)))) && Legal(Family([]), Do(AddOp(ChildOf(1, 2))))
    ensures Legal(ALONE, Enter(ForkCall)) && Legal(BOOT, Do(AllocateOp)) && forall s :: Legal(s, Do(ScheduleOp(0)))
  {
    FirstAlone();
    FamilyLegal();
    assert Family([]).procs + [ChildOf(1, 2)] == Family([ChildOf(1, 2)]).procs;
    hide Schedule;
  }

  lemma FirstAlone()
    ensures var s := AddProcess(BOOT.(nextPid := 2), NewProcess(1));
            Schedule(s, 0).0 == ALONE && SomeRunnable(s.procs)
  {
    var s := AddProcess(BOOT.(nextPid := 2), NewProcess(1));
    assert s.procs == [NewProcess(1)];
    OneIsChosen(s);
    assert s.procs[0].Runnable();
    ScheduleKeepsRecords(s, 0);
  }

  lemma FamilyLegal()
    ensures Legal(BOOT.(nextPid := 2), Do(AddOp(NewProcess(1)))) && Legal(Family([]), Do(AddOp(ChildOf(1, 2))))
    ensures Legal(ALONE, Enter(ForkCall)) && Legal(BOOT, Do(AllocateOp)) && forall s :: Legal(s, Do(ScheduleOp(0)))
  {
    assert Ids(Family([]).procs) == [1];
  }

  /** A wait4 for child 2 by name is refused, though it is a zombie child of the caller: its pid is too small. */
  lemma SmallPidIsRefused()
    ensures var steps := FamilySteps() + [Enter(TimerKill(2))];
            var s := Run(BOOT, steps);
            && LegalRun(BOOT, steps) && s.current == 1 && ZombieMatches(s.procs, 1, 2)
            && Wait4(s, 2, 0, 0) == (s, Failed)
  {
    hide LegalRun, Run;
    var steps := FamilySteps();
    var s, killed := Family([ChildOf(1, 2)]), Enter(TimerKill(2));
    FamilyGrows();
    RunAppend(BOOT, steps, killed);
    LegalAppend(BOOT, steps, killed);
    EachAt(s.procs, Killed(2));
    assert Reapable(Kill(s, 2).procs[1], 1, 2);
  }

  lemma {:induction false} LegalAppend(s: Sched, steps: seq<Step>, last: Step)
    requires LegalRun(s, steps) && Legal(Run(s, steps), last)
    ensures LegalRun(s, steps + [last])
    decreases |steps|
  {
    if steps == [] {
      Unroll(s, last, []);
      assert steps + [last] == [last] + [];
    } else {
      LegalAppend(Apply(s, steps[0]).0, steps[1..], last);
      assert (steps + [last])[1..] == steps[1..] + [last];
    }
  }

  // ----- the kernel's own boot

  /** Processes 1 and 2 as the boot code adds them, while the next pid is still 1. */
  const BOOTED: Sched := Sched([NewProcess(1), NewProcess(2)], map[1 := 0, 2 := 0], [1, 2], 0, 10, 1)
  const BOOT_STEPS: seq<Step> := [Do(AddOp(NewProcess(1))), Do(AddOp(NewProcess(2)))]

  lemma Boots()
    ensures LegalRun(BOOT, BOOT_STEPS) && Run(BOOT, BOOT_STEPS) == BOOTED
  {
    var s := AddProcess(BOOT, NewProcess(1));
    assert Ids(s.procs) == [1];
    assert AddProcess(s, NewProcess(2)) == BOOTED;
    Finished(BOOTED);
    Unroll(s, Do(AddOp(NewProcess(2))), []);
    Unroll(BOOT, Do(AddOp(NewProcess(1))), [Do(AddOp(NewProcess(2)))] + []);
    assert BOOT_STEPS == [Do(AddOp(NewProcess(1)))] + ([Do(AddOp(NewProcess(2)))] + []);
  }

  /** The booted list with process 1 running. */
  const FIRST: Sched := BOOTED.(procs := [NewProcess(1).(state := Running), NewProcess(2)], current := 1)

  lemma FirstRuns()
    ensures Schedule(BOOTED, 0).0 == FIRST
  {
    assert FirstRunnable(BOOTED.procs) == 0;
    assert Without(BOOTED.procs, 0) == [NewProcess(2)];
    assert Preempt([NewProcess(2)], 0) == [NewProcess(2)];
  }

  lemma FirstForks()
    ensures var (t, outcome) := Fork(FIRST);
            outcome == Forked(1) && t.tree == map[1 := 1, 2 := 0] && t.orphans == [2] && Lists(t.procs, 1, 0)
  {
    EachAt(FIRST.procs, ChildAdded(1, 1));
    assert Fork(FIRST).0.procs[0].id == 1;
    assert RemoveFirst([1, 2], 1) == [2];
    assert FIRST.tree[1 := 1] == map[1 := 1, 2 := 0];
  }

  /** The first fork of the booted kernel gets pid 1, which is its own: process 1 becomes its own parent in the
      tree and is no orphan any more, the records disagree, and the walk up from it never ends. */
  lemma FirstForkBreaksRecords(n: nat)
    ensures var steps := BOOT_STEPS + [Do(ScheduleOp(0))] + [Enter(ForkCall)];
            var t := Run(BOOT, steps);
            && LegalRun(BOOT, steps) && Fork(Run(BOOT, BOOT_STEPS + [Do(ScheduleOp(0))])).1 == Forked(1)
            && t.tree == map[1 := 1, 2 := 0] && t.orphans == [2] && Up(t.tree, 1, n) == 1
            && !IndexAgrees(t) && !Grounded(t.tree) && !TreeOrdered(t)
  {
    hide Schedule, Fork;
    Boots();
    FirstRuns();
    FirstForks();
    RunAppend(BOOT, BOOT_STEPS, Do(ScheduleOp(0)));
    LegalAppend(BOOT, BOOT_STEPS, Do(ScheduleOp(0)));
    RunAppend(BOOT, BOOT_STEPS + [Do(ScheduleOp(0))], Enter(ForkCall));
    LegalAppend(BOOT, BOOT_STEPS + [Do(ScheduleOp(0))], Enter(ForkCall));
    var t := Fork(FIRST).0;
    SelfLoop(t.tree, n);
    forall m: nat ensures Up(t.tree, 1, m) in t.tree { SelfLoop(t.tree, m); }
    assert !Ends(t.tree, 1);
  }

  lemma {:induction false} SelfLoop(tree: map<nat, nat>, n: nat)
    requires 1 in tree && tree[1] == 1
    ensures Up(tree, 1, n) == 1
  {
    if n > 0 { SelfLoop(tree, n - 1); }
  }

  /** register_child takes an orphan away from the orphan list but leaves its parent field at 0. */
  lemma RegisteringAnOrphanBreaksRecords()
    ensures var steps := BOOT_STEPS + [Do(RegisterOp(1, 2))];
            LegalRun(BOOT, steps) && !IndexAgrees(Run(BOOT, steps))
  {
    Boots();
    RunAppend(BOOT, BOOT_STEPS, Do(RegisterOp(1, 2)));
    LegalAppend(BOOT, BOOT_STEPS, Do(RegisterOp(1, 2)));
    var t := RegisterChild(BOOTED, 1, 2).0;
    EachAt(BOOTED.procs, ChildAdded(1, 2));
    assert t.procs[1] == NewProcess(2);
    assert Lists(t.procs, 2, 0) && t.tree[2] == 1;
  }

  /** Cleaning up the current process after the timer has killed it leaves the current pid dangling. */
  lemma CleaningCurrentLeavesPidDangling()
    ensures var steps := [Do(AddOp(NewProcess(1)))] +
                         ([Do(ScheduleOp(0))] + ([Enter(TimerKill(1))] + ([Do(CleanupOp(1))] + [])));
            var t := Run(BOOT, steps);
            LegalRun(BOOT, steps) && t.current == 1 && t.procs == [] && !CurrentInFront(t)
  {
    hide Schedule, AddProcess, CleanupTerminated;
    BootOne(1);
    var s := OneRunning(1);
    var killed := Kill(s, 1);
    assert s.procs[1..] == [];
    assert killed.procs == [s.procs[0].Exit(TIMEOUT_EXIT_CODE)];
    CleanedOut(killed);
    Finished(CleanupTerminated(killed, 1).0);
    Unroll(killed, Do(CleanupOp(1)), []);
    Unroll(s, Enter(TimerKill(1)), [Do(CleanupOp(1))] + []);
    Unroll(AddProcess(BOOT, NewProcess(1)), Do(ScheduleOp(0)), [Enter(TimerKill(1))] + ([Do(CleanupOp(1))] + []));
    Unroll(BOOT, Do(AddOp(NewProcess(1))), [Do(ScheduleOp(0))] + ([Enter(TimerKill(1))] + ([Do(CleanupOp(1))] + [])));
  }

  lemma CleanedOut(s: Sched)
    requires |s.procs| == 1 && s.procs[0].id == 1 && s.procs[0].state.Zombie?
    ensures CleanupTerminated(s, 1).0.procs == [] && CleanupTerminated(s, 1).0.current == s.current
  {
  }

  /** A process with a worse priority, which is a larger number, runs first because it is first in the list. */
  lemma WorsePriorityRunsFirst()
    ensures var steps := [Do(AddOp(NewProcess(1).(priority := 20)))] +
                         ([Do(AddOp(NewProcess(2).(priority := 5)))] + ([Do(ScheduleOp(0))] + []));
            var t := Run(BOOT, steps);
            && LegalRun(BOOT, steps) && |t.procs| == 2 && t.current == 1 && t.currentPriority == 20
            && t.procs[1].priority == 5 && t.procs[1].state.Ready?
  {
    hide Schedule;
    var p, q := NewProcess(1).(priority := 20), NewProcess(2).(priority := 5);
    var s1 := AddProcess(BOOT, p);
    var s2 := AddProcess(s1, q);
    assert Ids(s1.procs) == [1];
    assert s2.procs == [p, q];
    FirstOfTwo(s2);
    Finished(Schedule(s2, 0).0);
    Unroll(s2, Do(ScheduleOp(0)), []);
    Unroll(s1, Do(AddOp(q)), [Do(ScheduleOp(0))] + []);
    Unroll(BOOT, Do(AddOp(p)), [Do(AddOp(q))] + ([Do(ScheduleOp(0))] + []));
  }

  lemma FirstOfTwo(s: Sched)
    requires |s.procs| == 2 && s.procs[0].state.Ready? && s.procs[1].state.Ready?
    ensures var t := Schedule(s, 0).0;
            && |t.procs| == 2 && t.current == s.procs[0].id && t.currentPriority == s.procs[0].priority
            && t.procs[1].priority == s.procs[1].priority && t.procs[1].state.Ready?
  {
    assert FirstRunnable(s.procs) == 0;
    assert Without(s.procs, 0) == [s.procs[1]];
  }

  // ----- zombies that come back, children that are stranded, waits that do not wait

  /** A process killed at its deadline goes on running: its next yield makes it ready again, with the code of
      its death, and the next switch runs it. */
  lemma KilledProcessRunsOn()
    ensures var steps := [Do(AddOp(NewProcess(1)))] + ([Do(ScheduleOp(0))] + ([Enter(TimerKill(1))] +
                         ([Enter(YieldCall)] + ([Do(ScheduleOp(0))] + []))));
            var t := Run(BOOT, steps);
            && LegalRun(BOOT, steps) && t.current == 1 && |t.procs| == 1
            && t.procs[0].state.Running? && t.procs[0].exitCode == TIMEOUT_EXIT_CODE
  {
    hide Schedule, AddProcess;
    BootOne(1);
    var s := OneRunning(1);
    var killed := Kill(s, 1);
    var revived := Yield(killed).0;
    assert s.procs[1..] == [];
    assert killed.procs == [s.procs[0].Exit(TIMEOUT_EXIT_CODE)];
    OneIsChosen(revived);
    Finished(Schedule(revived, 0).0);
    Unroll(revived, Do(ScheduleOp(0)), []);
    Unroll(killed, Enter(YieldCall), [Do(ScheduleOp(0))] + []);
    Unroll(s, Enter(TimerKill(1)), [Enter(YieldCall)] + ([Do(ScheduleOp(0))] + []));
    Unroll(AddProcess(BOOT, NewProcess(1)), Do(ScheduleOp(0)),
           [Enter(TimerKill(1))] + ([Enter(YieldCall)] + ([Do(ScheduleOp(0))] + [])));
    Unroll(BOOT, Do(AddOp(NewProcess(1))),
           [Do(ScheduleOp(0))] + ([Enter(TimerKill(1))] + ([Enter(YieldCall)] + ([Do(ScheduleOp(0))] + []))));
  }

  lemma OneIsChosen(s: Sched)
    requires |s.procs| == 1 && s.procs[0].state.Ready?
    ensures var t := Schedule(s, 0).0;
            t.procs == [s.procs[0].(state := Running)] && t.current == s.procs[0].id
  {
    assert FirstRunnable(s.procs) == 0;
    assert Without(s.procs, 0) == [];
  }

  /** A timer kill leaves the victim's children with it, and its clean-up strands them: child 2 is listed under
      parent 1, who is not. */
  lemma CleaningKilledParentStrandsChild()
    ensures var steps := FamilySteps() + [Enter(TimerKill(1))] + [Do(CleanupOp(1))];
            var t := Run(BOOT, steps);
            && LegalRun(BOOT, steps) && Lists(t.procs, 2, 1) && !Listed(t.procs, 1)
            && !ParentsListed(t.procs)
  {
    hide LegalRun, Run;
    var s := Family([ChildOf(1, 2)]);
    var killed := Kill(s, 1);
    FamilyGrows();
    RunAppend(BOOT, FamilySteps(), Enter(TimerKill(1)));
    LegalAppend(BOOT, FamilySteps(), Enter(TimerKill(1)));
    RunAppend(BOOT, FamilySteps() + [Enter(TimerKill(1))], Do(CleanupOp(1)));
    LegalAppend(BOOT, FamilySteps() + [Enter(TimerKill(1))], Do(CleanupOp(1)));
    KillFields(s, 1);
    assert killed.procs[0].id == 1 && killed.procs[0].state.Zombie?;
    var qs := CleanupTerminated(killed, 1).0.procs;
    assert qs == [killed.procs[1]];
    assert qs[0].id == 2 && qs[0].parentId == 1;
    assert Ids(qs) == [2];
  }

  /** A process alone in the list that blocks in wait4 is current all the same. */
  lemma LoneWaiterStaysCurrent()
    ensures var steps := [Do(AddOp(NewProcess(1)))] +
                         ([Do(ScheduleOp(0))] + ([Enter(Wait4Call(ANY_CHILD, 0, 0))] + []));
            var t := Run(BOOT, steps);
            && LegalRun(BOOT, steps) && FrontIsCurrent(t) && t.current == 1
            && t.procs[0].state == Waiting(Child(ANY_CHILD)) && !CurrentRuns(t)
  {
    hide Schedule, AddProcess, Wait4;
    BootOne(1);
    var s := OneRunning(1);
    LoneWait(s);
    Finished(Wait4(s, ANY_CHILD, 0, 0).0);
    Unroll(s, Enter(Wait4Call(ANY_CHILD, 0, 0)), []);
    Unroll(AddProcess(BOOT, NewProcess(1)), Do(ScheduleOp(0)), [Enter(Wait4Call(ANY_CHILD, 0, 0))] + []);
    Unroll(BOOT, Do(AddOp(NewProcess(1))), [Do(ScheduleOp(0))] + ([Enter(Wait4Call(ANY_CHILD, 0, 0))] + []));
  }

  lemma LoneWait(s: Sched)
    requires |s.procs| == 1 && FrontIsCurrent(s) && s.procs[0].state.Running?
    ensures var t := Wait4(s, ANY_CHILD, 0, 0).0;
            t.procs == [s.procs[0].(state := Waiting(Child(ANY_CHILD)))] && t.current == s.current
  {
    assert s.procs[..0] == [];
    assert Keep(s.procs, ZombiesOf(s.current)) == [];
  }

  /** A timer kill wakes a process that waits for any child, though the victim is none of its children and it
      has nothing to collect. */
  lemma KillWakesStranger()
    ensures var steps := BOOT_STEPS + [Do(ScheduleOp(0))] + [Enter(Wait4Call(ANY_CHILD, 0, 0))];
            var s := Run(BOOT, steps);
            var t := Kill(s, 2);
            && LegalRun(BOOT, steps) && |s.procs| == |t.procs| == 2
            && s.procs[1].id == 1 && s.procs[1].WaitsFor(2) && t.procs[1].state.Ready?
            && !ZombieMatches(t.procs, 1, ANY_CHILD)
  {
    hide LegalRun, Run, Schedule, Wait4;
    var wait := Enter(Wait4Call(ANY_CHILD, 0, 0));
    Boots();
    FirstRuns();
    FirstWaits();
    RunAppend(BOOT, BOOT_STEPS, Do(ScheduleOp(0)));
    LegalAppend(BOOT, BOOT_STEPS, Do(ScheduleOp(0)));
    RunAppend(BOOT, BOOT_STEPS + [Do(ScheduleOp(0))], wait);
    LegalAppend(BOOT, BOOT_STEPS + [Do(ScheduleOp(0))], wait);
    KillFields(Wait4(FIRST, ANY_CHILD, 0, 0).0, 2);
  }

  lemma FirstWaits()
    ensures Wait4(FIRST, ANY_CHILD, 0, 0).0.procs ==
            [NewProcess(2), NewProcess(1).(state := Waiting(Child(ANY_CHILD)))]
  {
    var ps := FIRST.procs;
    KeepContents(ps, ZombiesOf(1));
    var zs := Keep(ps, ZombiesOf(1));
    assert forall i :: 0 <= i < |zs| ==> zs[i] in zs;
    var rs := ps[0 := ps[0].(state := Waiting(Child(ANY_CHILD)))];
    assert rs == [NewProcess(1).(state := Waiting(Child(ANY_CHILD))), NewProcess(2)];
  }
}
