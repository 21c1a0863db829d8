/** Six invariants that a legal step may break, and exactly when it does: agreement of the parenthood
    records, the current pid in front and runnable, parents listed, finite walks up the process tree, and
    parents older than their children. */
module CarefulRuns {
  import opened Processes
  import opened SchedulerSpec
  import opened ProcessLists
  import opened ProcessTree
  import opened SchedulerRuns
  import opened SchedulerInvariants
  import opened SchedulerTheorems

  datatype Invariant = Records | Front | Runner | Parents | Ancestry | PidOrder

  ghost predicate Holds(inv: Invariant, s: Sched) {
    match inv
    case Records => IndexAgrees(s)
    case Front => CurrentInFront(s)
    case Runner => CurrentRuns(s)
    case Parents => ParentsListed(s.procs)
    case Ancestry => Grounded(s.tree)
    case PidOrder => ParentsOlder(s)
  }

  // ----- the steps that keep each of them, by what a caller sees before the step

  /** Pid 0 neither exits over orphans nor reaps one, and only adoptable pids are registered. */
  ghost predicate RecordsSafe(s: Sched, step: Step) {
    match step
    case Do(RegisterOp(parent, child)) => Adoptable(s.procs, parent, child)
    case Do(ExitOp(pid, _)) => pid != 0 || s.orphans == []
    case Do(ReapOp(parent, child)) => parent != 0 || !CanReap(s.procs, parent, child)
    case Enter(ForkCall) => CanFork(s) ==> Adoptable(s.procs, s.current, s.nextPid)
    case Enter(Wait4Call(target, statusPtr, options)) =>
      s.current != 0 || !ValidWait(target, statusPtr, options) || !ZombieMatches(s.procs, 0, target)
    case Enter(ExitCall(arg)) => s.current != 0 || s.orphans == [] || !ValidExitCode(AsI32(arg))
    case _ => true
  }

  /** The current process is not itself reaped or cleaned up. */
  ghost predicate FrontSafe(s: Sched, step: Step) {
    match step
    case Do(ReapOp(parent, child)) => s.current == 0 || child != s.current || !CanReap(s.procs, parent, child)
    case Do(CleanupOp(pid)) => s.current == 0 || pid != s.current || !ZombiePid(s.procs, pid)
    case _ => true
  }

  /** The current process does not die, and a switch finds a runnable process to switch to. */
  ghost predicate RunnerSafe(s: Sched, step: Step) {
    match step
    case Do(ExitOp(pid, status)) => s.current == 0 || pid != s.current || !ValidExitCode(status)
    case Do(ScheduleOp(_)) => s.procs == [] || SomeRunnable(s.procs)
    case Enter(Wait4Call(target, statusPtr, options)) =>
      s.current != 0 && ValidWait(target, statusPtr, options) && !ZombieMatches(s.procs, s.current, target) ==>
        |s.procs| > 1 && s.procs[1].Runnable()
    case Enter(TimerKill(pid)) => s.current == 0 || pid != s.current
    case _ => true
  }

  /** No process is removed while others have it as their parent, and none is added under a parent not listed. */
  ghost predicate ParentsSafe(s: Sched, step: Step) {
    match step
    case Do(AddOp(p)) => p.parentId == 0 || Listed(s.procs, p.parentId)
    case Do(ReapOp(parent, child)) => CanReap(s.procs, parent, child) ==> !HasChildren(s.procs, child)
    case Do(CleanupOp(pid)) => ZombiePid(s.procs, pid) ==> !HasChildren(s.procs, pid)
    case Enter(Wait4Call(target, statusPtr, options)) =>
      ValidWait(target, statusPtr, options) && ZombieMatches(s.procs, s.current, target) ==>
        !HasChildren(s.procs, WaitChoice(s.procs, s.current, target))
    case _ => true
  }

  /** No pid is recorded below itself, and none above pid 0. */
  ghost predicate AncestrySafe(s: Sched, step: Step) {
    match step
    case Do(AddOp(p)) => !OnWalk(s.tree, p.parentId, p.id)
    case Do(RegisterOp(parent, child)) => child != 0 && !OnWalk(s.tree, parent, child)
    case Enter(ForkCall) => CanFork(s) ==> s.nextPid != 0 && !OnWalk(s.tree, s.current, s.nextPid)
    case _ => true
  }

  /** Pids come from `allocate_pid`, a child's after its parent's. */
  ghost predicate PidsAllocated(s: Sched, step: Step) {
    match step
    case Do(AddOp(p)) => p.parentId < p.id < s.nextPid
    case Do(RegisterOp(parent, child)) => parent < child < s.nextPid
    case _ => true
  }

  ghost predicate Careful(inv: Invariant, s: Sched, step: Step) {
    match inv
    case Records => RecordsSafe(s, step)
    case Front => FrontSafe(s, step)
    case Runner => RunnerSafe(s, step)
    case Parents => ParentsSafe(s, step)
    case Ancestry => AncestrySafe(s, step)
    case PidOrder => PidsAllocated(s, step)
  }

  // ----- the parenthood records

  lemma Wait4Agrees(s: Sched, target: nat, statusPtr: nat, options: nat)
    requires Wf(s) && IndexAgrees(s)
    ensures IndexAgrees(Wait4(s, target, statusPtr, options).0) <==>
            RecordsSafe(s, Enter(Wait4Call(target, statusPtr, options)))
  {
    hide IndexAgrees;
    if ValidWait(target, statusPtr, options) {
      var child := WaitChoice(s.procs, s.current, target);
      WaitChoiceIsComplete(s.procs, s.current, target);
      if child != 0 {
        ChoiceIsZombie(s.procs, s.current, target);
        assert CanReap(s.procs, s.current, child);
        ReapAgrees(s, s.current, child);
      } else if FrontIsCurrent(s) {
        BlockAgrees(s, target);
        assert Ids(s.procs)[0] == s.current;
      }
    }
  }

  lemma BlockSameParents(s: Sched, target: nat)
    requires s.procs != []
    ensures SameParents(s.procs, Block(s, target).0.procs)
  {
    var blocked := s.procs[0].(state := Waiting(Child(target)));
    FrontSameParents(s.procs, blocked);
    RotateSameParents(s.procs[0 := blocked]);
  }

  lemma BlockAgrees(s: Sched, target: nat)
    requires IndexAgrees(s) && s.procs != []
    ensures IndexAgrees(Block(s, target).0)
  {
    hide IndexAgrees, SameParents;
    BlockSameParents(s, target);
    SameParentsAgree(s, Block(s, target).0);
  }

  lemma ExitRecords(s: Sched, pid: nat, code: int)
    requires Wf(s) && IndexAgrees(s)
    ensures IndexAgrees(HandleExit(s, pid, code).0) <==> pid != 0 || s.orphans == []
  {
    hide IndexAgrees, AfterExitOf;
    ExitAgrees(s, pid, code);
  }

  lemma ExitCallRecords(s: Sched, arg: nat)
    requires Wf(s) && IndexAgrees(s)
    ensures IndexAgrees(Exit(s, arg).0) <==> RecordsSafe(s, Enter(ExitCall(arg)))
  {
    hide IndexAgrees, AfterExitOf;
    ExitRecords(s, s.current, AsI32(arg));
    var left := HandleExit(s, s.current, AsI32(arg)).0;
    RecordsOnly(left, left.(current := 0));
  }

  /** The steps that change neither the listed pids nor a parent field. */
  ghost predicate IsQuiet(step: Step) {
    match step
    case Do(op) => op.AllocateOp? || op.RegisterOp? || op.ScheduleOp?
    case Enter(entry) => entry.ForkCall? || entry.YieldCall? || entry.TimerKill?
  }

  lemma QuietSameParents(s: Sched, step: Step)
    requires Wf(s) && IsQuiet(step)
    ensures SameParents(s.procs, Apply(s, step).0.procs)
  {
    hide Schedule;
    match step
    case Do(AllocateOp) =>
    case Do(RegisterOp(parent, child)) => EachSameParents(s.procs, ChildAdded(parent, child));
    case Do(ScheduleOp(context)) => ScheduleSameParents(s, context);
    case Enter(ForkCall) => EachSameParents(s.procs, ChildAdded(s.current, s.nextPid));
    case Enter(YieldCall) =>
      if FrontIsCurrent(s) { FrontSameParents(s.procs, s.procs[0].(state := Ready)); }
    case Enter(TimerKill(pid)) => EachSameParents(s.procs, Killed(pid));
  }

  lemma QuietRecords(s: Sched, step: Step)
    requires Wf(s) && IndexAgrees(s)
    requires step == Enter(YieldCall) || (step.Enter? && step.entry.TimerKill?) || (step.Do? && step.op.ScheduleOp?)
    ensures IndexAgrees(Apply(s, step).0)
  {
    hide IndexAgrees, Schedule, SameParents;
    QuietSameParents(s, step);
    if step.Do? { ScheduleKeepsRecords(s, step.op.context); }
    SameParentsAgree(s, Apply(s, step).0);
  }

  lemma ScheduleKeepsRecords(s: Sched, context: nat)
    ensures var t := Schedule(s, context).0; t.tree == s.tree && t.orphans == s.orphans
  {
  }

  lemma RecordsExact(s: Sched, step: Step)
    requires Wf(s) && Legal(s, step) && IndexAgrees(s)
    ensures IndexAgrees(Apply(s, step).0) <==> RecordsSafe(s, step)
  {
    hide IndexAgrees, AddProcess, RegisterChild, HandleExit, ReapZombieChild, CleanupTerminated, Schedule, Fork, Wait4,
         Exit;
    match step
    case Do(AllocateOp) => RecordsOnly(s, AllocatePid(s).0);
    case Do(AddOp(p)) => AddAgrees(s, p);
    case Do(RegisterOp(parent, child)) => RegisterAgrees(s, parent, child);
    case Do(ExitOp(pid, code)) => ExitRecords(s, pid, code);
    case Do(ReapOp(parent, child)) => ReapAgrees(s, parent, child);
    case Do(CleanupOp(pid)) => CleanupAgrees(s, pid);
    case Enter(ForkCall) => ForkAgrees(s);
    case Enter(Wait4Call(target, statusPtr, options)) => Wait4Agrees(s, target, statusPtr, options);
    case Enter(ExitCall(arg)) => ExitCallRecords(s, arg);
    case _ => QuietRecords(s, step);
  }

  // ----- the process in front

  lemma ZombiePidIndex(ps: seq<Process>, pid: nat)
    requires UniqueIds(ps)
    ensures var k := IndexOf(ps, pid); ZombiePid(ps, pid) <==> k < |ps| && ps[k].state.Zombie?
  {
    OnlyIndex(ps, pid);
  }

  /** Taking a process out keeps the current pid in front exactly when it is another process. */
  lemma RemovalFront(s: Sched, t: Sched, k: nat)
    requires Wf(s) && CurrentInFront(s) && k < |s.procs|
    requires Ids(t.procs) == Ids(Without(s.procs, k)) && t.current == s.current
    ensures CurrentInFront(t) <==> s.current == 0 || s.procs[k].id != s.current
  {
    var r := Without(s.procs, k);
    if s.current == 0 || s.procs[k].id != s.current {
      WithoutKeepsFront(s, k);
      if r != [] { assert Ids(r)[0] == Ids(t.procs)[0]; }
    } else {
      WithoutUnique(s.procs, k);
      if t.procs != [] { assert Ids(t.procs)[0] == t.procs[0].id; }
    }
  }

  lemma ReapFront(s: Sched, parent: nat, child: nat)
    requires Wf(s) && CurrentInFront(s)
    ensures CurrentInFront(ReapZombieChild(s, parent, child).0) <==> FrontSafe(s, Do(ReapOp(parent, child)))
  {
    var k := IndexOf(s.procs, child);
    CanReapIndex(s.procs, parent, child);
    if CanReap(s.procs, parent, child) {
      EachIds(Without(s.procs, k), ChildRemoved(parent, child));
      RemovalFront(s, ReapZombieChild(s, parent, child).0, k);
    }
  }

  /** Cleaning up a pid breaks the front invariant exactly when it is the current one, a zombie. */
  lemma CleanupKeepsFront(s: Sched, pid: nat)
    requires Wf(s) && CurrentInFront(s)
    ensures CurrentInFront(CleanupTerminated(s, pid).0) <==> FrontSafe(s, Do(CleanupOp(pid)))
  {
    var k := IndexOf(s.procs, pid);
    ZombiePidIndex(s.procs, pid);
    if ZombiePid(s.procs, pid) { RemovalFront(s, CleanupTerminated(s, pid).0, k); }
  }

  lemma Wait4Front(s: Sched, target: nat, statusPtr: nat, options: nat)
    requires Wf(s) && CurrentInFront(s) && NoSelfParent(s.procs)
    ensures CurrentInFront(Wait4(s, target, statusPtr, options).0)
  {
    hide ReapZombieChild;
    var child := WaitChoice(s.procs, s.current, target);
    if child != 0 {
      ChoiceIsZombie(s.procs, s.current, target);
      ReapFront(s, s.current, child);
    }
  }

  /** The steps that leave the pids of the list and the current pid alone. */
  lemma SameFront(s: Sched, t: Sched)
    requires CurrentInFront(s) && Ids(t.procs) == Ids(s.procs) && (t.current == s.current || t.current == 0)
    ensures CurrentInFront(t)
  {
    if s.procs != [] { assert Ids(t.procs)[0] == Ids(s.procs)[0]; }
  }

  lemma RegisterIdsSame(s: Sched, parent: nat, child: nat)
    ensures var t := RegisterChild(s, parent, child).0; Ids(t.procs) == Ids(s.procs) && t.current == s.current
  {
    EachIds(s.procs, ChildAdded(parent, child));
  }

  lemma ExitIdsSame(s: Sched, pid: nat, code: int)
    ensures var t := HandleExit(s, pid, code).0; Ids(t.procs) == Ids(s.procs) && t.current == s.current
  {
    EachIds(s.procs, Exited(s.tree, pid, ParentOf(s.procs, pid), code));
  }

  lemma ForkFront(s: Sched)
    requires CurrentInFront(s)
    ensures CurrentInFront(Fork(s).0)
  {
    hide RegisterChild;
    RegisterIdsSame(AllocatePid(s).0, s.current, s.nextPid);
    SameFront(s, Fork(s).0);
  }

  lemma ExitCallFront(s: Sched, arg: nat)
    requires CurrentInFront(s)
    ensures CurrentInFront(Exit(s, arg).0)
  {
    hide HandleExit;
    ExitIdsSame(s, s.current, AsI32(arg));
    SameFront(s, Exit(s, arg).0);
  }

  lemma ScheduleFront(s: Sched, context: nat)
    ensures CurrentInFront(Schedule(s, context).0)
  {
  }

  lemma FrontExact(s: Sched, step: Step)
    requires Wf(s) && Legal(s, step) && CurrentInFront(s) && NoSelfParent(s.procs)
    ensures CurrentInFront(Apply(s, step).0) <==> FrontSafe(s, step)
  {
    hide RegisterChild, HandleExit, ReapZombieChild, CleanupTerminated, Schedule, Fork, Wait4, Exit;
    match step
    case Do(AllocateOp) =>
    case Do(AddOp(p)) =>
    case Do(RegisterOp(parent, child)) =>
      RegisterIdsSame(s, parent, child);
      SameFront(s, RegisterChild(s, parent, child).0);
    case Do(ExitOp(pid, code)) =>
      ExitIdsSame(s, pid, code);
      SameFront(s, HandleExit(s, pid, code).0);
    case Do(ReapOp(parent, child)) => ReapFront(s, parent, child);
    case Do(CleanupOp(pid)) => CleanupKeepsFront(s, pid);
    case Do(ScheduleOp(context)) => ScheduleFront(s, context);
    case Enter(ForkCall) => ForkFront(s);
    case Enter(Wait4Call(target, statusPtr, options)) => Wait4Front(s, target, statusPtr, options);
    case Enter(YieldCall) =>
    case Enter(ExitCall(arg)) => ExitCallFront(s, arg);
    case Enter(TimerKill(pid)) =>
      EachIds(s.procs, Killed(pid));
      SameFront(s, Kill(s, pid));
  }

  // ----- the current process runs

  /** The process in front stays the same one and as runnable as before. */
  ghost predicate SameRunner(s: Sched, t: Sched) {
    && t.current == s.current && (s.procs != [] ==> t.procs != [])
    && (s.procs != [] ==> t.procs[0].id == s.procs[0].id && (s.procs[0].Runnable() ==> t.procs[0].Runnable()))
  }

  lemma EachRunner(s: Sched, t: Sched, change: Change)
    requires t.procs == Each(s.procs, change) && t.current == s.current && (change.ChildAdded? || change.ChildRemoved?)
    ensures SameRunner(s, t)
  {
    EachAt(s.procs, change);
  }

  /** Only zombies leave the list, and a runnable process in front is none. */
  lemma RemovalRunner(s: Sched, t: Sched, k: nat)
    requires CurrentRuns(s) && k < |s.procs| && s.procs[k].state.Zombie? && t.current == s.current
    requires t.procs == Without(s.procs, k)
    ensures CurrentRuns(t)
  {
  }

  lemma ReapRunner(s: Sched, parent: nat, child: nat)
    requires Wf(s) && CurrentRuns(s)
    ensures CurrentRuns(ReapZombieChild(s, parent, child).0)
  {
    var (t, outcome) := ReapZombieChild(s, parent, child);
    if outcome.Reaped? {
      var removed := s.(procs := Without(s.procs, IndexOf(s.procs, child)));
      RemovalRunner(s, removed, IndexOf(s.procs, child));
      EachRunner(removed, t, ChildRemoved(parent, child));
    }
  }

  lemma ExitRunner(s: Sched, pid: nat, status: int)
    requires Wf(s) && CurrentRuns(s)
    ensures CurrentRuns(HandleExit(s, pid, status).0) <==> RunnerSafe(s, Do(ExitOp(pid, status)))
  {
    hide AfterExitOf;
    ExitFields(s, pid, status);
    ExitIdsSame(s, pid, status);
    if s.procs != [] { assert Ids(s.procs)[0] == s.procs[0].id; }
  }

  lemma ScheduleRunner(s: Sched, context: nat)
    requires Wf(s)
    ensures CurrentRuns(Schedule(s, context).0) <==> RunnerSafe(s, Do(ScheduleOp(context)))
  {
    var ps, k := s.procs, FirstRunnable(s.procs);
    if k == |ps| && ps != [] {
      var next := Schedule(s, context).0.procs[0];
      assert next.id == ps[if |ps| == 1 then 0 else 1].id && next.state == ps[if |ps| == 1 then 0 else 1].state;
      assert Ids(ps)[if |ps| == 1 then 0 else 1] == next.id;
    }
  }

  lemma BlockRunner(s: Sched, target: nat)
    requires Wf(s) && FrontIsCurrent(s)
    ensures CurrentRuns(Block(s, target).0) <==> |s.procs| > 1 && s.procs[1].Runnable()
  {
    assert Ids(s.procs)[if |s.procs| == 1 then 0 else 1] == Block(s, target).0.current;
  }

  lemma Wait4Runner(s: Sched, target: nat, statusPtr: nat, options: nat)
    requires Wf(s) && CurrentRuns(s)
    ensures CurrentRuns(Wait4(s, target, statusPtr, options).0) <==>
            RunnerSafe(s, Enter(Wait4Call(target, statusPtr, options)))
  {
    hide ReapZombieChild, WaitChoice, Block;
    var child := WaitChoice(s.procs, s.current, target);
    WaitChoiceIsComplete(s.procs, s.current, target);
    if child != 0 { ReapRunner(s, s.current, child); }
    if FrontIsCurrent(s) {
      BlockRunner(s, target);
      assert Ids(s.procs)[0] == s.current;
    }
  }

  lemma ForkRunner(s: Sched)
    requires CurrentRuns(s)
    ensures CurrentRuns(Fork(s).0)
  {
    if CanFork(s) { EachRunner(s, Fork(s).0, ChildAdded(s.current, s.nextPid)); }
  }

  lemma RegisterRunner(s: Sched, parent: nat, child: nat)
    requires CurrentRuns(s)
    ensures CurrentRuns(RegisterChild(s, parent, child).0)
  {
    var (t, outcome) := RegisterChild(s, parent, child);
    if outcome.Done? { EachRunner(s, t, ChildAdded(parent, child)); }
  }

  lemma ExitCallRunner(s: Sched, arg: nat)
    requires CurrentRuns(s)
    ensures CurrentRuns(Exit(s, arg).0)
  {
  }

  lemma KillRunner(s: Sched, pid: nat)
    requires CurrentRuns(s)
    ensures CurrentRuns(Kill(s, pid)) <==> s.current == 0 || pid != s.current
  {
    KillFields(s, pid);
  }

  lemma RunnerExact(s: Sched, step: Step)
    requires Wf(s) && Legal(s, step) && CurrentRuns(s)
    ensures CurrentRuns(Apply(s, step).0) <==> RunnerSafe(s, step)
  {
    hide RegisterChild, HandleExit, ReapZombieChild, Schedule, Fork, Wait4, Exit, Kill;
    match step
    case Do(AllocateOp) =>
    case Do(AddOp(p)) =>
    case Do(RegisterOp(parent, child)) => RegisterRunner(s, parent, child);
    case Do(ExitOp(pid, code)) => ExitRunner(s, pid, code);
    case Do(ReapOp(parent, child)) => ReapRunner(s, parent, child);
    case Do(CleanupOp(pid)) =>
      var k := IndexOf(s.procs, pid);
      if k < |s.procs| && s.procs[k].state.Zombie? { RemovalRunner(s, CleanupTerminated(s, pid).0, k); }
    case Do(ScheduleOp(context)) => ScheduleRunner(s, context);
    case Enter(ForkCall) => ForkRunner(s);
    case Enter(Wait4Call(target, statusPtr, options)) => Wait4Runner(s, target, statusPtr, options);
    case Enter(YieldCall) =>
    case Enter(ExitCall(arg)) => ExitCallRunner(s, arg);
    case Enter(TimerKill(pid)) => KillRunner(s, pid);
  }

  // ----- the parents are listed

  lemma SameParentsListed(ps: seq<Process>, qs: seq<Process>)
    requires SameParents(ps, qs) && ParentsListed(ps)
    ensures ParentsListed(qs)
  {
    forall x: nat ensures Listed(ps, x) <==> Listed(qs, x) {
      ListedLists(ps, x);
      ListedLists(qs, x);
    }
  }

  lemma AddParents(s: Sched, p: Process)
    requires Legal(s, Do(AddOp(p))) && ParentsListed(s.procs)
    ensures ParentsListed(AddProcess(s, p).procs) <==> p.parentId == 0 || Listed(s.procs, p.parentId)
  {
    var qs := s.procs + [p];
    ListsBack(s.procs, p);
    IdsAppend(s.procs, [p]);
    assert Ids(qs) == Ids(s.procs) + [p.id];
    assert Lists(qs, p.id, p.parentId);
  }

  lemma RemovalParents(ps: seq<Process>, qs: seq<Process>, child: nat)
    requires NoSelfParent(ps) && ParentsListed(ps) && child != 0 && !Listed(qs, child)
    requires forall x, p :: Lists(qs, x, p) <==> Lists(ps, x, p) && x != child
    ensures ParentsListed(qs) <==> !HasChildren(ps, child)
  {
    if HasChildren(ps, child) {
      var x :| Lists(ps, x, child);
      assert x != child;
      assert Lists(qs, x, child);
    } else {
      forall x, p | Lists(qs, x, p) ensures p == 0 || Listed(qs, p) {
        if p != 0 {
          ListedLists(ps, p);
          var g :| Lists(ps, p, g);
          assert Lists(qs, p, g);
          ListedLists(qs, p);
        }
      }
    }
  }

  lemma ReapParents(s: Sched, parent: nat, child: nat)
    requires Wf(s) && NoSelfParent(s.procs) && ParentsListed(s.procs)
    ensures ParentsListed(ReapZombieChild(s, parent, child).0.procs) <==>
            (CanReap(s.procs, parent, child) ==> !HasChildren(s.procs, child))
  {
    hide ParentsListed, HasChildren, NoSelfParent;
    CanReapIndex(s.procs, parent, child);
    if CanReap(s.procs, parent, child) {
      var k, t := IndexOf(s.procs, child), ReapZombieChild(s, parent, child).0;
      EachSameParents(Without(s.procs, k), ChildRemoved(parent, child));
      forall x, p ensures Lists(t.procs, x, p) <==> Lists(s.procs, x, p) && x != child {
        ListsWithout(s.procs, k, x, p);
      }
      WithoutUnique(s.procs, k);
      EachIds(Without(s.procs, k), ChildRemoved(parent, child));
      assert Ids(s.procs)[k] == child;
      RemovalParents(s.procs, t.procs, child);
    }
  }

  lemma CleanupParents(s: Sched, pid: nat)
    requires Wf(s) && NoSelfParent(s.procs) && ParentsListed(s.procs)
    ensures ParentsListed(CleanupTerminated(s, pid).0.procs) <==> ParentsSafe(s, Do(CleanupOp(pid)))
  {
    hide ParentsListed, HasChildren, NoSelfParent;
    ZombiePidIndex(s.procs, pid);
    if ZombiePid(s.procs, pid) {
      var k, t := IndexOf(s.procs, pid), CleanupTerminated(s, pid).0;
      forall x, p ensures Lists(t.procs, x, p) <==> Lists(s.procs, x, p) && x != pid {
        ListsWithout(s.procs, k, x, p);
      }
      WithoutUnique(s.procs, k);
      assert Ids(s.procs)[k] == pid;
      RemovalParents(s.procs, t.procs, pid);
    }
  }

  lemma ExitParents(s: Sched, pid: nat, code: int)
    requires ParentsListed(s.procs)
    ensures ParentsListed(HandleExit(s, pid, code).0.procs)
  {
    hide AfterExitOf;
    var ps, qs := s.procs, HandleExit(s, pid, code).0.procs;
    ExitFields(s, pid, code);
    ExitIdsSame(s, pid, code);
    forall x, p | Lists(qs, x, p) ensures p == 0 || Listed(qs, p) {
      var i :| 0 <= i < |qs| && qs[i].id == x && qs[i].parentId == p;
      assert Lists(ps, x, ps[i].parentId);
    }
  }

  lemma Wait4Parents(s: Sched, target: nat, statusPtr: nat, options: nat)
    requires Wf(s) && NoSelfParent(s.procs) && ParentsListed(s.procs)
    ensures ParentsListed(Wait4(s, target, statusPtr, options).0.procs) <==>
            ParentsSafe(s, Enter(Wait4Call(target, statusPtr, options)))
  {
    hide ParentsListed, HasChildren, NoSelfParent, ReapZombieChild, WaitChoice;
    var child := WaitChoice(s.procs, s.current, target);
    WaitChoiceIsComplete(s.procs, s.current, target);
    if child != 0 {
      ChoiceIsZombie(s.procs, s.current, target);
      assert CanReap(s.procs, s.current, child);
      ReapParents(s, s.current, child);
    } else if FrontIsCurrent(s) {
      BlockSameParents(s, target);
      SameParentsListed(s.procs, Block(s, target).0.procs);
    }
  }

  lemma ParentsExact(s: Sched, step: Step)
    requires Wf(s) && Legal(s, step) && NoSelfParent(s.procs) && ParentsListed(s.procs)
    ensures ParentsListed(Apply(s, step).0.procs) <==> ParentsSafe(s, step)
  {
    hide ParentsListed, HasChildren, NoSelfParent, SameParents, AddProcess, RegisterChild, HandleExit, ReapZombieChild,
         CleanupTerminated, Schedule, Fork, Wait4;
    match step
    case Do(AllocateOp) =>
    case Do(AddOp(p)) => AddParents(s, p);
    case Do(ExitOp(pid, code)) => ExitParents(s, pid, code);
    case Do(ReapOp(parent, child)) => ReapParents(s, parent, child);
    case Do(CleanupOp(pid)) => CleanupParents(s, pid);
    case Enter(Wait4Call(target, statusPtr, options)) => Wait4Parents(s, target, statusPtr, options);
    case Enter(ExitCall(arg)) => ExitParents(s, s.current, AsI32(arg));
    case _ =>
      QuietSameParents(s, step);
      SameParentsListed(s.procs, Apply(s, step).0.procs);
  }

  // ----- the process tree

  /** What a step other than an insertion does to the tree: entries go, or lead to pid 0. */
  lemma StepCuts(s: Sched, step: Step)
    requires 0 !in s.tree && !(step.Do? && (step.op.AddOp? || step.op.RegisterOp?)) && step != Enter(ForkCall)
    ensures CutFrom(Apply(s, step).0.tree, s.tree)
    ensures forall c :: c in Apply(s, step).0.tree ==> Apply(s, step).0.tree[c] in {0, s.tree[c]}
  {
    hide Each, Ids, FirstRunnable, IndexOf, Without, Rotate, Preempt, RemoveFirst, Ascending, OnlyListed, Keep,
         WaitChoice;
  }

  lemma AncestryExact(s: Sched, step: Step)
    requires Legal(s, step) && Grounded(s.tree)
    ensures Grounded(Apply(s, step).0.tree) <==> AncestrySafe(s, step)
  {
    hide Grounded, OnWalk;
    match step
    case Do(AddOp(p)) => InsertKeepsGrounded(s.tree, p.parentId, p.id);
    case Do(RegisterOp(parent, child)) => InsertKeepsGrounded(s.tree, parent, child);
    case Enter(ForkCall) => InsertKeepsGrounded(s.tree, s.current, s.nextPid);
    case _ =>
      GroundedRoot(s.tree);
      StepCuts(s, step);
      CutKeepsGrounded(Apply(s, step).0.tree, s.tree);
  }

  lemma GroundedRoot(tree: map<nat, nat>)
    requires Grounded(tree)
    ensures 0 !in tree
  {
  }

  // ----- the source of pids

  /** Whoever is listed after a step was listed before or has just been added. */
  lemma ListedBefore(s: Sched, step: Step, x: nat)
    requires Wf(s) && Legal(s, step) && Listed(Apply(s, step).0.procs, x)
    ensures Listed(s.procs, x) || x in Entered(step)
  {
    hide Apply, Legal, Wf;
    EveryStepOk(s, step);
    var (t, outcome) := Apply(s, step);
    assert Pids(t)[x] > 0;
    assert (Pids(t) + Gone(step, outcome))[x] == (Pids(s) + Entered(step))[x];
  }

  lemma NextPidGrows(s: Sched, step: Step)
    ensures Apply(s, step).0.nextPid >= s.nextPid
  {
  }

  lemma ForkOrder(s: Sched)
    requires ParentsOlder(s)
    ensures TreeOrdered(Fork(s).0)
  {
    if CanFork(s) {
      assert Ids(s.procs)[0] == s.current;
      assert Listed(s.procs, s.current);
      assert Fork(s).0.tree == s.tree[s.nextPid := s.current] && Fork(s).0.nextPid == s.nextPid + 1;
    }
  }

  lemma TreeOrder(s: Sched, step: Step)
    requires Legal(s, step) && ParentsOlder(s)
    ensures TreeOrdered(Apply(s, step).0) <==> PidsAllocated(s, step)
  {
    hide Fork;
    NextPidGrows(s, step);
    match step
    case Do(AddOp(p)) => assert AddProcess(s, p).tree[p.id] == p.parentId;
    case Do(RegisterOp(parent, child)) => assert RegisterChild(s, parent, child).0.tree[child] == parent;
    case Enter(ForkCall) => ForkOrder(s);
    case _ =>
      hide Apply;
      StepCuts(s, step);
  }

  lemma PidOrderExact(s: Sched, step: Step)
    requires Wf(s) && Legal(s, step) && ParentsOlder(s)
    ensures ParentsOlder(Apply(s, step).0) <==> PidsAllocated(s, step)
  {
    hide Apply, Legal, Wf;
    TreeOrder(s, step);
    NextPidGrows(s, step);
    forall x: nat | Listed(Apply(s, step).0.procs, x) && PidsAllocated(s, step) ensures x < Apply(s, step).0.nextPid {
      ListedBefore(s, step, x);
    }
  }

  // ----- every step, every run

  /** A legal step keeps an invariant exactly when it meets the invariant's condition. */
  lemma CarefulStepsKeep(inv: Invariant, s: Sched, step: Step)
    requires Wf(s) && NoSelfParent(s.procs) && Legal(s, step) && Holds(inv, s)
    ensures Holds(inv, Apply(s, step).0) <==> Careful(inv, s, step)
  {
    hide Apply, Legal, Wf, NoSelfParent, IndexAgrees, CurrentInFront, CurrentRuns, ParentsListed, Grounded,
         ParentsOlder, RecordsSafe, FrontSafe, RunnerSafe, ParentsSafe, AncestrySafe, PidsAllocated;
    match inv
    case Records => RecordsExact(s, step);
    case Front => FrontExact(s, step);
    case Runner => RunnerExact(s, step);
    case Parents => ParentsExact(s, step);
    case Ancestry => AncestryExact(s, step);
    case PidOrder => PidOrderExact(s, step);
  }

  /** Every step of the run meets the condition. */
  ghost predicate CarefulRun(inv: Invariant, s: Sched, steps: seq<Step>)
    decreases |steps|
  {
    steps == [] || (Careful(inv, s, steps[0]) && CarefulRun(inv, Apply(s, steps[0]).0, steps[1..]))
  }

  /** The invariant holds in every state the run passes through. */
  ghost predicate Throughout(inv: Invariant, s: Sched, steps: seq<Step>)
    decreases |steps|
  {
    Holds(inv, s) && (steps == [] || Throughout(inv, Apply(s, steps[0]).0, steps[1..]))
  }

  /** Over every legal run from a safe state, an invariant that holds at the start holds in every state
      exactly when every step meets its condition. */
  lemma {:induction false} HoldsThroughoutIff(inv: Invariant, s: Sched, steps: seq<Step>)
    requires Safe(s) && LegalRun(s, steps) && Holds(inv, s)
    ensures Throughout(inv, s, steps) <==> CarefulRun(inv, s, steps)
    decreases |steps|
  {
    if steps != [] {
      hide Apply, Legal, Holds, Careful;
      var t := Apply(s, steps[0]).0;
      CarefulStepsKeep(inv, s, steps[0]);
      EveryStepOk(s, steps[0]);
      if Holds(inv, t) { HoldsThroughoutIff(inv, t, steps[1..]); }
    }
  }

  lemma {:induction false} ThroughoutEnds(inv: Invariant, s: Sched, steps: seq<Step>)
    requires Throughout(inv, s, steps)
    ensures Holds(inv, Run(s, steps))
    decreases |steps|
  {
    if steps != [] {
      ThroughoutEnds(inv, Apply(s, steps[0]).0, steps[1..]);
    }
  }

  lemma BootHolds(inv: Invariant)
    ensures Holds(inv, BOOT)
  {
    forall pid: nat ensures Ends(BOOT.tree, pid) { assert Up(BOOT.tree, pid, 0) !in BOOT.tree; }
  }

  /** From boot: each invariant holds in every state of a legal run exactly when the run is careful about it. */
  lemma ReachableExactly(inv: Invariant, steps: seq<Step>)
    requires LegalRun(BOOT, steps)
    ensures Throughout(inv, BOOT, steps) <==> CarefulRun(inv, BOOT, steps)
  {
    hide LegalRun, Throughout, CarefulRun;
    BootHolds(inv);
    HoldsThroughoutIff(inv, BOOT, steps);
  }

  /** The records agree, and the current pid is 0 or in front, in every state that is safe already. */
  ghost predicate Consistent(s: Sched) {
    Safe(s) && IndexAgrees(s) && CurrentInFront(s)
  }

  /** In every state reachable from boot by steps careful about records and front, whatever the pids. */
  lemma ReachableStatesAreConsistent(steps: seq<Step>)
    requires LegalRun(BOOT, steps) && CarefulRun(Records, BOOT, steps) && CarefulRun(Front, BOOT, steps)
    ensures Consistent(Run(BOOT, steps))
  {
    hide LegalRun, CarefulRun, Throughout, Safe, IndexAgrees, CurrentInFront, Run;
    ReachableStatesAreSafe(steps);
    ReachableExactly(Records, steps);
    ReachableExactly(Front, steps);
    ThroughoutEnds(Records, BOOT, steps);
    ThroughoutEnds(Front, BOOT, steps);
  }

  /** The current process is runnable in every state reachable from boot by steps careful about that. */
  lemma ReachableRunnersRun(steps: seq<Step>)
    requires LegalRun(BOOT, steps) && CarefulRun(Runner, BOOT, steps)
    ensures CurrentRuns(Run(BOOT, steps))
  {
    hide LegalRun, CarefulRun, Throughout, Run;
    ReachableExactly(Runner, steps);
    ThroughoutEnds(Runner, BOOT, steps);
  }

  /** In every state reachable from boot without recording a pid below itself, every walk ends. */
  lemma ReachableWalksEnd(steps: seq<Step>, pid: nat)
    requires LegalRun(BOOT, steps) && CarefulRun(Ancestry, BOOT, steps)
    ensures Ends(Run(BOOT, steps).tree, pid)
  {
    hide LegalRun, CarefulRun, Throughout, Run;
    ReachableExactly(Ancestry, steps);
    ThroughoutEnds(Ancestry, BOOT, steps);
  }

  /** With all pids from `allocate_pid`, parents are older than their children. */
  lemma ReachableParentsAreOlder(steps: seq<Step>)
    requires LegalRun(BOOT, steps) && CarefulRun(PidOrder, BOOT, steps)
    ensures ParentsOlder(Run(BOOT, steps))
  {
    hide LegalRun, CarefulRun, Throughout, Run;
    ReachableExactly(PidOrder, steps);
    ThroughoutEnds(PidOrder, BOOT, steps);
  }
}
