/** Exit codes over whole runs: which steps lose the code of a zombie, and that otherwise it is delivered
    exactly once. */
module ExitCodes {
  import opened Processes
  import opened SchedulerSpec
  import opened ProcessLists
  import opened SchedulerRuns
  import opened SchedulerInvariants
  import opened SchedulerTheorems

  /** For whom a code waits: a given parent, or whoever is the parent by now. */
  datatype Heir = Anyone | Parent(pid: nat)

  ghost predicate IsHolding(p: Process, heir: Heir, child: nat, code: int) {
    p.id == child && p.state.Zombie? && p.exitCode == code && (heir.Parent? ==> p.parentId == heir.pid)
  }

  /** `child` is a listed zombie that holds `code` for `heir`. */
  ghost predicate Held(ps: seq<Process>, heir: Heir, child: nat, code: int) {
    exists p :: p in ps && IsHolding(p, heir, child, code)
  }

  // ----- the steps that lose a code

  /** An exit that is not refused for its code. */
  predicate GoesThrough(s: Sched, pid: nat, status: int) {
    !Listed(s.procs, pid) || ValidExitCode(status)
  }

  /** The zombie is cleaned up, gets another code by exiting again or being killed, or calls wait4 or yield
      from the front, which makes it wait or ready again. */
  ghost predicate LosesCode(s: Sched, step: Step, child: nat, code: int) {
    match step
    case Do(ExitOp(pid, status)) => pid == child && ValidExitCode(status) && status != code
    case Do(CleanupOp(pid)) => pid == child
    case Enter(Wait4Call(target, statusPtr, options)) =>
      && s.current == child && FrontIsCurrent(s) && ValidWait(target, statusPtr, options)
      && !ZombieMatches(s.procs, child, target)
    case Enter(YieldCall) => s.current == child && FrontIsCurrent(s)
    case Enter(ExitCall(arg)) => s.current == child && ValidExitCode(AsI32(arg)) && AsI32(arg) != code
    case Enter(TimerKill(pid)) => pid == child && code != TIMEOUT_EXIT_CODE
    case _ => false
  }

  /** The exit of the pid that the tree names as the zombie's parent hands the code to pid 0. */
  ghost predicate HandsOn(s: Sched, step: Step, heir: Heir, child: nat) {
    && heir.Parent? && heir.pid != 0
    && match step
       case Do(ExitOp(pid, status)) => child in Kids(s.tree, pid) && GoesThrough(s, pid, status)
       case Enter(ExitCall(arg)) => child in Kids(s.tree, s.current) && ValidExitCode(AsI32(arg))
       case _ => false
  }

  predicate Delivers(outcome: Outcome, child: nat) {
    outcome.Reaped? && outcome.child == child
  }

  /** After the step the code is still held for the heir, or it was handed over unchanged and the child is
      unlisted. */
  ghost predicate StepKeepsCode(s: Sched, step: Step, heir: Heir, child: nat, code: int) {
    var (t, outcome) := Apply(s, step);
    if Delivers(outcome, child) then outcome.code == code && !Listed(t.procs, child)
    else Held(t.procs, heir, child, code)
  }

  ghost predicate Spares(s: Sched, step: Step, heir: Heir, child: nat, code: int) {
    !LosesCode(s, step, child, code) && !HandsOn(s, step, heir, child)
  }

  // ----- where the zombie is after an update of the list

  /** With distinct pids, the one process with the zombie's pid decides. */
  lemma Decides(ps: seq<Process>, q: Process, heir: Heir, child: nat, code: int)
    requires UniqueIds(ps) && q in ps && q.id == child
    ensures Held(ps, heir, child, code) <==> IsHolding(q, heir, child, code)
  {
    OnlyIndex(ps, child);
  }

  lemma EachHas(ps: seq<Process>, change: Change, p: Process)
    requires p in ps
    ensures change.Of(p) in Each(ps, change)
  {
    EachAt(ps, change);
    var i :| 0 <= i < |ps| && ps[i] == p;
    assert Each(ps, change)[i] == change.Of(p);
  }

  lemma WithoutHas(ps: seq<Process>, k: nat, p: Process)
    requires k < |ps| && p in ps && ps[k].id != p.id
    ensures p in Without(ps, k)
  {
    var i :| 0 <= i < |ps| && ps[i] == p;
    assert Without(ps, k)[if i < k then i else i - 1] == p;
  }

  lemma FrontHas(ps: seq<Process>, q: Process, p: Process)
    requires ps != [] && p in ps
    ensures (if p == ps[0] then q else p) in ps[0 := q]
  {
    var i :| 0 <= i < |ps| && ps[i] == p;
    assert ps[0 := q][if p == ps[0] then 0 else i] == if p == ps[0] then q else p;
  }

  lemma RotateHas(ps: seq<Process>, p: Process)
    requires p in ps
    ensures p in Rotate(ps)
  {
    var i :| 0 <= i < |ps| && ps[i] == p;
    assert Rotate(ps)[if i == 0 then |ps| - 1 else i - 1] == p;
  }

  lemma ListedHas(ps: seq<Process>, p: Process)
    requires p in ps
    ensures Listed(ps, p.id)
  {
    var i :| 0 <= i < |ps| && ps[i] == p;
    assert Ids(ps)[i] == p.id;
  }

  // ----- one step, operation by operation; `p` is the zombie

  ghost predicate Zombified(s: Sched, p: Process, heir: Heir, child: nat, code: int) {
    Wf(s) && p in s.procs && IsHolding(p, heir, child, code)
  }

  /** Updates that change neither pid, parent, state nor code. */
  lemma EachKeepsCode(s: Sched, t: Sched, change: Change, p: Process, heir: Heir, child: nat, code: int)
    requires Zombified(s, p, heir, child, code) && (change.ChildAdded? || change.ChildRemoved?)
    requires t.procs == Each(s.procs, change)
    ensures Held(t.procs, heir, child, code)
  {
    EachHas(s.procs, change, p);
    assert IsHolding(change.Of(p), heir, child, code);
  }

  lemma ExitCode(s: Sched, pid: nat, status: int, p: Process, heir: Heir, child: nat, code: int)
    requires Zombified(s, p, heir, child, code)
    ensures Held(HandleExit(s, pid, status).0.procs, heir, child, code) <==>
            Spares(s, Do(ExitOp(pid, status)), heir, child, code)
  {
    var change := Exited(s.tree, pid, ParentOf(s.procs, pid), status);
    ListedHas(s.procs, p);
    if GoesThrough(s, pid, status) {
      EachHas(s.procs, change, p);
      AfterExitFields(p, s.tree, pid, ParentOf(s.procs, pid), status);
      EachIds(s.procs, change);
      SameIdsUnique(s.procs, Each(s.procs, change));
      hide Each, AfterExit;
      Decides(Each(s.procs, change), change.Of(p), heir, child, code);
    }
  }

  lemma ReapCode(s: Sched, reaper: nat, victim: nat, p: Process, heir: Heir, child: nat, code: int)
    requires Zombified(s, p, heir, child, code)
    ensures var (t, outcome) := ReapZombieChild(s, reaper, victim);
            if Delivers(outcome, child) then outcome.code == code && !Listed(t.procs, child)
            else Held(t.procs, heir, child, code)
  {
    var (t, outcome) := ReapZombieChild(s, reaper, victim);
    var k := IndexOf(s.procs, victim);
    OnlyIndex(s.procs, victim);
    if outcome.Reaped? {
      var r := Without(s.procs, k);
      if victim == child {
        WithoutUnique(s.procs, k);
        EachIds(r, ChildRemoved(reaper, victim));
      } else {
        WithoutHas(s.procs, k, p);
        EachHas(r, ChildRemoved(reaper, victim), p);
        assert IsHolding(ChildRemoved(reaper, victim).Of(p), heir, child, code);
      }
    }
  }

  lemma CleanupCode(s: Sched, pid: nat, p: Process, heir: Heir, child: nat, code: int)
    requires Zombified(s, p, heir, child, code)
    ensures Held(CleanupTerminated(s, pid).0.procs, heir, child, code) <==> pid != child
  {
    var k := IndexOf(s.procs, pid);
    OnlyIndex(s.procs, pid);
    var r := CleanupTerminated(s, pid).0.procs;
    if pid == child {
      WithoutUnique(s.procs, k);
      if q :| q in r && IsHolding(q, heir, child, code) { ListedHas(r, q); }
    } else if CleanupTerminated(s, pid).1.Done? {
      WithoutHas(s.procs, k, p);
    }
  }

  lemma ScheduleCode(s: Sched, context: nat, p: Process, heir: Heir, child: nat, code: int)
    requires Zombified(s, p, heir, child, code)
    ensures Held(Schedule(s, context).0.procs, heir, child, code)
  {
    var ps, k, qs := s.procs, FirstRunnable(s.procs), Schedule(s, context).0.procs;
    if k < |ps| {
      var r := Without(ps, k);
      OnlyIndex(ps, child);
      WithoutHas(ps, k, p);
      var saved := Preempt(r, context)[0];
      FrontHas(r, saved, p);
      assert Preempt(r, context) == r[0 := saved];
      var q := if p == r[0] then saved else p;
      assert q in qs && IsHolding(q, heir, child, code);
    } else {
      var saved := ps[0].(contextPtr := context);
      FrontHas(ps, saved, p);
      RotateHas(ps[0 := saved], if p == ps[0] then saved else p);
      assert IsHolding(if p == ps[0] then saved else p, heir, child, code);
    }
  }

  /** A new state for the process in front loses the code exactly when that is the zombie and the state is
      another one. */
  lemma FrontCode(s: Sched, state: ProcessState, p: Process, heir: Heir, child: nat, code: int)
    requires Zombified(s, p, heir, child, code) && s.procs != [] && !state.Zombie?
    ensures var ps := s.procs[0 := s.procs[0].(state := state)];
            UniqueIds(ps) && (Held(ps, heir, child, code) <==> s.procs[0].id != child)
  {
    var q := s.procs[0].(state := state);
    var ps := s.procs[0 := q];
    FrontIds(s.procs, q);
    SameIdsUnique(s.procs, ps);
    FrontHas(s.procs, q, p);
    OnlyIndex(s.procs, child);
    Decides(ps, if p == s.procs[0] then q else p, heir, child, code);
  }

  lemma RotateHeld(ps: seq<Process>, heir: Heir, child: nat, code: int)
    requires ps != []
    ensures Held(Rotate(ps), heir, child, code) <==> Held(ps, heir, child, code)
  {
    if p :| p in ps && IsHolding(p, heir, child, code) { RotateHas(ps, p); }
    if p :| p in Rotate(ps) && IsHolding(p, heir, child, code) { assert p in ps; }
  }

  lemma Wait4Code(s: Sched, target: nat, statusPtr: nat, options: nat, p: Process, heir: Heir, child: nat, code: int)
    requires Zombified(s, p, heir, child, code)
    ensures var step := Enter(Wait4Call(target, statusPtr, options));
            StepKeepsCode(s, step, heir, child, code) <==> !LosesCode(s, step, child, code)
  {
    hide ReapZombieChild, WaitChoice, Rotate;
    var choice := WaitChoice(s.procs, s.current, target);
    WaitChoiceIsComplete(s.procs, s.current, target);
    if ValidWait(target, statusPtr, options) {
      if choice != 0 {
        ReapCode(s, s.current, choice, p, heir, child, code);
      } else if FrontIsCurrent(s) {
        FrontCode(s, Waiting(Child(target)), p, heir, child, code);
        RotateHeld(s.procs[0 := s.procs[0].(state := Waiting(Child(target)))], heir, child, code);
      }
    }
  }

  lemma KillCode(s: Sched, pid: nat, p: Process, heir: Heir, child: nat, code: int)
    requires Zombified(s, p, heir, child, code)
    ensures Held(Kill(s, pid).procs, heir, child, code) <==> !(pid == child && code != TIMEOUT_EXIT_CODE)
  {
    EachHas(s.procs, Killed(pid), p);
    EachIds(s.procs, Killed(pid));
    SameIdsUnique(s.procs, Each(s.procs, Killed(pid)));
    Decides(Each(s.procs, Killed(pid)), Killed(pid).Of(p), heir, child, code);
  }

  lemma OpCode(s: Sched, op: Op, p: Process, heir: Heir, child: nat, code: int)
    requires Zombified(s, p, heir, child, code) && Legal(s, Do(op))
    ensures StepKeepsCode(s, Do(op), heir, child, code) <==> Spares(s, Do(op), heir, child, code)
  {
    hide Held, IsHolding, Each, AfterExitOf, Without, RemoveFirst, Ids;
    assert Held(s.procs, heir, child, code) by { Holding(s, p, heir, child, code); }
    match op
    case AllocateOp =>
    case AddOp(q) => AppendHeld(s.procs, q, heir, child, code);
    case RegisterOp(a, b) =>
      if RegisterChild(s, a, b).1.Done? {
        EachKeepsCode(s, RegisterChild(s, a, b).0, ChildAdded(a, b), p, heir, child, code);
      }
    case ExitOp(pid, status) => ExitCode(s, pid, status, p, heir, child, code);
    case ReapOp(reaper, victim) => ReapCode(s, reaper, victim, p, heir, child, code);
    case CleanupOp(pid) => CleanupCode(s, pid, p, heir, child, code);
    case ScheduleOp(context) => ScheduleCode(s, context, p, heir, child, code);
  }

  lemma Holding(s: Sched, p: Process, heir: Heir, child: nat, code: int)
    requires Zombified(s, p, heir, child, code)
    ensures Held(s.procs, heir, child, code)
  {
  }

  lemma AppendHeld(ps: seq<Process>, q: Process, heir: Heir, child: nat, code: int)
    requires Held(ps, heir, child, code)
    ensures Held(ps + [q], heir, child, code)
  {
    var p :| p in ps && IsHolding(p, heir, child, code);
    assert p in ps + [q];
  }

  lemma EntryCode(s: Sched, entry: Entry, p: Process, heir: Heir, child: nat, code: int)
    requires Zombified(s, p, heir, child, code)
    ensures StepKeepsCode(s, Enter(entry), heir, child, code) <==> Spares(s, Enter(entry), heir, child, code)
  {
    hide Held, IsHolding, Each, HandleExit, Without, RemoveFirst, Ids, Wait4;
    Holding(s, p, heir, child, code);
    match entry
    case ForkCall =>
      if Fork(s).1.Forked? {
        EachKeepsCode(s, Fork(s).0, ChildAdded(s.current, s.nextPid), p, heir, child, code);
      }
    case Wait4Call(target, statusPtr, options) => Wait4Code(s, target, statusPtr, options, p, heir, child, code);
    case YieldCall => if FrontIsCurrent(s) { FrontCode(s, Ready, p, heir, child, code); }
    case ExitCall(arg) =>
      ExitCode(s, s.current, AsI32(arg), p, heir, child, code);
      ExitOutcome(s, s.current, AsI32(arg));
    case TimerKill(pid) => KillCode(s, pid, p, heir, child, code);
  }

  lemma ExitOutcome(s: Sched, pid: nat, status: int)
    ensures HandleExit(s, pid, status).1 == if GoesThrough(s, pid, status) then Done else Failed
  {
  }

  /** A legal step keeps a zombie's code for its heir, or hands it over unchanged, exactly when it does not
      lose the code and, for a given parent, does not hand it on to pid 0. */
  lemma EveryStepExact(s: Sched, step: Step, heir: Heir, child: nat, code: int)
    requires Wf(s) && Legal(s, step) && Held(s.procs, heir, child, code)
    ensures StepKeepsCode(s, step, heir, child, code) <==> Spares(s, step, heir, child, code)
  {
    var p :| p in s.procs && IsHolding(p, heir, child, code);
    match step
    case Do(op) => OpCode(s, op, p, heir, child, code);
    case Enter(entry) => EntryCode(s, entry, p, heir, child, code);
  }

  // ----- runs

  /** In every state of the run up to the handover, if there is one, the code is held for the heir; and
      what is handed over is the code. */
  ghost predicate KeptUntilDelivered(s: Sched, steps: seq<Step>, heir: Heir, child: nat, code: int)
    decreases |steps|
  {
    && Held(s.procs, heir, child, code)
    && (steps == [] || (
      var (t, outcome) := Apply(s, steps[0]);
      if Delivers(outcome, child) then outcome.code == code
      else KeptUntilDelivered(t, steps[1..], heir, child, code)))
  }

  /** No step up to the handover loses the code or, for a given parent, hands it on. */
  ghost predicate SparingRun(s: Sched, steps: seq<Step>, heir: Heir, child: nat, code: int)
    decreases |steps|
  {
    steps == [] || (
      var (t, outcome) := Apply(s, steps[0]);
      && Spares(s, steps[0], heir, child, code)
      && (Delivers(outcome, child) || SparingRun(t, steps[1..], heir, child, code)))
  }

  /** Over every legal run, a code held at the start is held in every state until it is handed over, unchanged,
      exactly when no step before that loses it. */
  lemma {:induction false} CodeKeptIff(s: Sched, steps: seq<Step>, heir: Heir, child: nat, code: int)
    requires Wf(s) && LegalRun(s, steps) && Held(s.procs, heir, child, code)
    ensures KeptUntilDelivered(s, steps, heir, child, code) <==> SparingRun(s, steps, heir, child, code)
    decreases |steps|
  {
    if steps != [] {
      hide Apply, Legal, Held, Spares;
      var (t, outcome) := Apply(s, steps[0]);
      EveryStepExact(s, steps[0], heir, child, code);
      EveryStepOk(s, steps[0]);
      if Delivers(outcome, child) {
        DeliveryIsSparing(s, steps[0], heir, child, code);
      } else if Held(t.procs, heir, child, code) {
        CodeKeptIff(t, steps[1..], heir, child, code);
      } else {
        assert !KeptUntilDelivered(t, steps[1..], heir, child, code);
      }
    }
  }

  /** A handover is always of the code that was held. */
  lemma DeliveryIsSparing(s: Sched, step: Step, heir: Heir, child: nat, code: int)
    requires Wf(s) && Legal(s, step) && Held(s.procs, heir, child, code) && Delivers(Apply(s, step).1, child)
    ensures Apply(s, step).1.code == code && !Listed(Apply(s, step).0.procs, child)
    ensures Spares(s, step, heir, child, code)
  {
    var p :| p in s.procs && IsHolding(p, heir, child, code);
    match step
    case Do(ReapOp(reaper, victim)) => ReapCode(s, reaper, victim, p, heir, child, code);
    case Enter(Wait4Call(target, statusPtr, options)) =>
      WaitChoiceIsComplete(s.procs, s.current, target);
      ReapCode(s, s.current, WaitChoice(s.procs, s.current, target), p, heir, child, code);
  }

  /** The exit codes handed out for `child`, in order. */
  function Deliveries(s: Sched, steps: seq<Step>, child: nat): seq<int>
    decreases |steps|
  {
    if steps == [] then []
    else
      var (t, outcome) := Apply(s, steps[0]);
      (if Delivers(outcome, child) then [outcome.code] else []) + Deliveries(t, steps[1..], child)
  }

  /** No process is added under the child's pid; while it is listed that is not legal anyway. */
  ghost predicate NotAdded(steps: seq<Step>, child: nat) {
    forall i :: 0 <= i < |steps| && steps[i].Do? && steps[i].op.AddOp? ==> steps[i].op.p.id != child
  }

  lemma GoneStaysGone(s: Sched, step: Step, child: nat)
    requires Wf(s) && Legal(s, step) && child !in Entered(step) && !Listed(s.procs, child)
    ensures var (t, outcome) := Apply(s, step);
            !Listed(t.procs, child) && !Delivers(outcome, child)
  {
    EveryStepOk(s, step);
    var (t, outcome) := Apply(s, step);
    assert Pids(s)[child] == 0;
    assert (Pids(t) + Gone(step, outcome))[child] == (Pids(s) + Entered(step))[child];
    assert child !in multiset(Ids(t.procs));
  }

  lemma {:induction false} NoFurtherDeliveries(s: Sched, steps: seq<Step>, child: nat)
    requires Wf(s) && LegalRun(s, steps) && NotAdded(steps, child) && !Listed(s.procs, child)
    ensures Deliveries(s, steps, child) == [] && !Listed(Run(s, steps).procs, child)
    decreases |steps|
  {
    if steps != [] {
      GoneStaysGone(s, steps[0], child);
      EveryStepOk(s, steps[0]);
      NoFurtherDeliveries(Apply(s, steps[0]).0, steps[1..], child);
    }
  }

  /** Exactly once: along any legal run without a step that loses it, whoever exits, reaps or registers, the code
      is either still held for its heir and was never handed out, or was handed out once, unchanged, and the
      child is no longer listed. */
  lemma {:induction false} ExitCodeDeliveredOnce(s: Sched, steps: seq<Step>, heir: Heir, child: nat, code: int)
    requires Wf(s) && LegalRun(s, steps) && Held(s.procs, heir, child, code)
    requires SparingRun(s, steps, heir, child, code) && NotAdded(steps, child)
    ensures || (Deliveries(s, steps, child) == [] && Held(Run(s, steps).procs, heir, child, code))
            || (Deliveries(s, steps, child) == [code] && !Listed(Run(s, steps).procs, child))
    decreases |steps|
  {
    if steps != [] {
      hide Held, Spares;
      var (t, outcome) := Apply(s, steps[0]);
      EveryStepOk(s, steps[0]);
      EveryStepExact(s, steps[0], heir, child, code);
      if Delivers(outcome, child) {
        NoFurtherDeliveries(t, steps[1..], child);
      } else {
        ExitCodeDeliveredOnce(t, steps[1..], heir, child, code);
      }
    }
  }

  // ----- how codes come to be held, and how they are collected

  /** An exit with a valid code leaves the code with the zombie for the parent it had, or for pid 0 if the
      tree names the process as its own parent. */
  lemma ExitMakesPending(s: Sched, pid: nat, code: int)
    requires Wf(s) && Listed(s.procs, pid) && ValidExitCode(code)
    ensures var parent := if pid in Kids(s.tree, pid) then 0 else ParentOf(s.procs, pid);
            Held(HandleExit(s, pid, code).0.procs, Parent(parent), pid, code)
  {
    hide AfterExitOf;
    OnlyIndex(s.procs, pid);
    ExitFields(s, pid, code);
    var q := AfterExitOf(s, pid, code).procs[IndexOf(s.procs, pid)];
    assert IsHolding(q, Parent(if pid in Kids(s.tree, pid) then 0 else ParentOf(s.procs, pid)), pid, code);
  }

  /** A timer kill leaves the code -1 with the zombie for its parent, and nobody still waiting for it. */
  lemma KillMakesPending(s: Sched, pid: nat)
    requires Wf(s) && Listed(s.procs, pid)
    ensures var ps := Kill(s, pid).procs;
            && Held(ps, Parent(ParentOf(s.procs, pid)), pid, TIMEOUT_EXIT_CODE)
            && forall i :: 0 <= i < |ps| ==> !ps[i].WaitsFor(pid)
  {
    OnlyIndex(s.procs, pid);
    EachAt(s.procs, Killed(pid));
    var q := Kill(s, pid).procs[IndexOf(s.procs, pid)];
    assert IsHolding(q, Parent(ParentOf(s.procs, pid)), pid, TIMEOUT_EXIT_CODE);
  }

  /** Reaping the zombie by its parent delivers the code; by anyone else it fails. */
  lemma ReapDelivers(s: Sched, parent: nat, child: nat, code: int, reaper: nat)
    requires Wf(s) && Held(s.procs, Parent(parent), child, code)
    ensures var (t, outcome) := ReapZombieChild(s, reaper, child);
            if reaper == parent then outcome == Reaped(child, code) && !Listed(t.procs, child)
            else outcome == Failed && t == s
  {
    OnlyIndex(s.procs, child);
    var k := IndexOf(s.procs, child);
    if reaper == parent {
      WithoutUnique(s.procs, k);
      EachIds(Without(s.procs, k), ChildRemoved(parent, child));
    }
  }

  lemma ZombieIds(ps: seq<Process>, parent: nat, x: nat)
    ensures x in ZombieChildren(ps, parent) <==> CanReap(ps, parent, x)
  {
    var zs := Keep(ps, ZombiesOf(parent));
    KeepContents(ps, ZombiesOf(parent));
    if x in Ids(zs) {
      var j :| 0 <= j < |zs| && Ids(zs)[j] == x;
      assert zs[j] in ps;
    }
    if i :| 0 <= i < |ps| && Reapable(ps[i], parent, x) {
      assert ps[i] in zs;
      var j :| 0 <= j < |zs| && zs[j] == ps[i];
      assert Ids(zs)[j] == x;
    }
  }

  lemma WithoutZombie(ps: seq<Process>, k: nat, parent: nat, x: nat)
    requires UniqueIds(ps) && k < |ps|
    ensures CanReap(Without(ps, k), parent, x) <==> CanReap(ps, parent, x) && x != ps[k].id
  {
    var r := Without(ps, k);
    OnlyIndex(ps, ps[k].id);
    if CanReap(r, parent, x) {
      var i :| 0 <= i < |r| && Reapable(r[i], parent, x);
      assert ps[if i < k then i else i + 1] == r[i];
    }
    if CanReap(ps, parent, x) && x != ps[k].id {
      var i :| 0 <= i < |ps| && Reapable(ps[i], parent, x);
      assert r[if i < k then i else i - 1] == ps[i];
    }
  }

  lemma ForgetZombie(ps: seq<Process>, parent: nat, child: nat, x: nat)
    ensures CanReap(Each(ps, ChildRemoved(parent, child)), parent, x) <==> CanReap(ps, parent, x)
  {
    var qs := Each(ps, ChildRemoved(parent, child));
    EachAt(ps, ChildRemoved(parent, child));
    if CanReap(qs, parent, x) {
      var i :| 0 <= i < |qs| && Reapable(qs[i], parent, x);
      assert Reapable(ps[i], parent, x);
    }
    if CanReap(ps, parent, x) {
      var i :| 0 <= i < |ps| && Reapable(ps[i], parent, x);
      assert Reapable(qs[i], parent, x);
    }
  }

  /** A delivering reap takes only the reaped child out of find_zombie_children. */
  lemma ReapTakesOnlyOne(s: Sched, parent: nat, child: nat, x: nat)
    requires Wf(s) && ReapZombieChild(s, parent, child).1.Reaped?
    ensures x in ZombieChildren(ReapZombieChild(s, parent, child).0.procs, parent) <==>
            x in ZombieChildren(s.procs, parent) && x != child
  {
    var k, t := IndexOf(s.procs, child), ReapZombieChild(s, parent, child).0;
    ZombieIds(s.procs, parent, x);
    ZombieIds(t.procs, parent, x);
    WithoutZombie(s.procs, k, parent, x);
    ForgetZombie(Without(s.procs, k), parent, child, x);
  }
}
