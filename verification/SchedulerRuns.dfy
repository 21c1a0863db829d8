/** Pids over whole runs: which processes are listed, and who may leave. */
module SchedulerRuns {
  import opened Processes
  import opened SchedulerSpec
  import opened ProcessLists

  /** Pids are distinct and none is 0. */
  ghost predicate Wf(s: Sched) {
    UniqueIds(s.procs) && !Listed(s.procs, 0)
  }

  /** The caller of add_process brings a new pid. */
  ghost predicate Fresh(s: Sched, step: Step) {
    step.Do? && step.op.AddOp? ==> step.op.p.id != 0 && !Listed(s.procs, step.op.p.id)
  }

  function Entered(step: Step): multiset<nat> {
    if step.Do? && step.op.AddOp? then multiset{step.op.p.id} else multiset{}
  }

  function Gone(step: Step, outcome: Outcome): multiset<nat> {
    if outcome.Reaped? then multiset{outcome.child}
    else if step.Do? && step.op.CleanupOp? && outcome.Done? then multiset{step.op.pid}
    else multiset{}
  }

  function Pids(s: Sched): multiset<nat> {
    multiset(Ids(s.procs))
  }

  /** `t` lists distinct nonzero pids: those of `s`, with `entered` added and `gone` taken away. */
  ghost predicate Conserved(s: Sched, t: Sched, entered: multiset<nat>, gone: multiset<nat>) {
    Wf(t) && Pids(t) + gone == Pids(s) + entered
  }

  lemma AddIds(s: Sched, p: Process)
    requires Wf(s) && p.id != 0 && !Listed(s.procs, p.id)
    ensures Conserved(s, AddProcess(s, p), multiset{p.id}, multiset{})
  {
    BackUnique(s.procs, p);
    assert Ids(s.procs + [p]) == Ids(s.procs) + [p.id];
  }

  lemma IdsAppend(ps: seq<Process>, qs: seq<Process>)
    ensures Ids(ps + qs) == Ids(ps) + Ids(qs)
  {
  }

  lemma IdsWithout(ps: seq<Process>, k: nat)
    requires k < |ps|
    ensures Ids(Without(ps, k)) == Ids(ps)[..k] + Ids(ps)[k + 1..]
  {
    IdsAppend(ps[..k], ps[k + 1..]);
    assert Ids(ps[..k]) == Ids(ps)[..k];
    assert Ids(ps[k + 1..]) == Ids(ps)[k + 1..];
  }

  lemma CutOut(ids: seq<nat>, k: nat)
    requires k < |ids|
    ensures multiset(ids) == multiset(ids[..k] + ids[k + 1..]) + multiset{ids[k]}
  {
    assert ids == ids[..k] + ([ids[k]] + ids[k + 1..]);
  }

  lemma RemovalIds(ps: seq<Process>, k: nat)
    requires UniqueIds(ps) && !Listed(ps, 0) && k < |ps|
    ensures UniqueIds(Without(ps, k)) && !Listed(Without(ps, k), 0)
    ensures multiset(Ids(ps)) == multiset(Ids(Without(ps, k))) + multiset{ps[k].id}
  {
    WithoutUnique(ps, k);
    IdsWithout(ps, k);
    CutOut(Ids(ps), k);
    assert Ids(ps)[k] == ps[k].id;
  }

  lemma ScheduleIds(s: Sched, context: nat)
    requires Wf(s)
    ensures Conserved(s, Schedule(s, context).0, multiset{}, multiset{})
  {
    var k := FirstRunnable(s.procs);
    if k < |s.procs| {
      var rest := Without(s.procs, k);
      RemovalIds(s.procs, k);
      WithoutUnique(s.procs, k);
      PreemptIds(rest, context);
      var next := s.procs[k].(state := Running);
      FrontUnique(next, Preempt(rest, context));
      assert Ids([next] + Preempt(rest, context)) == [next.id] + Ids(rest);
      assert Listed(s.procs, next.id) by { assert Ids(s.procs)[k] == next.id; }
    } else if s.procs != [] {
      RotationIds(s.procs[0 := s.procs[0].(contextPtr := context)], s.procs);
    }
  }

  lemma RotationIds(qs: seq<Process>, ps: seq<Process>)
    requires qs != [] && UniqueIds(ps) && |qs| == |ps| && qs[0].id == ps[0].id && qs[1..] == ps[1..]
    ensures UniqueIds(Rotate(qs)) && multiset(Ids(Rotate(qs))) == multiset(Ids(ps))
    ensures forall x :: Listed(Rotate(qs), x) <==> Listed(ps, x)
  {
    assert Ids(qs) == Ids(ps);
    RotateUnique(qs);
    var ids := Ids(qs);
    assert Ids(Rotate(qs)) == ids[1..] + [ids[0]];
    assert ids == [ids[0]] + ids[1..];
  }

  lemma Wait4Ids(s: Sched, target: nat, statusPtr: nat, options: nat)
    requires Wf(s)
    ensures var (t, outcome) := Wait4(s, target, statusPtr, options);
            Conserved(s, t, multiset{}, if outcome.Reaped? then multiset{outcome.child} else multiset{})
  {
    if ValidWait(target, statusPtr, options) {
      var child := WaitChoice(s.procs, s.current, target);
      if child != 0 {
        ReapIds(s, s.current, child);
      } else if FrontIsCurrent(s) {
        RotationIds(s.procs[0 := s.procs[0].(state := Waiting(Child(target)))], s.procs);
      }
    }
  }

  lemma ReapIds(s: Sched, parent: nat, child: nat)
    requires Wf(s)
    ensures var (t, outcome) := ReapZombieChild(s, parent, child);
            Conserved(s, t, multiset{}, if outcome.Reaped? then multiset{outcome.child} else multiset{})
  {
    var k := IndexOf(s.procs, child);
    if k < |s.procs| && Reapable(s.procs[k], parent, child) {
      RemovalIds(s.procs, k);
      EachIds(Without(s.procs, k), ChildRemoved(parent, child));
    }
  }

  lemma CleanupIds(s: Sched, pid: nat)
    requires Wf(s)
    ensures var (t, outcome) := CleanupTerminated(s, pid);
            Conserved(s, t, multiset{}, if outcome.Done? then multiset{pid} else multiset{})
  {
    var k := IndexOf(s.procs, pid);
    if k < |s.procs| && s.procs[k].state.Zombie? {
      RemovalIds(s.procs, k);
    }
  }

  lemma RegisterIds(s: Sched, parent: nat, child: nat)
    requires Wf(s)
    ensures Conserved(s, RegisterChild(s, parent, child).0, multiset{}, multiset{})
  {
    EachIds(s.procs, ChildAdded(parent, child));
  }

  lemma ExitIds(s: Sched, pid: nat, code: int)
    requires Wf(s)
    ensures Conserved(s, HandleExit(s, pid, code).0, multiset{}, multiset{})
  {
    EachIds(s.procs, Exited(s.tree, pid, ParentOf(s.procs, pid), code));
  }

  lemma ForkIds(s: Sched)
    requires Wf(s)
    ensures Conserved(s, Fork(s).0, multiset{}, multiset{})
  {
    RegisterIds(s.(nextPid := s.nextPid + 1), s.current, s.nextPid);
  }

  lemma YieldIds(s: Sched)
    requires Wf(s)
    ensures Conserved(s, Yield(s).0, multiset{}, multiset{})
  {
  }

  lemma ExitCallIds(s: Sched, arg: nat)
    requires Wf(s)
    ensures Conserved(s, Exit(s, arg).0, multiset{}, multiset{})
  {
    ExitIds(s, s.current, AsI32(arg));
  }

  lemma KillIds(s: Sched, pid: nat)
    requires Wf(s)
    ensures Conserved(s, Kill(s, pid), multiset{}, multiset{})
  {
    EachIds(s.procs, Killed(pid));
  }

  /** Only zombies leave: reaping and cleaning up remove nothing else. */
  lemma OnlyZombiesLeave(s: Sched, step: Step, pid: nat)
    requires Wf(s) && pid in Gone(step, Apply(s, step).1)
    ensures exists i :: 0 <= i < |s.procs| && s.procs[i].id == pid && s.procs[i].state.Zombie?
  {
  }

  /** A schedule moves the first runnable process to the front and leaves the others in order;
      with nothing runnable it rotates the list by one. */
  lemma ScheduleOrder(s: Sched, context: nat)
    ensures var t := Schedule(s, context).0;
            var k := FirstRunnable(s.procs);
            Ids(t.procs) == if k < |s.procs| then [Ids(s.procs)[k]] + Ids(s.procs)[..k] + Ids(s.procs)[k + 1..]
                            else if s.procs == [] then []
                            else Ids(s.procs)[1..] + [Ids(s.procs)[0]]
  {
    var k := FirstRunnable(s.procs);
    if k < |s.procs| {
      var next := s.procs[k].(state := Running);
      var rest := Without(s.procs, k);
      IdsWithout(s.procs, k);
      PreemptIds(rest, context);
      assert Ids([next] + Preempt(rest, context)) == [next.id] + Ids(rest);
    } else if s.procs != [] {
      var qs := s.procs[0 := s.procs[0].(contextPtr := context)];
      FrontIds(s.procs, qs[0]);
      assert Ids(Rotate(qs)) == Ids(qs)[1..] + [Ids(qs)[0]];
    }
  }

  // ----- cleanup_all_zombies

  ghost function CleanupSteps(pids: seq<nat>): seq<Step> {
    if pids == [] then [] else CleanupSteps(pids[..|pids| - 1]) + [Do(CleanupOp(pids[|pids| - 1]))]
  }

  lemma {:induction false} RunAppend(s: Sched, steps: seq<Step>, last: Step)
    ensures Run(s, steps + [last]) == Apply(Run(s, steps), last).0
    decreases |steps|
  {
    if steps == [] {
      assert Run(s, [last]) == Run(Apply(s, last).0, [last][1..]);
    } else {
      RunAppend(Apply(s, steps[0]).0, steps[1..], last);
      assert (steps + [last])[1..] == steps[1..] + [last];
    }
  }

  /** cleanup_all_zombies is a run of single clean-ups, so what holds of all runs holds of it. */
  lemma {:induction false} CleanupEachIsRun(s: Sched, pids: seq<nat>)
    ensures CleanupEach(s, pids).0 == Run(s, CleanupSteps(pids))
  {
    if pids != [] {
      CleanupEachIsRun(s, pids[..|pids| - 1]);
      RunAppend(s, CleanupSteps(pids[..|pids| - 1]), Do(CleanupOp(pids[|pids| - 1])));
    }
  }
}
