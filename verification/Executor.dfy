/** The executor of src/task/executor.rs as a machine of atomic steps: the drain loop, interrupt handlers
    that wake tasks, and the check-then-halt that closes the race between them. */
module Executor {

  const CAPACITY: nat := 100

  datatype Cpu =
    | Draining            // in run_ready_tasks, between two pops
    | Polling(id: nat)    // inside the poll of a task
    | Leaving             // the queue was found empty; interrupts are still on
    | IrqOff              // sleep_if_idle has disabled interrupts
    | Halted              // enable_and_hlt
    | Panicked            // a push on a full queue

  /** `tasks`: spawned and unfinished; `cache`: ids with a cached waker; `unserved`: ids woken and not popped
      since; `finished`: ids whose poll returned Ready. */
  datatype State = State(
    tasks: set<nat>, queue: seq<nat>, cache: set<nat>, cpu: Cpu, unserved: set<nat>, finished: set<nat>, nextId: nat)

  datatype Step =
    | Spawn
    | WakeTask(id: nat)
    | Interrupt
    | Pop
    | Finish(ready: bool)
    | DisableIrq
    | CheckAndHalt

  predicate InterruptsOn(s: State) {
    s.cpu.Draining? || s.cpu.Polling? || s.cpu.Leaving? || s.cpu.Halted?
  }

  ghost predicate Enabled(s: State, step: Step) {
    match step
    case Spawn => s.cpu.Draining?
    case WakeTask(_) => InterruptsOn(s)
    case Interrupt => InterruptsOn(s)
    case Pop => s.cpu.Draining?
    case Finish(_) => s.cpu.Polling?
    case DisableIrq => s.cpu.Leaving?
    case CheckAndHalt => s.cpu.IrqOff?
  }

  /** Any interrupt takes the CPU out of its halt, and the run loop goes on draining. */
  function Resume(cpu: Cpu): Cpu {
    if cpu.Halted? then Draining else cpu
  }

  /** `TaskWaker::wake_task`, from a handler if the CPU was halted. */
  function PushTask(s: State, id: nat): State {
    if |s.queue| >= CAPACITY then s.(cpu := Panicked)
    else s.(queue := s.queue + [id], unserved := s.unserved + {id}, cpu := Resume(s.cpu))
  }

  function PopTask(s: State): State {
    if s.queue == [] then s.(cpu := Leaving)
    else
      var id := s.queue[0];
      var popped := s.(queue := s.queue[1..], unserved := s.unserved - {id});
      if id in s.tasks then popped.(cache := s.cache + {id}, cpu := Polling(id)) else popped
  }

  function FinishPoll(s: State, ready: bool): State {
    if !s.cpu.Polling? then s
    else if ready then
      s.(tasks := s.tasks - {s.cpu.id}, cache := s.cache - {s.cpu.id}, finished := s.finished + {s.cpu.id},
         cpu := Draining)
    else
      s.(cpu := Draining)
  }

  function Next(s: State, step: Step): State {
    match step
    case Spawn => PushTask(s.(tasks := s.tasks + {s.nextId}, nextId := s.nextId + 1), s.nextId)
    case WakeTask(id) => PushTask(s, id)
    case Interrupt => s.(cpu := Resume(s.cpu))
    case Pop => PopTask(s)
    case Finish(ready) => FinishPoll(s, ready)
    case DisableIrq => s.(cpu := IrqOff)
    case CheckAndHalt => s.(cpu := if s.queue == [] then Halted else Draining)
  }

  const INIT: State := State({}, [], {}, Draining, {}, {}, 0)

  function Run(s: State, steps: seq<Step>): State
    decreases |steps|
  {
    if steps == [] then s else Run(Next(s, steps[0]), steps[1..])
  }

  ghost predicate Possible(s: State, steps: seq<Step>)
    decreases |steps|
  {
    steps == [] || (Enabled(s, steps[0]) && Possible(Next(s, steps[0]), steps[1..]))
  }

  ghost predicate Inv(s: State) {
    && s.cache <= s.tasks
    && (s.cpu.Polling? ==> s.cpu.id in s.tasks && s.cpu.id in s.cache)
    && s.finished !! s.tasks
    && (forall id :: id in s.finished || id in s.tasks ==> id < s.nextId)
    && (!s.cpu.Panicked? ==> forall id :: id in s.unserved ==> id in s.queue)
    && (s.cpu.Halted? ==> s.queue == [])
    && |s.queue| <= CAPACITY
  }

  lemma StepKeepsInv(s: State, step: Step)
    requires Inv(s) && Enabled(s, step)
    ensures Inv(Next(s, step))
    ensures s.finished <= Next(s, step).finished
  {
  }

  lemma {:induction false} RunKeepsInv(s: State, steps: seq<Step>)
    requires Inv(s) && Possible(s, steps)
    ensures Inv(Run(s, steps)) && s.finished <= Run(s, steps).finished
    decreases |steps|
  {
    if steps != [] {
      StepKeepsInv(s, steps[0]);
      RunKeepsInv(Next(s, steps[0]), steps[1..]);
    }
  }

  /** The CPU never halts while a task has a wake that has not been served, whatever the interrupts do;
      and wakers are cached only for live tasks. */
  lemma NeverHaltsOnPendingWake(steps: seq<Step>)
    requires Possible(INIT, steps)
    ensures var s := Run(INIT, steps);
            (s.cpu.Halted? ==> s.unserved == {}) && s.cache <= s.tasks
  {
    RunKeepsInv(INIT, steps);
  }

  /** Once its poll has returned Ready a task is never polled again, however often it is woken. */
  lemma FinishedTasksStayFinished(steps: seq<Step>, more: seq<Step>, id: nat)
    requires Possible(INIT, steps) && Possible(Run(INIT, steps), more)
    requires id in Run(INIT, steps).finished
    ensures Run(Run(INIT, steps), more).cpu != Polling(id)
  {
    RunKeepsInv(INIT, steps);
    RunKeepsInv(Run(INIT, steps), more);
  }

  // ----- the order of wakes

  /** The ids pushed and popped by a run, in order. */
  function Pushed(s: State, steps: seq<Step>): seq<nat>
    decreases |steps|
  {
    if steps == [] then [] else PushedBy(s, steps[0]) + Pushed(Next(s, steps[0]), steps[1..])
  }

  function PushedBy(s: State, step: Step): seq<nat> {
    if |s.queue| >= CAPACITY then []
    else match step
         case Spawn => [s.nextId]
         case WakeTask(id) => [id]
         case _ => []
  }

  function PoppedBy(s: State, step: Step): seq<nat> {
    if step.Pop? && s.queue != [] then [s.queue[0]] else []
  }

  function Popped(s: State, steps: seq<Step>): seq<nat>
    decreases |steps|
  {
    if steps == [] then [] else PoppedBy(s, steps[0]) + Popped(Next(s, steps[0]), steps[1..])
  }

  /** Wakes are served in the order they come, each once: what was queued and pushed is what was popped, followed
      by what is queued. */
  lemma {:induction false} WakesAreServedInOrder(s: State, steps: seq<Step>)
    requires Possible(s, steps)
    ensures s.queue + Pushed(s, steps) == Popped(s, steps) + Run(s, steps).queue
    decreases |steps|
  {
    if steps != [] {
      var t := Next(s, steps[0]);
      WakesAreServedInOrder(t, steps[1..]);
      var pushed, popped := PushedBy(s, steps[0]), PoppedBy(s, steps[0]);
      OneStepInOrder(s, steps[0]);
      hide Next, PushedBy, PoppedBy;
      JoinQueues(s.queue, pushed, Pushed(t, steps[1..]), popped, t.queue, Popped(t, steps[1..]), Run(s, steps).queue);
    }
  }

  lemma JoinQueues(q: seq<nat>, pushed: seq<nat>, later: seq<nat>, popped: seq<nat>, mid: seq<nat>,
                   gone: seq<nat>, last: seq<nat>)
    requires q + pushed == popped + mid && mid + later == gone + last
    ensures q + (pushed + later) == (popped + gone) + last
  {
    assert q + (pushed + later) == (q + pushed) + later;
    assert (popped + mid) + later == popped + (mid + later);
    assert popped + (gone + last) == (popped + gone) + last;
  }

  lemma OneStepInOrder(s: State, step: Step)
    requires Enabled(s, step)
    ensures s.queue + PushedBy(s, step) == PoppedBy(s, step) + Next(s, step).queue
  {
  }

  /** What one step does: a pop polls the oldest id if its task is alive and drops it otherwise, an empty queue ends
      the loop, a poll that is ready ends its task and no other, and the 101st waiting wake panics. */
  lemma StepAnswers(s: State, step: Step)
    requires Enabled(s, step)
    ensures var t := Next(s, step);
            && (step.Pop? && s.queue == [] ==> t == s.(cpu := Leaving))
            && (step.Pop? && s.queue != [] ==>
                  && t.queue == s.queue[1..] && t.tasks == s.tasks
                  && t.cache == (if s.queue[0] in s.tasks then s.cache + {s.queue[0]} else s.cache)
                  && t.cpu == if s.queue[0] in s.tasks then Polling(s.queue[0]) else Draining)
            && (step.Finish? ==>
                  && t.cpu == Draining && t.queue == s.queue
                  && t.cache == (if step.ready then s.cache - {s.cpu.id} else s.cache)
                  && t.tasks == (if step.ready then s.tasks - {s.cpu.id} else s.tasks)
                  && t.finished == if step.ready then s.finished + {s.cpu.id} else s.finished)
            && (step.Spawn? ==> t.tasks == s.tasks + {s.nextId} && t.nextId == s.nextId + 1)
            && (step.Spawn? || step.WakeTask? ==> (t.cpu == Panicked <==> |s.queue| >= 100))
            && (step.DisableIrq? ==> t == s.(cpu := IrqOff) && !Enabled(t, Interrupt))
            && (step.DisableIrq? ==> forall id :: !Enabled(t, WakeTask(id)))
            && (step.CheckAndHalt? ==> t == s.(cpu := if s.queue == [] then Halted else Draining))
            && (s.cpu.Halted? && t.cpu != Panicked ==> t.cpu == Draining)
  {
  }

  /** The machine does halt, and comes back: an idle executor drains, halts, is woken and polls. */
  lemma IdleExecutorHaltsAndResumes()
    ensures var idle := [Spawn, Pop, Finish(false), Pop, DisableIrq, CheckAndHalt];
            var woken := [WakeTask(0), Pop];
            && Possible(INIT, idle) && Run(INIT, idle).cpu == Halted
            && Possible(Run(INIT, idle), woken) && Run(Run(INIT, idle), woken).cpu == Polling(0)
  {
    var idle := [Spawn, Pop, Finish(false), Pop, DisableIrq, CheckAndHalt];
    var s1 := Next(INIT, Spawn);
    var s2 := Next(s1, Pop);
    var s3 := Next(s2, Finish(false));
    var s4 := Next(s3, Pop);
    var s5 := Next(s4, DisableIrq);
    var s6 := Next(s5, CheckAndHalt);
    assert s1 == State({0}, [0], {}, Draining, {0}, {}, 1);
    assert s2 == State({0}, [], {0}, Polling(0), {}, {}, 1);
    assert s4 == State({0}, [], {0}, Leaving, {}, {}, 1);
    Then(s5, CheckAndHalt, []);
    Then(s4, DisableIrq, [CheckAndHalt]);
    Then(s3, Pop, [DisableIrq, CheckAndHalt]);
    Then(s2, Finish(false), [Pop, DisableIrq, CheckAndHalt]);
    Then(s1, Pop, [Finish(false), Pop, DisableIrq, CheckAndHalt]);
    Then(INIT, Spawn, [Pop, Finish(false), Pop, DisableIrq, CheckAndHalt]);
    assert [CheckAndHalt] == [CheckAndHalt] + [];
    Then(Next(s6, WakeTask(0)), Pop, []);
    Then(s6, WakeTask(0), [Pop]);
  }

  lemma Then(s: State, step: Step, rest: seq<Step>)
    ensures Run(s, [step] + rest) == Run(Next(s, step), rest)
    ensures Possible(s, [step] + rest) <==> Enabled(s, step) && Possible(Next(s, step), rest)
  {
    assert ([step] + rest)[1..] == rest;
  }

  // ----- the drain loop

  /** One iteration of the loop: the ids woken by interrupts before the pop, and, if the popped task is alive,
      the ids woken during its poll and the poll's result. */
  datatype Round = Round(arrivals: seq<nat>, wakes: seq<nat>, ready: bool)

  function WakeAll(s: State, ids: seq<nat>): State
    decreases |ids|
  {
    if ids == [] || s.cpu.Panicked? then s else WakeAll(PushTask(s, ids[0]), ids[1..])
  }

  /** The loop of run_ready_tasks, as far as the rounds go; it ends when a pop finds the queue empty. */
  function Drain(s: State, rounds: seq<Round>): State
    decreases |rounds|
  {
    if rounds == [] || !s.cpu.Draining? then s
    else
      var arrived := WakeAll(s, rounds[0].arrivals);
      if !arrived.cpu.Draining? then arrived
      else
        var popped := PopTask(arrived);
        var polled :=
          if popped.cpu.Polling? then FinishPoll(WakeAll(popped, rounds[0].wakes), rounds[0].ready) else popped;
        Drain(polled, rounds[1..])
  }

  lemma {:induction false} RunJoin(s: State, a: seq<Step>, b: seq<Step>)
    requires Possible(s, a) && Possible(Run(s, a), b)
    ensures Possible(s, a + b) && Run(s, a + b) == Run(Run(s, a), b)
    decreases |a|
  {
    if a == [] {
      assert a + b == b;
    } else {
      RunJoin(Next(s, a[0]), a[1..], b);
      assert (a + b)[1..] == a[1..] + b;
    }
  }

  lemma {:induction false} WakeAllIsRun(s: State, ids: seq<nat>) returns (steps: seq<Step>)
    requires s.cpu.Polling? || s.cpu.Draining?
    ensures Possible(s, steps) && Run(s, steps) == WakeAll(s, ids)
    ensures WakeAll(s, ids).cpu.Panicked? || WakeAll(s, ids).cpu == s.cpu
    decreases |ids|
  {
    if ids == [] {
      steps := [];
    } else {
      var t := PushTask(s, ids[0]);
      var rest := [];
      if !t.cpu.Panicked? {
        rest := WakeAllIsRun(t, ids[1..]);
      }
      steps := [WakeTask(ids[0])] + rest;
      assert steps[1..] == rest;
    }
  }

  lemma OneStep(s: State, step: Step)
    requires Enabled(s, step)
    ensures Possible(s, [step]) && Run(s, [step]) == Next(s, step)
  {
    assert [step][1..] == [];
  }

  /** The drain loop is a run of the machine, so everything proved of runs holds of it. */
  lemma {:induction false} DrainIsRun(s: State, rounds: seq<Round>) returns (steps: seq<Step>)
    ensures Possible(s, steps) && Run(s, steps) == Drain(s, rounds)
    decreases |rounds|
  {
    steps := [];
    if rounds != [] && s.cpu.Draining? {
      hide PushTask, PopTask;
      steps := WakeAllIsRun(s, rounds[0].arrivals);
      var arrived := WakeAll(s, rounds[0].arrivals);
      if arrived.cpu.Draining? {
        OneStep(arrived, Pop);
        RunJoin(s, steps, [Pop]);
        steps := steps + [Pop];
        var popped := PopTask(arrived);
        var polled := popped;
        if popped.cpu.Polling? {
          var poll := PollIsRun(popped, rounds[0]);
          RunJoin(s, steps, poll);
          steps := steps + poll;
          polled := FinishPoll(WakeAll(popped, rounds[0].wakes), rounds[0].ready);
        }
        var rest := DrainIsRun(polled, rounds[1..]);
        RunJoin(s, steps, rest);
        steps := steps + rest;
      }
    }
  }

  lemma PollIsRun(s: State, round: Round) returns (steps: seq<Step>)
    requires s.cpu.Polling?
    ensures Possible(s, steps) && Run(s, steps) == FinishPoll(WakeAll(s, round.wakes), round.ready)
  {
    steps := WakeAllIsRun(s, round.wakes);
    var woken := WakeAll(s, round.wakes);
    if woken.cpu.Polling? {
      OneStep(woken, Finish(round.ready));
      RunJoin(s, steps, [Finish(round.ready)]);
      steps := steps + [Finish(round.ready)];
    }
  }

  /** The run stays in the loop, between pops or in a poll, until its last step; nobody can spawn meanwhile. */
  ghost predicate InLoop(s: State, steps: seq<Step>)
    decreases |steps|
  {
    steps == [] || ((s.cpu.Draining? || s.cpu.Polling?) && !steps[0].Spawn? && InLoop(Next(s, steps[0]), steps[1..]))
  }

  /** A round with one more arrival in front. */
  function Arrive(id: nat, round: Round): Round {
    round.(arrivals := [id] + round.arrivals)
  }

  /** Conversely every execution of the loop that is not in the middle of a poll is given by some rounds, and
      by the ids `late` woken since the last of them. */
  lemma {:induction false} LoopIsDrain(s: State, steps: seq<Step>) returns (rounds: seq<Round>, late: seq<nat>)
    requires s.cpu.Draining? && Possible(s, steps) && InLoop(s, steps) && !Run(s, steps).cpu.Polling?
    ensures Run(s, steps) == WakeAll(Drain(s, rounds), late)
    ensures late != [] ==> Drain(s, rounds).cpu.Draining?
    decreases |steps|
  {
    rounds, late := [], [];
    if steps != [] {
      var t := Next(s, steps[0]);
      match steps[0] {
        case WakeTask(id) =>
          if t.cpu.Panicked? {
            late := [id];
            PanicStays(t, steps[1..]);
          } else {
            rounds, late := LoopIsDrain(t, steps[1..]);
            if rounds == [] {
              late := [id] + late;
            } else {
              ArriveFirst(s, id, rounds);
              rounds := [Arrive(id, rounds[0])] + rounds[1..];
            }
          }
        case Interrupt =>
          rounds, late := LoopIsDrain(t, steps[1..]);
        case Pop =>
          if t.cpu.Polling? {
            var round: Round;
            round, rounds, late := PollIsRound(t, steps[1..]);
            rounds := [round] + rounds;
          } else {
            if t.cpu.Draining? {
              rounds, late := LoopIsDrain(t, steps[1..]);
            }
            rounds := [Round([], [], false)] + rounds;
          }
        case _ =>
      }
    }
  }

  lemma PollIsRound(s: State, steps: seq<Step>) returns (round: Round, rounds: seq<Round>, late: seq<nat>)
    requires s.cpu.Polling? && Possible(s, steps) && InLoop(s, steps) && !Run(s, steps).cpu.Polling?
    ensures round.arrivals == []
    ensures var polled := FinishPoll(WakeAll(s, round.wakes), round.ready);
            && Run(s, steps) == WakeAll(Drain(polled, rounds), late)
            && (late != [] ==> Drain(polled, rounds).cpu.Draining?)
    decreases |steps|
  {
    var t := Next(s, steps[0]);
    match steps[0] {
      case WakeTask(id) =>
        if t.cpu.Panicked? {
          round, rounds, late := Round([], [id], false), [], [];
          PanicStays(t, steps[1..]);
        } else {
          round, rounds, late := PollIsRound(t, steps[1..]);
          round := round.(wakes := [id] + round.wakes);
        }
      case Interrupt =>
        round, rounds, late := PollIsRound(t, steps[1..]);
      case Finish(ready) =>
        round := Round([], [], ready);
        rounds, late := LoopIsDrain(t, steps[1..]);
      case _ =>
    }
  }

  /** A panic is the last step. */
  lemma PanicStays(s: State, steps: seq<Step>)
    requires s.cpu.Panicked? && Possible(s, steps)
    ensures steps == []
  {
  }

  lemma ArriveFirst(s: State, id: nat, rounds: seq<Round>)
    requires s.cpu.Draining? && rounds != [] && !PushTask(s, id).cpu.Panicked?
    ensures Drain(s, [Arrive(id, rounds[0])] + rounds[1..]) == Drain(PushTask(s, id), rounds)
  {
    var more := [Arrive(id, rounds[0])] + rounds[1..];
    assert more[1..] == rounds[1..] && more[0].arrivals[1..] == rounds[0].arrivals;
    assert WakeAll(s, more[0].arrivals) == WakeAll(PushTask(s, id), rounds[0].arrivals);
  }

  class ExecutorObject {
    var tasks: set<nat>
    var taskQueue: seq<nat>
    var wakerCache: set<nat>
    var nextId: nat
    var cpu: Cpu
    ghost var unserved: set<nat>
    ghost var finished: set<nat>

    ghost function View(): State
      reads this
    {
      State(tasks, taskQueue, wakerCache, cpu, unserved, finished, nextId)
    }

    constructor ()
      ensures View() == INIT
    {
      tasks, taskQueue, wakerCache, nextId, cpu := {}, [], {}, 0, Draining;
      unserved, finished := {}, {};
    }

    method PushId(id: nat)
      modifies this
      ensures View() == PushTask(old(View()), id)
    {
      if |taskQueue| >= CAPACITY {
        cpu := Panicked;
      } else {
        taskQueue, unserved := taskQueue + [id], unserved + {id};
        cpu := Resume(cpu);
      }
    }

    method SpawnTask()
      requires cpu.Draining?
      modifies this
      ensures View() == Next(old(View()), Spawn)
    {
      var id := nextId;
      tasks, nextId := tasks + {id}, nextId + 1;
      PushId(id);
    }

    method WakeIds(ids: seq<nat>)
      modifies this
      ensures View() == WakeAll(old(View()), ids)
    {
      var i := 0;
      while i < |ids| && !cpu.Panicked?
        invariant i <= |ids|
        invariant WakeAll(View(), ids[i..]) == WakeAll(old(View()), ids)
      {
        assert ids[i..][1..] == ids[i + 1..];
        PushId(ids[i]);
        i := i + 1;
      }
    }

    /** One poll of the popped task, with the wakes that arrive during it. */
    method PollTask(round: Round)
      requires cpu.Polling?
      modifies this
      ensures View() == FinishPoll(WakeAll(old(View()), round.wakes), round.ready)
    {
      WakeIds(round.wakes);
      if cpu.Polling? {
        if round.ready {
          tasks, wakerCache, finished := tasks - {cpu.id}, wakerCache - {cpu.id}, finished + {cpu.id};
        }
        cpu := Draining;
      }
    }

    /** The loop, whose iterations go as the rounds say. */
    method RunReadyTasks(rounds: seq<Round>)
      modifies this
      ensures View() == Drain(old(View()), rounds)
    {
      var r := 0;
      while r < |rounds| && cpu.Draining?
        invariant r <= |rounds|
        invariant Drain(View(), rounds[r..]) == Drain(old(View()), rounds)
      {
        assert rounds[r..][1..] == rounds[r + 1..];
        WakeIds(rounds[r].arrivals);
        if !cpu.Draining? {
          return;
        }
        if |taskQueue| == 0 {
          cpu := Leaving;
        } else {
          var id := taskQueue[0];
          taskQueue, unserved := taskQueue[1..], unserved - {id};
          if id in tasks {
            wakerCache, cpu := wakerCache + {id}, Polling(id);
            PollTask(rounds[r]);
          }
        }
        r := r + 1;
      }
    }
  }
}
