/** The process arms of the dispatcher in src/syscall.rs, starting from parsed arguments. */
module Syscalls {
  import opened Processes
  import opened SchedulerSpec
  import opened ProcessLists
  import opened SchedulerObject

  method Fork(sched: Scheduler) returns (outcome: Outcome)
    requires sched.Valid()
    modifies sched
    ensures sched.Valid() && (sched.State(), outcome) == SchedulerSpec.Fork(old(sched.State()))
  {
    if |sched.processes| == 0 || sched.processes[0].id != sched.currentPid {
      return Failed;
    }
    var parent := sched.processes[0];
    if !parent.WithinLimits() {
      return Failed;
    }
    if parent.stats.childrenCount >= parent.limits.maxProcesses {
      return Failed;
    }
    var child := sched.AllocatePid();
    var registered := sched.RegisterChild(sched.currentPid, child);
    outcome := if registered.Failed? then Failed else Forked(child);
  }

  method Wait4(sched: Scheduler, target: nat, statusPtr: nat, options: nat) returns (outcome: Outcome)
    requires sched.Valid()
    modifies sched
    ensures sched.Valid() && (sched.State(), outcome) ==
            SchedulerSpec.Wait4(old(sched.State()), target, statusPtr, options)
  {
    if target != ANY_CHILD && (target < 1000 || target > 10000) {
      return Failed;
    }
    if statusPtr != 0 && !ValidUserPointer(statusPtr, 4) {
      return Failed;
    }
    if options != 0 {
      return Failed;
    }
    var zombies := sched.FindZombieChildren(sched.currentPid);
    var child := 0;
    if target == ANY_CHILD {
      if |zombies| > 0 {
        child := zombies[0];
      }
    } else if target in zombies {
      child := target;
    }
    if child != 0 {
      outcome := sched.ReapZombieChild(sched.currentPid, child);
      return;
    }
    if |sched.processes| > 0 && sched.processes[0].id == sched.currentPid {
      var blocked := sched.processes[0].(state := Waiting(Child(target)));
      FrontIds(sched.processes, blocked);
      sched.processes := sched.processes[0 := blocked];
      RotateUnique(sched.processes);
      assert sched.processes[1..] + sched.processes[..1] == Rotate(sched.processes);
      sched.processes := sched.processes[1..] + sched.processes[..1];
      sched.currentPid := sched.processes[0].id;
      return Blocked(sched.processes[0].contextPtr);
    }
    outcome := Failed;
  }

  method SchedYield(sched: Scheduler) returns (outcome: Outcome)
    requires sched.Valid()
    modifies sched
    ensures sched.Valid() && (sched.State(), outcome) == Yield(old(sched.State()))
  {
    if |sched.processes| > 0 && sched.processes[0].id == sched.currentPid {
      var yielding := sched.processes[0].(state := Ready);
      FrontIds(sched.processes, yielding);
      sched.processes := sched.processes[0 := yielding];
    }
    outcome := Done;
  }

  method Exit(sched: Scheduler, arg: nat) returns (outcome: Outcome)
    requires sched.Valid()
    modifies sched
    ensures sched.Valid() && (sched.State(), outcome) == SchedulerSpec.Exit(old(sched.State()), arg)
  {
    var code := AsI32(arg);
    if code < -255 || code > 255 {
      return Failed;
    }
    outcome := sched.HandleProcessExit(sched.currentPid, code);
    if outcome.Failed? {
      return;
    }
    sched.currentPid := 0;
  }
}
