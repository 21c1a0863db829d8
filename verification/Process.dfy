/** The process record of src/process/mod.rs and the operations a process performs on itself.

    Pids, addresses and counters are unbounded naturals; the places where 64-bit width matters to
    the process code are the constants below. */
module Processes {
  import opened Basics

  /** `u64::MAX`, the wait4 target that stands for "any child". */
  const ANY_CHILD: nat := U64_VALUES - 1

  datatype WaitReason =
    | Child(pid: nat)
    | IpcReceive(channel: nat)
    | IpcSend(channel: nat)
    | Sleep(ticks: nat)
    | AsyncPoll

  datatype ProcessState = Running | Ready | Waiting(reason: WaitReason) | Zombie | Stopped

  datatype Limits = Limits(maxMemory: nat, maxCpuTime: nat, maxProcesses: nat, maxFiles: nat)

  datatype Stats = Stats(cpuTimeUsed: nat, memoryUsed: nat, childrenCount: nat, filesOpened: nat)

  datatype Process = Process(
    id: nat,
    contextPtr: nat,
    pageTableFrame: nat,
    state: ProcessState,
    parentId: nat,
    children: seq<nat>,
    exitCode: int,
    priority: nat,
    limits: Limits,
    stats: Stats)
  {
    predicate Runnable() {
      state.Ready? || state.Running?
    }

    /** Parked in wait4 on a target that the death of `pid` satisfies. */
    predicate WaitsFor(pid: nat) {
      state.Waiting? && state.reason.Child? && (state.reason.pid == pid || state.reason.pid == ANY_CHILD)
    }

    predicate WithinLimits() {
      && stats.memoryUsed <= limits.maxMemory
      && stats.cpuTimeUsed <= limits.maxCpuTime
      && stats.childrenCount <= limits.maxProcesses
      && stats.filesOpened <= limits.maxFiles
    }

    predicate CanAddChild() {
      stats.childrenCount < limits.maxProcesses
    }

    function AddChild(child: nat): Process {
      this.(children := children + [child],
            stats := stats.(childrenCount := stats.childrenCount + 1))
    }

    function RemoveChild(child: nat): Process {
      if child in children then
        this.(children := RemoveFirst(children, child),
              stats := stats.(childrenCount := if stats.childrenCount == 0 then 0 else stats.childrenCount - 1))
      else
        this
    }

    function Exit(code: int): Process {
      this.(state := Zombie, exitCode := code)
    }

    function MakeOrphan(): Process {
      this.(parentId := 0)
    }

    /** Becomes ready if it was waiting for the death of `pid`. */
    function WakeFrom(pid: nat): Process {
      if WaitsFor(pid) then this.(state := Ready) else this
    }
  }

  predicate ValidExitCode(code: int) {
    -255 <= code <= 255
  }

  /** `position` followed by `remove`: the sequence without the first occurrence of `x`. */
  function RemoveFirst(s: seq<nat>, x: nat): seq<nat> {
    if s == [] then []
    else if s[0] == x then s[1..]
    else [s[0]] + RemoveFirst(s[1..], x)
  }

  lemma {:induction false} RemoveFirstAbsent(s: seq<nat>, x: nat)
    requires x !in s
    ensures RemoveFirst(s, x) == s
  {
    if s != [] {
      RemoveFirstAbsent(s[1..], x);
    }
  }

  lemma ConsMultiset(x: nat, s: seq<nat>)
    ensures multiset([x] + s) == multiset{x} + multiset(s)
  {
  }

  lemma {:induction false} RemoveFirstPresent(s: seq<nat>, x: nat)
    requires x in s
    ensures multiset(s) == multiset(RemoveFirst(s, x)) + multiset{x}
    ensures |RemoveFirst(s, x)| == |s| - 1
  {
    var rest := s[1..];
    assert s == [s[0]] + rest;
    ConsMultiset(s[0], rest);
    if s[0] != x {
      RemoveFirstPresent(rest, x);
      ConsMultiset(s[0], RemoveFirst(rest, x));
    }
  }

  ghost predicate NoDuplicates(s: seq<nat>) {
    forall x :: multiset(s)[x] <= 1
  }

  lemma RemoveFirstNoDuplicates(s: seq<nat>, x: nat)
    requires NoDuplicates(s)
    ensures NoDuplicates(RemoveFirst(s, x))
    ensures forall y :: y in RemoveFirst(s, x) <==> y in s && y != x
  {
    if x in s { RemoveFirstPresent(s, x); } else { RemoveFirstAbsent(s, x); }
    forall y ensures multiset(RemoveFirst(s, x))[y] <= 1 && (y in RemoveFirst(s, x) <==> y in s && y != x) {
      assert multiset(s)[y] <= 1 && multiset(s)[x] <= 1;
      assert y in RemoveFirst(s, x) <==> y in multiset(RemoveFirst(s, x));
      assert y in s <==> y in multiset(s);
    }
  }
}
