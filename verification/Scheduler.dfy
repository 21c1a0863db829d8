/** The scheduler object of src/process/scheduler.rs, with its searches, `retain`s and in-place
    updates written as loops.  Every method is proved to take the state to the one that the
    function of the same name in `SchedulerSpec` gives. */
module SchedulerObject {
  import opened Processes
  import opened SchedulerSpec
  import opened ProcessLists

  /** The list built by a `retain` that drops position `k`, once `i` processes have been seen. */
  ghost function Retained(ps: seq<Process>, k: nat, i: nat): seq<Process>
    requires i <= |ps|
  {
    if k < i then Without(ps[..i], k) else ps[..i]
  }

  lemma RetainedStep(ps: seq<Process>, k: nat, i: nat)
    requires i < |ps|
    ensures Retained(ps, k, i + 1) == if i == k then Retained(ps, k, i) else Retained(ps, k, i) + [ps[i]]
  {
    if i < k {
      assert ps[..i + 1] == ps[..i] + [ps[i]];
    } else if i == k {
      assert Without(ps[..i + 1], k) == ps[..i];
    } else {
      assert Without(ps[..i + 1], k) == Without(ps[..i], k) + [ps[i]];
    }
  }

  lemma RetainedAll(ps: seq<Process>, k: nat)
    ensures Retained(ps, k, |ps|) == if k < |ps| then Without(ps, k) else ps
  {
  }

  lemma OnlyListedSameIds(pids: seq<nat>, ps: seq<Process>, qs: seq<Process>)
    requires Ids(ps) == Ids(qs)
    ensures OnlyListed(pids, ps) == OnlyListed(pids, qs)
  {
  }

  lemma NoneOrphaned(ps: seq<Process>, tree: map<nat, nat>)
    ensures Each(ps, Orphaned({})) == ps && Cut(tree, {}) == tree && OnlyListed([], ps) == []
  {
    EachAt(ps, Orphaned({}));
  }

  lemma OnlyListedSnoc(pids: seq<nat>, pid: nat, ps: seq<Process>)
    ensures OnlyListed(pids + [pid], ps) == OnlyListed(pids, ps) + if Listed(ps, pid) then [pid] else []
  {
    assert (pids + [pid])[..|pids|] == pids;
  }

  lemma KidInTree(tree: map<nat, nat>, pid: nat, child: nat)
    requires child in Kids(tree, pid)
    ensures child in tree
  {
  }

  lemma OrphanedStep(ps: seq<Process>, done: set<nat>, child: nat)
    ensures Each(Each(ps, Orphaned(done)), Orphaned({child})) == Each(ps, Orphaned(done + {child}))
    ensures Listed(Each(ps, Orphaned(done)), child) == Listed(ps, child)
  {
  }

  lemma CutStep(tree: map<nat, nat>, done: set<nat>, child: nat)
    requires child in tree
    ensures Cut(tree, done)[child := 0] == Cut(tree, done + {child})
  {
  }

  /** The four passes of an exit, one process at a time. */
  lemma ExitPasses(ps: seq<Process>, tree: map<nat, nat>, pid: nat, parent: nat, code: int)
    ensures var marked := Each(ps, ExitMarked(pid, code));
            var forgot := if parent != 0 then Each(marked, ChildRemoved(parent, pid)) else marked;
            var orphaned := Each(forgot, Orphaned(Kids(tree, pid)));
            var woken := if parent != 0 then Each(orphaned, ParentWoken(parent, pid)) else orphaned;
            Ids(forgot) == Ids(ps) && woken == Each(ps, Exited(tree, pid, parent, code))
  {
    var marked := Each(ps, ExitMarked(pid, code));
    var forgot := if parent != 0 then Each(marked, ChildRemoved(parent, pid)) else marked;
    var orphaned := Each(forgot, Orphaned(Kids(tree, pid)));
    EachIds(ps, ExitMarked(pid, code));
    EachIds(marked, ChildRemoved(parent, pid));
    EachAt(ps, ExitMarked(pid, code));
    EachAt(marked, ChildRemoved(parent, pid));
    EachAt(forgot, Orphaned(Kids(tree, pid)));
    EachAt(orphaned, ParentWoken(parent, pid));
    EachAt(ps, Exited(tree, pid, parent, code));
  }

  class Scheduler {
    var processes: seq<Process>
    var processTree: map<nat, nat>
    var orphans: seq<nat>
    var currentPid: nat
    var currentPriority: nat
    var nextPid: nat

    ghost function State(): Sched
      reads this
    {
      Sched(processes, processTree, orphans, currentPid, currentPriority, nextPid)
    }

    /** Pids are unique. */
    ghost predicate Valid()
      reads this
    {
      UniqueIds(processes)
    }

    constructor ()
      ensures Valid() && State() == BOOT
    {
      processes, processTree, orphans := [], map[], [];
      currentPid, currentPriority, nextPid := 0, 10, 1;
    }

    method Position(pid: nat) returns (k: nat)
      ensures k == IndexOf(processes, pid)
    {
      k := 0;
      while k < |processes| && processes[k].id != pid
        invariant k <= |processes|
        invariant forall i :: 0 <= i < k ==> processes[i].id != pid
      {
        k := k + 1;
      }
    }

    method AllocatePid() returns (pid: nat)
      modifies this`nextPid
      ensures (State(), Allocated(pid)) == SchedulerSpec.AllocatePid(old(State()))
    {
      pid := nextPid;
      nextPid := nextPid + 1;
    }

    /** Nothing checks the pid: one that is listed already is listed twice afterwards. */
    method AddProcess(p: Process)
      modifies this
      ensures State() == SchedulerSpec.AddProcess(old(State()), p)
      ensures old(Valid()) ==> (Valid() <==> !Listed(old(processes), p.id))
    {
      processTree := processTree[p.id := p.parentId];
      if p.parentId == 0 && p.id != 0 {
        orphans := orphans + [p.id];
      }
      if UniqueIds(processes) { BackUnique(processes, p); }
      processes := processes + [p];
    }

    method RegisterChild(parent: nat, child: nat) returns (outcome: Outcome)
      requires Valid()
      modifies this
      ensures Valid() && (State(), outcome) == SchedulerSpec.RegisterChild(old(State()), parent, child)
    {
      processTree := processTree[child := parent];
      var k := Position(parent);
      if k < |processes| {
        if !processes[k].CanAddChild() {
          return Failed;
        }
        processes := processes[k := processes[k].AddChild(child)];
      }
      UpdateFirstIsEach(old(processes), parent, ChildAdded(parent, child));
      orphans := RemoveFirst(orphans, child);
      outcome := Done;
    }

    // ----- exit, in the four passes of handle_process_exit

    method MarkExited(pid: nat, code: int) returns (parent: nat)
      requires Valid()
      modifies this`processes
      ensures Valid() && parent == ParentOf(old(processes), pid)
      ensures processes == Each(old(processes), ExitMarked(pid, code))
    {
      parent := 0;
      var k := Position(pid);
      if k < |processes| {
        parent := processes[k].parentId;
        processes := processes[k := processes[k].Exit(code)];
      }
      UpdateFirstIsEach(old(processes), pid, ExitMarked(pid, code));
    }

    method ForgetChild(parent: nat, child: nat)
      requires Valid()
      modifies this`processes
      ensures Valid() && processes == Each(old(processes), ChildRemoved(parent, child))
    {
      var k := Position(parent);
      if k < |processes| {
        processes := processes[k := processes[k].RemoveChild(child)];
      }
      UpdateFirstIsEach(old(processes), parent, ChildRemoved(parent, child));
    }

    method OrphanChild(child: nat)
      requires Valid()
      modifies this`processes, this`processTree, this`orphans
      ensures Valid() && processes == Each(old(processes), Orphaned({child}))
      ensures processTree == old(processTree)[child := 0]
      ensures orphans == old(orphans) + if Listed(old(processes), child) then [child] else []
    {
      processTree := processTree[child := 0];
      var k := Position(child);
      OnlyIndex(processes, child);
      if k < |processes| {
        processes := processes[k := processes[k].MakeOrphan()];
        orphans := orphans + [child];
      }
      UpdateFirstIsEach(old(processes), child, Orphaned({child}));
    }

    method OrphanChildren(pid: nat)
      requires Valid()
      modifies this`processes, this`processTree, this`orphans
      ensures Valid() && processes == Each(old(processes), Orphaned(Kids(old(processTree), pid)))
      ensures processTree == Cut(old(processTree), Kids(old(processTree), pid))
      ensures orphans == old(orphans) + OnlyListed(Ascending(Kids(old(processTree), pid)), old(processes))
    {
      var kids := Ascending(Kids(processTree, pid));
      ghost var ps, tree, done := processes, processTree, {};
      NoneOrphaned(ps, tree);
      hide Each, OnlyListed, Cut, Kids, UniqueIds, Ascending;
      var n := 0;
      while n < |kids|
        invariant n <= |kids| && Valid()
        invariant done <= Kids(tree, pid) && forall i :: 0 <= i < n ==> kids[i] in done
        invariant processes == Each(ps, Orphaned(done))
        invariant processTree == Cut(tree, done)
        invariant orphans == old(orphans) + OnlyListed(kids[..n], ps)
      {
        var child := kids[n];
        assert child in Kids(tree, pid) by { assert kids[n] in kids; AscendingContents(Kids(tree, pid)); }
        KidInTree(tree, pid, child);
        OnlyListedSnoc(kids[..n], child, ps);
        assert kids[..n + 1] == kids[..n] + [child];
        OrphanedStep(ps, done, child);
        CutStep(tree, done, child);
        OrphanChild(child);
        done := done + {child};
        n := n + 1;
      }
      assert kids[..n] == kids;
      assert done == Kids(tree, pid) by {
        AscendingContents(Kids(tree, pid));
        forall x | x in Kids(tree, pid) ensures x in done { assert x in kids; }
      }
    }

    method WakeParent(parent: nat, child: nat)
      requires Valid()
      modifies this`processes
      ensures Valid() && processes == Each(old(processes), ParentWoken(parent, child))
    {
      var k := Position(parent);
      if k < |processes| && processes[k].WaitsFor(child) {
        processes := processes[k := processes[k].(state := Ready)];
      }
      UpdateFirstIsEach(old(processes), parent, ParentWoken(parent, child));
    }

    method HandleProcessExit(pid: nat, code: int) returns (outcome: Outcome)
      requires Valid()
      modifies this
      ensures Valid() && (State(), outcome) == HandleExit(old(State()), pid, code)
    {
      hide Each, OnlyListed, Ascending, Kids, Cut, UniqueIds;
      var k := Position(pid);
      OnlyIndex(processes, pid);
      if k < |processes| && !ValidExitCode(code) {
        return Failed;
      }
      var parent := MarkExited(pid, code);
      if parent != 0 {
        ForgetChild(parent, pid);
      }
      ExitPasses(old(processes), old(processTree), pid, parent, code);
      OnlyListedSameIds(Ascending(Kids(processTree, pid)), processes, old(processes));
      OrphanChildren(pid);
      if parent != 0 {
        WakeParent(parent, pid);
      }
      assert State() == AfterExitOf(old(State()), pid, code);
      outcome := Done;
    }

    // ----- reaping and cleaning up

    method FindZombieChildren(parent: nat) returns (zombies: seq<nat>)
      ensures zombies == ZombieChildren(processes, parent)
    {
      zombies := [];
      var i := 0;
      while i < |processes|
        invariant i <= |processes|
        invariant zombies == Ids(Keep(processes[..i], ZombiesOf(parent)))
      {
        assert processes[..i + 1][..i] == processes[..i];
        if processes[i].parentId == parent && processes[i].state.Zombie? {
          zombies := zombies + [processes[i].id];
        }
        i := i + 1;
      }
      assert processes[..i] == processes;
    }

    /** The `retain` of a reap: drops the child if it is a zombie of this parent. */
    method TakeZombie(parent: nat, child: nat) returns (found: bool, exitCode: int)
      requires Valid()
      modifies this`processes
      ensures Valid()
      ensures var ps, k := old(processes), IndexOf(old(processes), child);
              && found == (k < |ps| && Reapable(ps[k], parent, child))
              && processes == (if found then Without(ps, k) else ps)
              && (found ==> exitCode == ps[k].exitCode)
    {
      var ps, kept: seq<Process> := processes, [];
      found, exitCode := false, 0;
      ghost var k := IndexOf(ps, child);
      OnlyIndex(ps, child);
      ghost var hit := if k < |ps| && Reapable(ps[k], parent, child) then k else |ps|;
      var i := 0;
      while i < |ps|
        invariant i <= |ps| && kept == Retained(ps, hit, i)
        invariant found <==> hit < i
        invariant found ==> exitCode == ps[hit].exitCode
      {
        RetainedStep(ps, hit, i);
        if Reapable(ps[i], parent, child) {
          exitCode, found := ps[i].exitCode, true;
        } else {
          kept := kept + [ps[i]];
        }
        i := i + 1;
      }
      RetainedAll(ps, hit);
      if found {
        WithoutUnique(ps, hit);
      }
      processes := kept;
    }

    method ReapZombieChild(parent: nat, child: nat) returns (outcome: Outcome)
      requires Valid()
      modifies this
      ensures Valid() && (State(), outcome) == SchedulerSpec.ReapZombieChild(old(State()), parent, child)
    {
      hide UniqueIds, Each, Without;
      var found, exitCode := TakeZombie(parent, child);
      if !found {
        return Failed;
      }
      ForgetChild(parent, child);
      processTree := processTree - {child};
      outcome := Reaped(child, exitCode);
    }

    /** The `retain` of a clean-up. */
    method DropProcess(pid: nat)
      requires Valid() && IndexOf(processes, pid) < |processes|
      modifies this`processes
      ensures Valid() && processes == Without(old(processes), IndexOf(old(processes), pid))
    {
      var ps, kept: seq<Process> := processes, [];
      ghost var k := IndexOf(ps, pid);
      OnlyIndex(ps, pid);
      var i := 0;
      while i < |ps|
        invariant i <= |ps| && kept == Retained(ps, k, i)
      {
        RetainedStep(ps, k, i);
        if ps[i].id != pid {
          kept := kept + [ps[i]];
        }
        i := i + 1;
      }
      RetainedAll(ps, k);
      WithoutUnique(ps, k);
      processes := kept;
    }

    method CleanupTerminatedProcess(pid: nat) returns (outcome: Outcome)
      requires Valid()
      modifies this
      ensures Valid() && (State(), outcome) == CleanupTerminated(old(State()), pid)
    {
      hide UniqueIds, Without;
      var k := Position(pid);
      if k == |processes| || !processes[k].state.Zombie? {
        return Failed;
      }
      DropProcess(pid);
      processTree := processTree - {pid};
      orphans := RemoveFirst(orphans, pid);
      outcome := Done;
    }

    method FindZombies() returns (zombies: seq<nat>)
      ensures zombies == Ids(Keep(processes, Zombies))
    {
      zombies := [];
      var i := 0;
      while i < |processes|
        invariant i <= |processes|
        invariant zombies == Ids(Keep(processes[..i], Zombies))
      {
        assert processes[..i + 1][..i] == processes[..i];
        if processes[i].state.Zombie? {
          zombies := zombies + [processes[i].id];
        }
        i := i + 1;
      }
      assert processes[..i] == processes;
    }

    method CleanupAllZombies() returns (outcome: Outcome)
      requires Valid()
      modifies this
      ensures Valid() && (State(), outcome) == SchedulerSpec.CleanupAllZombies(old(State()))
    {
      var zombies := FindZombies();
      var count := 0;
      var n := 0;
      while n < |zombies|
        invariant n <= |zombies| && Valid()
        invariant State() == CleanupEach(old(State()), zombies[..n]).0
        invariant count == CleanupEach(old(State()), zombies[..n]).1
      {
        assert zombies[..n + 1][..n] == zombies[..n];
        var cleaned := CleanupTerminatedProcess(zombies[n]);
        if cleaned.Done? {
          count := count + 1;
        }
        n := n + 1;
      }
      assert zombies[..n] == zombies;
      outcome := Cleaned(count);
    }

    // ----- choosing what runs next

    method NextRunnable() returns (k: nat)
      ensures k == FirstRunnable(processes)
    {
      k := 0;
      while k < |processes| && !processes[k].Runnable()
        invariant k <= |processes|
        invariant forall i :: 0 <= i < k ==> !processes[i].Runnable()
      {
        k := k + 1;
      }
    }

    method Schedule(context: nat) returns (outcome: Outcome)
      requires Valid()
      modifies this
      ensures Valid() && (State(), outcome) == SchedulerSpec.Schedule(old(State()), context)
    {
      hide UniqueIds;
      var k := NextRunnable();
      if k < |processes| {
        var next := processes[k].(state := Running);
        WithoutUnique(processes, k);
        processes := processes[..k] + processes[k + 1..];
        if |processes| > 0 {
          var previous := processes[0].(contextPtr := context);
          if previous.state.Running? {
            previous := previous.(state := Ready);
          }
          processes := processes[0 := previous];
        }
        currentPriority := next.priority;
        assert processes == Preempt(Without(old(processes), k), context);
        PreemptIds(Without(old(processes), k), context);
        SameIdsUnique(Without(old(processes), k), processes);
        FrontUnique(next, processes);
        processes := [next] + processes;
        currentPid := next.id;
        return Switched(next.contextPtr);
      }
      if |processes| > 0 {
        var previous := processes[0].(contextPtr := context);
        RotateUnique(processes);
        processes := processes[1..] + [previous];
        assert Ids(processes) == Ids(Rotate(old(processes)));
        SameIdsUnique(Rotate(old(processes)), processes);
        currentPid := processes[0].id;
        outcome := Switched(processes[0].contextPtr);
      } else {
        currentPid := 0;
        outcome := Switched(context);
      }
    }
  }
}
