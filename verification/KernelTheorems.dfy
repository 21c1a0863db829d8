/** What the invariants buy the callers: the front checks of the syscalls, the bookkeeping of fork,
    walks up the process tree, and the meaning of cleanup_all_zombies. */
module KernelTheorems {
  import opened Processes
  import opened SchedulerSpec
  import opened ProcessLists
  import opened ProcessTree
  import opened SchedulerRuns
  import opened SchedulerInvariants

  // ----- the checks that the process in front is the caller

  /** Within the invariant, a syscall of a nonzero current pid passes its front check: a well-formed
      wait4 reaps a zombie child if there is one that matches and blocks otherwise, and never fails. */
  lemma Wait4NeverFails(s: Sched, target: nat, statusPtr: nat, options: nat)
    requires Wf(s) && CurrentInFront(s) && s.current != 0 && ValidWait(target, statusPtr, options)
    ensures var (t, outcome) := Wait4(s, target, statusPtr, options);
            if ZombieMatches(s.procs, s.current, target)
            then outcome.Reaped? && (target == ANY_CHILD || outcome.child == target)
            else
              && outcome.Blocked? && Listed(t.procs, s.current)
              && t.procs[|t.procs| - 1].state == Waiting(Child(target))
  {
    var child := WaitChoice(s.procs, s.current, target);
    WaitChoiceIsComplete(s.procs, s.current, target);
    if child != 0 {
      ChoiceIsZombie(s.procs, s.current, target);
    } else {
      RotationIds(s.procs[0 := s.procs[0].(state := Waiting(Child(target)))], s.procs);
      assert Ids(s.procs)[0] == s.current;
    }
  }

  /** Such a wait4 is refused exactly when its arguments are: a pid outside 1000..10000 cannot be waited
      for, zombie child or not. */
  lemma Wait4FailsOnlyForArguments(s: Sched, target: nat, statusPtr: nat, options: nat)
    requires Wf(s) && CurrentInFront(s) && s.current != 0
    ensures Wait4(s, target, statusPtr, options).1.Failed? <==> !ValidWait(target, statusPtr, options)
    ensures target != ANY_CHILD && !(1000 <= target <= 10000) ==> Wait4(s, target, statusPtr, options) == (s, Failed)
  {
    hide Wf, CurrentInFront, WaitChoice;
    if ValidWait(target, statusPtr, options) { Wait4NeverFails(s, target, statusPtr, options); }
  }

  // ----- priorities

  /** `t` is `s` with other priorities. */
  ghost predicate SameButPriorities(s: Sched, t: Sched) {
    |s.procs| == |t.procs| && forall i :: 0 <= i < |s.procs| ==>
        t.procs[i] == s.procs[i].(priority := t.procs[i].priority)
  }

  /** The choice of the next process does not depend on any priority. */
  lemma PrioritiesAreIgnored(s: Sched, t: Sched, context: nat)
    requires SameButPriorities(s, t)
    ensures var (s', t') := (Schedule(s, context), Schedule(t, context));
            Ids(s'.0.procs) == Ids(t'.0.procs) && s'.0.current == t'.0.current && s'.1 == t'.1
  {
    hide Ids;
    assert FirstRunnable(s.procs) == FirstRunnable(t.procs);
    SameIds(s.procs, t.procs);
    ScheduleOrder(s, context);
    ScheduleOrder(t, context);
  }

  lemma SameIds(ps: seq<Process>, qs: seq<Process>)
    requires |ps| == |qs| && forall i :: 0 <= i < |ps| ==> ps[i].id == qs[i].id
    ensures Ids(ps) == Ids(qs)
  {
  }

  // ----- fork

  /** A fork of a nonzero current pid fails only for the limits, and then changes nothing; otherwise it
      registers the next pid. So register_child cannot fail halfway, after the tree was written. */
  lemma ForkFailsOnlyForLimits(s: Sched)
    requires Wf(s) && CurrentInFront(s) && s.current != 0 && ChildCounts(s.procs)
    ensures var (t, outcome) := Fork(s);
            var parent := s.procs[0];
            if parent.WithinLimits() && |parent.children| < parent.limits.maxProcesses then
              && outcome == Forked(s.nextPid)
              && t.nextPid == s.nextPid + 1
              && t.procs[0].children == parent.children + [s.nextPid]
              && t.tree == s.tree[s.nextPid := s.current]
              && Ids(t.procs) == Ids(s.procs) && t.current == s.current
              && (s.nextPid !in s.orphans ==> t.orphans == s.orphans)
            else
              outcome == Failed && t == s
  {
    EachIds(s.procs, ChildAdded(s.current, s.nextPid));
    if s.nextPid !in s.orphans { RemoveFirstAbsent(s.orphans, s.nextPid); }
  }

  // ----- walks up the process tree

  /** With parents older than children every walk leaves the tree within `pid + 1` steps. */
  lemma {:induction false} EveryWalkEnds(s: Sched, pid: nat)
    requires TreeOrdered(s)
    ensures Up(s.tree, pid, pid + 1) !in s.tree
    ensures forall n :: n > pid ==> Up(s.tree, pid, n) == Up(s.tree, pid, pid + 1)
    decreases pid
  {
    if pid in s.tree {
      var parent := s.tree[pid];
      EveryWalkEnds(s, parent);
      assert Up(s.tree, parent, pid) == Up(s.tree, parent, parent + 1);
      forall n | n > pid ensures Up(s.tree, pid, n) == Up(s.tree, pid, pid + 1) {
        assert Up(s.tree, parent, n - 1) == Up(s.tree, parent, parent + 1);
      }
    }
  }

  // ----- cleanup_all_zombies

  lemma {:induction false} KeepTwice(ps: seq<Process>, a: set<nat>, b: set<nat>)
    ensures Keep(Keep(ps, NotIn(a)), NotIn(b)) == Keep(ps, NotIn(a + b))
  {
    if ps != [] {
      var last := |ps| - 1;
      KeepTwice(ps[..last], a, b);
      if ps[last].id !in a {
        var kept := Keep(ps[..last], NotIn(a));
        assert Keep(ps, NotIn(a)) == kept + [ps[last]];
        assert (kept + [ps[last]])[..|kept|] == kept;
        assert NotIn(a + b).Has(ps[last]) == NotIn(b).Has(ps[last]);
      } else {
        assert Keep(ps, NotIn(a)) == Keep(ps[..last], NotIn(a));
      }
    }
  }

  lemma {:induction false} KeepSame(ps: seq<Process>, a: Selection, b: Selection)
    requires forall i :: 0 <= i < |ps| ==> a.Has(ps[i]) == b.Has(ps[i])
    ensures Keep(ps, a) == Keep(ps, b)
  {
    if ps != [] {
      KeepSame(ps[..|ps| - 1], a, b);
    }
  }

  lemma {:induction false} KeepAll(ps: seq<Process>)
    ensures Keep(ps, NotIn({})) == ps
  {
    if ps != [] {
      KeepAll(ps[..|ps| - 1]);
    }
  }

  lemma {:induction false} WithoutIsKeep(ps: seq<Process>, k: nat, x: nat)
    requires k < |ps| && forall i :: 0 <= i < |ps| ==> (ps[i].id == x <==> i == k)
    ensures Keep(ps, NotIn({x})) == Without(ps, k)
  {
    var last := |ps| - 1;
    if k == last {
      KeepSame(ps[..last], NotIn({x}), NotIn({}));
      KeepAll(ps[..last]);
    } else {
      WithoutIsKeep(ps[..last], k, x);
      assert Without(ps, k) == Without(ps[..last], k) + [ps[last]];
    }
  }

  lemma {:induction false} KeepUnique(ps: seq<Process>, selection: Selection)
    requires UniqueIds(ps)
    ensures UniqueIds(Keep(ps, selection))
    ensures forall x :: Listed(Keep(ps, selection), x) ==> Listed(ps, x)
  {
    if ps != [] {
      var last := |ps| - 1;
      assert Ids(ps[..last]) == Ids(ps)[..last];
      KeepUnique(ps[..last], selection);
      assert Ids(ps)[last] == ps[last].id;
      var kept := Keep(ps[..last], selection);
      BackUnique(kept, ps[last]);
      IdsAppend(kept, [ps[last]]);
      assert Ids(ps) == Ids(ps)[..last] + Ids([ps[last]]);
      assert Keep(ps, selection) == if selection.Has(ps[last]) then kept + [ps[last]] else kept;
      forall x | Listed(Keep(ps, selection), x) ensures Listed(ps, x) {
        assert Listed(kept, x) || x == ps[last].id;
        assert Listed(ps[..last], x) ==> x in Ids(ps);
      }
    }
  }

  lemma {:induction false} KeepCounts(ps: seq<Process>)
    ensures |Keep(ps, Zombies)| + |Keep(ps, NonZombies)| == |ps|
  {
    if ps != [] {
      KeepCounts(ps[..|ps| - 1]);
    }
  }

  ghost function Elements(xs: seq<nat>): set<nat> {
    set x | x in xs
  }

  lemma ZombieStays(ps: seq<Process>, done: set<nat>, pid: nat)
    requires pid !in done && ZombiePid(ps, pid)
    ensures ZombiePid(Keep(ps, NotIn(done)), pid)
  {
    hide Keep;
    var i :| 0 <= i < |ps| && ps[i].id == pid && ps[i].state.Zombie?;
    KeepContents(ps, NotIn(done));
    assert ps[i] in Keep(ps, NotIn(done));
  }

  lemma DropZombie(ps: seq<Process>, pid: nat)
    requires UniqueIds(ps) && ZombiePid(ps, pid)
    ensures var k := IndexOf(ps, pid);
            k < |ps| && ps[k].state.Zombie? && Without(ps, k) == Keep(ps, NotIn({pid}))
  {
    hide Keep, Without, UniqueIds;
    OnlyIndex(ps, pid);
    WithoutIsKeep(ps, IndexOf(ps, pid), pid);
  }

  /** One clean-up of a zombie among the processes outside `done`. */
  lemma CleanupDropsOne(s: Sched, t: Sched, done: set<nat>, pid: nat)
    requires Wf(s) && t.procs == Keep(s.procs, NotIn(done)) && pid !in done && ZombiePid(s.procs, pid)
    ensures var (u, outcome) := CleanupTerminated(t, pid);
            outcome.Done? && u.procs == Keep(s.procs, NotIn(done + {pid}))
  {
    hide Keep, Without, UniqueIds, ZombiePid, RemoveFirst;
    KeepUnique(s.procs, NotIn(done));
    ZombieStays(s.procs, done, pid);
    DropZombie(t.procs, pid);
    KeepTwice(s.procs, done, {pid});
  }

  /** Cleaning up distinct zombie pids one by one drops exactly those, and every clean-up succeeds. */
  lemma {:induction false} CleanupEachIsFilter(s: Sched, pids: seq<nat>)
    requires Wf(s)
    requires forall i, j :: 0 <= i < j < |pids| ==> pids[i] != pids[j]
    requires forall i :: 0 <= i < |pids| ==> ZombiePid(s.procs, pids[i])
    ensures var (t, count) := CleanupEach(s, pids);
            count == |pids| && t.procs == Keep(s.procs, NotIn(Elements(pids)))
  {
    if pids == [] {
      KeepAll(s.procs);
      assert Elements(pids) == {};
    } else {
      var last := |pids| - 1;
      CleanupEachIsFilter(s, pids[..last]);
      CleanupDropsOne(s, CleanupEach(s, pids[..last]).0, Elements(pids[..last]), pids[last]);
      assert Elements(pids) == Elements(pids[..last]) + {pids[last]};
    }
  }

  lemma ZombiePids(ps: seq<Process>)
    requires UniqueIds(ps)
    ensures var pids := Ids(Keep(ps, Zombies));
            && (forall i :: 0 <= i < |pids| ==> ZombiePid(ps, pids[i]))
            && (forall i :: 0 <= i < |ps| ==> (ps[i].id in pids <==> ps[i].state.Zombie?))
  {
    var zs := Keep(ps, Zombies);
    KeepContents(ps, Zombies);
    forall j | 0 <= j < |zs| ensures ZombiePid(ps, Ids(zs)[j]) {
      assert zs[j] in zs;
    }
    forall i | 0 <= i < |ps| ensures ps[i].id in Ids(zs) <==> ps[i].state.Zombie? {
      if ps[i].state.Zombie? {
        assert ps[i] in zs;
        var j :| 0 <= j < |zs| && zs[j] == ps[i];
        assert Ids(zs)[j] == ps[i].id;
      }
      OnlyIndex(ps, ps[i].id);
    }
  }

  /** cleanup_all_zombies leaves exactly the processes that are not zombies, in order, and returns how many it
      removed. */
  lemma CleanupAllLeavesNonZombies(s: Sched)
    requires Wf(s)
    ensures var (t, outcome) := CleanupAllZombies(s);
            && t.procs == Keep(s.procs, NonZombies)
            && outcome == Cleaned(|Keep(s.procs, Zombies)|)
            && |s.procs| == |t.procs| + |Keep(s.procs, Zombies)|
  {
    var pids := Ids(Keep(s.procs, Zombies));
    KeepUnique(s.procs, Zombies);
    KeepCounts(s.procs);
    ZombiePids(s.procs);
    CleanupEachIsFilter(s, pids);
    KeepSame(s.procs, NotIn(Elements(pids)), NonZombies);
  }
}
