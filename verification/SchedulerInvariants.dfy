/** The invariants of the scheduler state, and what each operation does to them. */
module SchedulerInvariants {
  import opened Processes
  import opened SchedulerSpec
  import opened ProcessLists

  // ----- the invariants

  /** No process sleeps in wait4 while a zombie child that its wait covers is still listed. */
  ghost predicate NoLostWakeup(ps: seq<Process>) {
    forall i, j :: 0 <= i < |ps| && 0 <= j < |ps| && ps[j].parentId == ps[i].id && ps[j].state.Zombie? ==>
                     !ps[i].WaitsFor(ps[j].id)
  }

  ghost predicate NoSelfParent(ps: seq<Process>) {
    forall i :: 0 <= i < |ps| ==> ps[i].parentId != ps[i].id
  }

  predicate CountsOk(p: Process) {
    p.stats.childrenCount == |p.children| <= p.limits.maxProcesses
  }

  ghost predicate ChildCounts(ps: seq<Process>) {
    forall i :: 0 <= i < |ps| ==> CountsOk(ps[i])
  }

  /** Only the process in front can be Running. */
  ghost predicate SingleRunner(ps: seq<Process>) {
    forall i :: 0 < i < |ps| ==> !ps[i].state.Running?
  }

  /** The current pid is 0 or names the process in front. */
  ghost predicate CurrentInFront(s: Sched) {
    s.current == 0 || FrontIsCurrent(s)
  }

  /** The list holds a process `pid` whose parent_id field is `parent`. */
  ghost predicate Lists(ps: seq<Process>, pid: nat, parent: nat) {
    exists i :: 0 <= i < |ps| && ps[i].id == pid && ps[i].parentId == parent
  }

  /** The three records of parenthood agree. */
  ghost predicate IndexAgrees(s: Sched) {
    && (forall x, p :: Lists(s.procs, x, p) ==> x in s.tree && s.tree[x] == p)
    && NoDuplicates(s.orphans)
    && (forall x :: x in s.orphans <==> Lists(s.procs, x, 0))
  }

  /** Every recorded parent has a smaller pid than its child, and these pids have been handed out. */
  ghost predicate TreeOrdered(s: Sched) {
    forall c :: c in s.tree ==> s.tree[c] < c < s.nextPid
  }

  ghost predicate ParentsOlder(s: Sched) {
    TreeOrdered(s) && forall x: nat :: Listed(s.procs, x) ==> x < s.nextPid
  }

  /** Every parent field is 0 or names a listed process. */
  ghost predicate ParentsListed(ps: seq<Process>) {
    forall x, p :: Lists(ps, x, p) ==> p == 0 || Listed(ps, p)
  }

  /** The current pid is 0 or names the process in front, which is Ready or Running. */
  ghost predicate CurrentRuns(s: Sched) {
    s.current == 0 || (FrontIsCurrent(s) && s.procs[0].Runnable())
  }

  // ----- facts of a state that the conditions of the operations are about

  ghost predicate SomeRunnable(ps: seq<Process>) {
    exists i :: 0 <= i < |ps| && ps[i].Runnable()
  }

  /** Some listed process has `pid` in its parent field. */
  ghost predicate HasChildren(ps: seq<Process>, pid: nat) {
    exists x :: Lists(ps, x, pid)
  }

  ghost predicate ZombiePid(ps: seq<Process>, pid: nat) {
    exists i :: 0 <= i < |ps| && ps[i].id == pid && ps[i].state.Zombie?
  }

  /** `child` is listed as a zombie child of `parent`. */
  ghost predicate CanReap(ps: seq<Process>, parent: nat, child: nat) {
    exists i :: 0 <= i < |ps| && Reapable(ps[i], parent, child)
  }

  /** A zombie child of `parent` is listed that a wait4 for `target` covers. */
  ghost predicate ZombieMatches(ps: seq<Process>, parent: nat, target: nat) {
    exists j :: 0 <= j < |ps| && Reapable(ps[j], parent, ps[j].id) && (target == ANY_CHILD || target == ps[j].id)
  }

  lemma CanReapIndex(ps: seq<Process>, parent: nat, child: nat)
    requires UniqueIds(ps)
    ensures var k := IndexOf(ps, child);
            CanReap(ps, parent, child) <==> k < |ps| && Reapable(ps[k], parent, child)
  {
    OnlyIndex(ps, child);
  }

  // ----- operations that neither wait, kill nor re-parent

  ghost predicate Harmless(p: Process, q: Process) {
    && q.id == p.id && q.parentId == p.parentId
    && (q.state == p.state || q.Runnable())
    && (CountsOk(p) ==> CountsOk(q))
  }

  ghost predicate HasOrigin(q: Process, ps: seq<Process>) {
    exists i :: 0 <= i < |ps| && Harmless(ps[i], q)
  }

  /** Every process of `qs` is one of `ps` after a harmless change. */
  ghost predicate ComesFrom(qs: seq<Process>, ps: seq<Process>) {
    forall j :: 0 <= j < |qs| ==> HasOrigin(qs[j], ps)
  }

  lemma ComesFromKeepsWakeups(qs: seq<Process>, ps: seq<Process>)
    requires ComesFrom(qs, ps) && NoLostWakeup(ps)
    ensures NoLostWakeup(qs)
  {
  }

  lemma ComesFromKeepsRest(qs: seq<Process>, ps: seq<Process>)
    requires ComesFrom(qs, ps)
    ensures NoSelfParent(ps) ==> NoSelfParent(qs)
    ensures ChildCounts(ps) ==> ChildCounts(qs)
  {
  }

  lemma RemoveChildCounts(p: Process, child: nat)
    ensures Harmless(p, p.RemoveChild(child))
  {
    if child in p.children { RemoveFirstPresent(p.children, child); }
  }

  lemma RegisterHarmless(ps: seq<Process>, parent: nat, child: nat)
    requires UniqueIds(ps)
    requires var k := IndexOf(ps, parent); k < |ps| ==> ps[k].CanAddChild()
    ensures ComesFrom(Each(ps, ChildAdded(parent, child)), ps)
  {
    var qs := Each(ps, ChildAdded(parent, child));
    EachAt(ps, ChildAdded(parent, child));
    OnlyIndex(ps, parent);
    forall j | 0 <= j < |qs| ensures HasOrigin(qs[j], ps) {
      assert Harmless(ps[j], qs[j]);
    }
  }

  lemma PickHarmless(qs: seq<Process>, ps: seq<Process>)
    requires forall j :: 0 <= j < |qs| ==> qs[j] in ps
    ensures ComesFrom(qs, ps)
  {
  }

  lemma WithoutHarmless(ps: seq<Process>, k: nat)
    requires k < |ps|
    ensures ComesFrom(Without(ps, k), ps)
  {
  }

  lemma ReapHarmless(ps: seq<Process>, k: nat, parent: nat, child: nat)
    requires k < |ps|
    ensures ComesFrom(Each(Without(ps, k), ChildRemoved(parent, child)), ps)
  {
    var r := Without(ps, k);
    var qs := Each(r, ChildRemoved(parent, child));
    EachAt(r, ChildRemoved(parent, child));
    forall j | 0 <= j < |qs| ensures HasOrigin(qs[j], ps) {
      RemoveChildCounts(r[j], child);
      assert Harmless(r[j], qs[j]);
      assert r[j] == ps[if j < k then j else j + 1];
    }
  }

  lemma ScheduleHarmless(s: Sched, context: nat)
    ensures ComesFrom(Schedule(s, context).0.procs, s.procs)
  {
    var ps, k := s.procs, FirstRunnable(s.procs);
    var qs := Schedule(s, context).0.procs;
    if k < |ps| {
      var r := Without(ps, k);
      WithoutHarmless(ps, k);
      forall j | 0 <= j < |qs| ensures HasOrigin(qs[j], ps) {
        if j == 0 {
          assert Harmless(ps[k], qs[0]);
        } else {
          assert qs[j] == Preempt(r, context)[j - 1];
          var i :| 0 <= i < |ps| && Harmless(ps[i], r[j - 1]);
          assert Harmless(ps[i], qs[j]);
        }
      }
    } else if ps != [] {
      forall j | 0 <= j < |qs| ensures HasOrigin(qs[j], ps) {
        var i := if j == |ps| - 1 then 0 else j + 1;
        assert Harmless(ps[i], qs[j]);
      }
    }
  }

  lemma YieldHarmless(s: Sched)
    ensures ComesFrom(Yield(s).0.procs, s.procs)
  {
  }

  // ----- operations that do

  lemma AddKeepsWakeups(ps: seq<Process>, p: Process)
    requires NoLostWakeup(ps) && p.state.Ready?
    ensures NoLostWakeup(ps + [p])
  {
  }

  /** Exit, seen from one process: the fields it can change. */
  lemma AfterExitFields(p: Process, tree: map<nat, nat>, pid: nat, parent: nat, code: int)
    ensures var q := AfterExit(p, tree, pid, parent, code);
            && q.id == p.id
            && q.parentId == (if p.id in Kids(tree, pid) then 0 else p.parentId)
            && q.state == (if p.id == pid then Zombie
                           else if parent != 0 && p.id == parent && p.WaitsFor(pid) then Ready
                           else p.state)
            && q.exitCode == (if p.id == pid then code else p.exitCode)
            && (CountsOk(p) ==> CountsOk(q))
  {
    RemoveChildCounts(p, pid);
    RemoveChildCounts(p.Exit(code), pid);
  }

  lemma ExitFields(s: Sched, pid: nat, code: int)
    ensures var ps, qs, parent := s.procs, AfterExitOf(s, pid, code).procs, ParentOf(s.procs, pid);
            && |qs| == |ps|
            && forall i :: 0 <= i < |ps| ==>
                 && qs[i].id == ps[i].id
                 && qs[i].parentId == (if ps[i].id in Kids(s.tree, pid) then 0 else ps[i].parentId)
                 && qs[i].state == (if ps[i].id == pid then Zombie
                                    else if parent != 0 && ps[i].id == parent && ps[i].WaitsFor(pid) then Ready
                                    else ps[i].state)
                 && qs[i].exitCode == (if ps[i].id == pid then code else ps[i].exitCode)
                 && (CountsOk(ps[i]) ==> CountsOk(qs[i]))
  {
    var parent := ParentOf(s.procs, pid);
    EachAt(s.procs, Exited(s.tree, pid, parent, code));
    forall i | 0 <= i < |s.procs| {
      AfterExitFields(s.procs[i], s.tree, pid, parent, code);
    }
  }

  lemma ExitKeepsWakeups(s: Sched, pid: nat, code: int)
    requires UniqueIds(s.procs) && !Listed(s.procs, 0) && NoLostWakeup(s.procs)
    ensures NoLostWakeup(AfterExitOf(s, pid, code).procs)
  {
    var ps, qs := s.procs, AfterExitOf(s, pid, code).procs;
    ExitFields(s, pid, code);
    OnlyIndex(ps, pid);
    forall i, j | 0 <= i < |qs| && 0 <= j < |qs| && qs[j].parentId == qs[i].id && qs[j].state.Zombie?
      ensures !qs[i].WaitsFor(qs[j].id)
    {
      assert Ids(ps)[i] == ps[i].id;
      assert qs[j].parentId == ps[j].parentId;
    }
  }

  lemma KillKeepsWakeups(ps: seq<Process>, pid: nat)
    requires NoLostWakeup(ps)
    ensures NoLostWakeup(Each(ps, Killed(pid)))
  {
    EachAt(ps, Killed(pid));
    var qs := Each(ps, Killed(pid));
    forall i, j | 0 <= i < |qs| && 0 <= j < |qs| && qs[j].parentId == qs[i].id && qs[j].state.Zombie?
      ensures !qs[i].WaitsFor(qs[j].id)
    {
    }
  }

  lemma BlockKeepsWakeups(s: Sched, target: nat)
    requires UniqueIds(s.procs) && NoLostWakeup(s.procs) && FrontIsCurrent(s)
    requires !ZombieMatches(s.procs, s.current, target)
    ensures NoLostWakeup(Block(s, target).0.procs)
  {
  }

  /** wait4 found no zombie to take exactly when no listed zombie child matches its target. */
  lemma WaitChoiceIsComplete(ps: seq<Process>, parent: nat, target: nat)
    requires !Listed(ps, 0)
    ensures WaitChoice(ps, parent, target) == 0 <==> !ZombieMatches(ps, parent, target)
  {
    var zs := Keep(ps, ZombiesOf(parent));
    KeepContents(ps, ZombiesOf(parent));
    forall p | p in zs ensures p.id in Ids(zs) && p.id != 0 {
      var i :| 0 <= i < |zs| && zs[i] == p;
      assert Ids(zs)[i] == p.id;
      var k :| 0 <= k < |ps| && ps[k] == p;
      assert Ids(ps)[k] == p.id;
    }
    forall x | x in Ids(zs) ensures exists p :: p in zs && p.id == x {
      var i :| 0 <= i < |zs| && Ids(zs)[i] == x;
      assert zs[i] in zs && zs[i].id == x;
    }
    if WaitChoice(ps, parent, target) == 0 {
      forall j | 0 <= j < |ps| && Reapable(ps[j], parent, ps[j].id)
        ensures ps[j].id != target && target != ANY_CHILD
      {
        assert ps[j] in zs;
      }
    } else {
      var x := WaitChoice(ps, parent, target);
      assert x in Ids(zs);
      var p :| p in zs && p.id == x;
      var j :| 0 <= j < |ps| && ps[j] == p;
      assert Reapable(ps[j], parent, ps[j].id);
    }
  }

  lemma ChoiceIsZombie(ps: seq<Process>, parent: nat, target: nat)
    requires UniqueIds(ps) && WaitChoice(ps, parent, target) != 0
    ensures var k := IndexOf(ps, WaitChoice(ps, parent, target));
            k < |ps| && Reapable(ps[k], parent, WaitChoice(ps, parent, target))
    ensures target != ANY_CHILD ==> WaitChoice(ps, parent, target) == target
  {
    var x := WaitChoice(ps, parent, target);
    var zs := Keep(ps, ZombiesOf(parent));
    KeepContents(ps, ZombiesOf(parent));
    assert x in Ids(zs);
    var j :| 0 <= j < |zs| && Ids(zs)[j] == x;
    assert zs[j] in zs;
    var i :| 0 <= i < |ps| && ps[i] == zs[j];
    OnlyIndex(ps, x);
  }

  // ----- who runs

  lemma EachKeepsRunner(ps: seq<Process>, change: Change)
    requires SingleRunner(ps)
    ensures SingleRunner(Each(ps, change))
  {
  }

  lemma WithoutKeepsRunner(ps: seq<Process>, k: nat)
    requires SingleRunner(ps) && k < |ps|
    ensures SingleRunner(Without(ps, k))
  {
  }

  lemma ScheduleKeepsRunner(s: Sched, context: nat)
    requires SingleRunner(s.procs)
    ensures var t := Schedule(s, context).0;
            SingleRunner(t.procs) && CurrentInFront(t)
  {
  }

  lemma BlockKeepsRunner(s: Sched, target: nat)
    requires SingleRunner(s.procs) && s.procs != []
    ensures var t := Block(s, target).0;
            SingleRunner(t.procs) && CurrentInFront(t)
  {
  }

  /** Taking out a process other than the one in front leaves the front where it is. */
  lemma WithoutKeepsFront(s: Sched, k: nat)
    requires CurrentInFront(s) && k < |s.procs| && (s.current == 0 || s.procs[k].id != s.current)
    ensures s.current == 0 || (k > 0 && Without(s.procs, k) != [] && Without(s.procs, k)[0] == s.procs[0])
  {
  }

  // ----- agreement of the parenthood records

  ghost predicate SameParents(ps: seq<Process>, qs: seq<Process>) {
    forall x, p :: Lists(ps, x, p) <==> Lists(qs, x, p)
  }

  lemma SameParentsAgree(s: Sched, t: Sched)
    requires IndexAgrees(s) && SameParents(s.procs, t.procs) && t.tree == s.tree && t.orphans == s.orphans
    ensures IndexAgrees(t)
  {
  }

  /** The records are the list, the tree and the orphans. */
  lemma RecordsOnly(s: Sched, t: Sched)
    requires t.procs == s.procs && t.tree == s.tree && t.orphans == s.orphans
    ensures IndexAgrees(s) <==> IndexAgrees(t)
  {
  }

  lemma EachSameParents(ps: seq<Process>, change: Change)
    requires !change.Exited? && !change.Orphaned?
    ensures SameParents(ps, Each(ps, change))
  {
    var qs := Each(ps, change);
    EachAt(ps, change);
    forall x, p ensures Lists(ps, x, p) <==> Lists(qs, x, p) {
      if i :| 0 <= i < |ps| && ps[i].id == x && ps[i].parentId == p { assert qs[i].id == x && qs[i].parentId == p; }
      if i :| 0 <= i < |qs| && qs[i].id == x && qs[i].parentId == p { assert ps[i].id == x && ps[i].parentId == p; }
    }
  }

  lemma ListsWithout(ps: seq<Process>, k: nat, x: nat, p: nat)
    requires UniqueIds(ps) && k < |ps|
    ensures Lists(Without(ps, k), x, p) <==> Lists(ps, x, p) && x != ps[k].id
  {
    var r := Without(ps, k);
    OnlyIndex(ps, ps[k].id);
    if i :| 0 <= i < |r| && r[i].id == x && r[i].parentId == p {
      assert ps[if i < k then i else i + 1] == r[i];
    }
    if Lists(ps, x, p) && x != ps[k].id {
      var i :| 0 <= i < |ps| && ps[i].id == x && ps[i].parentId == p;
      assert r[if i < k then i else i - 1] == ps[i];
    }
  }

  lemma ListsFront(ps: seq<Process>, q: Process)
    ensures forall x, p :: Lists([q] + ps, x, p) <==> Lists(ps, x, p) || (x == q.id && p == q.parentId)
  {
    var r := [q] + ps;
    forall x, p ensures Lists(r, x, p) <==> Lists(ps, x, p) || (x == q.id && p == q.parentId) {
      if i :| 0 <= i < |ps| && ps[i].id == x && ps[i].parentId == p { assert r[i + 1] == ps[i]; }
      if x == q.id && p == q.parentId { assert r[0] == q; }
    }
  }

  lemma ListsBack(ps: seq<Process>, q: Process)
    ensures forall x, p :: Lists(ps + [q], x, p) <==> Lists(ps, x, p) || (x == q.id && p == q.parentId)
  {
    var r := ps + [q];
    forall x, p ensures Lists(r, x, p) <==> Lists(ps, x, p) || (x == q.id && p == q.parentId) {
      if i :| 0 <= i < |ps| && ps[i].id == x && ps[i].parentId == p { assert r[i] == ps[i]; }
      if x == q.id && p == q.parentId { assert r[|ps|] == q; }
    }
  }

  lemma RotateSameParents(ps: seq<Process>)
    ensures SameParents(ps, Rotate(ps))
  {
    if ps != [] {
      assert ps == [ps[0]] + ps[1..];
      ListsFront(ps[1..], ps[0]);
      ListsBack(ps[1..], ps[0]);
    }
  }

  lemma FrontSameParents(ps: seq<Process>, q: Process)
    requires ps != [] && q.id == ps[0].id && q.parentId == ps[0].parentId
    ensures SameParents(ps, ps[0 := q])
  {
    assert ps == [ps[0]] + ps[1..];
    assert ps[0 := q] == [q] + ps[1..];
    ListsFront(ps[1..], ps[0]);
    ListsFront(ps[1..], q);
  }

  lemma ScheduleSameParents(s: Sched, context: nat)
    requires UniqueIds(s.procs)
    ensures SameParents(s.procs, Schedule(s, context).0.procs)
  {
    var ps, k := s.procs, FirstRunnable(s.procs);
    if k < |ps| {
      var r := Without(ps, k);
      var next := ps[k].(state := Running);
      ListsFront(Preempt(r, context), next);
      if r != [] {
        assert Preempt(r, context) == r[0 := Preempt(r, context)[0]];
        FrontSameParents(r, Preempt(r, context)[0]);
      }
      forall x, p ensures Lists(ps, x, p) <==> Lists(r, x, p) || (x == next.id && p == next.parentId) {
        ListsWithout(ps, k, x, p);
        OnlyIndex(ps, next.id);
      }
    } else if ps != [] {
      FrontSameParents(ps, ps[0].(contextPtr := context));
      RotateSameParents(ps[0 := ps[0].(contextPtr := context)]);
    }
  }

  lemma AddAgrees(s: Sched, p: Process)
    requires IndexAgrees(s) && p.id != 0 && !Listed(s.procs, p.id)
    ensures IndexAgrees(AddProcess(s, p))
  {
    ListsBack(s.procs, p);
    forall q ensures !Lists(s.procs, p.id, q) {
      if i :| 0 <= i < |s.procs| && s.procs[i].id == p.id && s.procs[i].parentId == q {
        assert Ids(s.procs)[i] == p.id;
      }
    }
    assert p.id !in s.orphans;
  }

  lemma ListedLists(ps: seq<Process>, pid: nat)
    ensures Listed(ps, pid) <==> exists p :: Lists(ps, pid, p)
  {
    if Listed(ps, pid) {
      var i :| 0 <= i < |ps| && Ids(ps)[i] == pid;
      assert Lists(ps, pid, ps[i].parentId);
    }
    if p :| Lists(ps, pid, p) {
      var i :| 0 <= i < |ps| && ps[i].id == pid && ps[i].parentId == p;
      assert Ids(ps)[i] == pid;
    }
  }

  /** A pid that register_child may be given: not listed, or listed as a child of a real parent already. */
  ghost predicate Adoptable(ps: seq<Process>, parent: nat, child: nat) {
    Listed(ps, child) ==> Lists(ps, child, parent) && parent != 0
  }

  lemma OneParent(ps: seq<Process>, x: nat, p: nat, q: nat)
    requires UniqueIds(ps) && Lists(ps, x, p) && Lists(ps, x, q)
    ensures p == q
  {
    OnlyIndex(ps, x);
  }

  /** register_child keeps the records in agreement exactly when the child is adoptable: it rewrites
      the tree but never the child's own parent_id. */
  lemma RegisterAgrees(s: Sched, parent: nat, child: nat)
    requires IndexAgrees(s) && UniqueIds(s.procs) && !Listed(s.procs, 0)
    ensures IndexAgrees(RegisterChild(s, parent, child).0) <==> Adoptable(s.procs, parent, child)
  {
    var (t, outcome) := RegisterChild(s, parent, child);
    ListedLists(s.procs, child);
    ListedLists(s.procs, parent);
    OnlyIndex(s.procs, parent);
    RemoveFirstNoDuplicates(s.orphans, child);
    EachSameParents(s.procs, ChildAdded(parent, child));
    if Adoptable(s.procs, parent, child) {
      forall x, p | Lists(t.procs, x, p) ensures x in t.tree && t.tree[x] == p {
        if x == child { OneParent(s.procs, child, p, parent); }
      }
      if Lists(s.procs, child, 0) { OneParent(s.procs, child, 0, parent); }
      assert forall x :: x in t.orphans <==> Lists(t.procs, x, 0);
    } else {
      var p :| Lists(s.procs, child, p);
      assert Lists(t.procs, child, p);
      if p == parent {
        assert Lists(t.procs, child, 0) && child !in t.orphans;
      } else {
        assert t.tree[child] == parent;
      }
    }
  }

  /** A fork keeps the records in agreement exactly when it fails or the next pid is adoptable. */
  lemma ForkAgrees(s: Sched)
    requires IndexAgrees(s) && UniqueIds(s.procs) && !Listed(s.procs, 0)
    ensures IndexAgrees(Fork(s).0) <==> (CanFork(s) ==> Adoptable(s.procs, s.current, s.nextPid))
  {
    hide IndexAgrees;
    RecordsOnly(s, AllocatePid(s).0);
    if CanFork(s) { RegisterAgrees(AllocatePid(s).0, s.current, s.nextPid); }
  }

  lemma {:induction false} AscendingMultiset(s: set<nat>)
    ensures multiset(Ascending(s)) == multiset(s)
    decreases |s|
  {
    if s != {} {
      var m := Minimum(s);
      AscendingMultiset(s - {m});
      assert multiset(s) == multiset(s - {m}) + multiset{m};
    }
  }

  lemma {:induction false} OnlyListedContents(pids: seq<nat>, ps: seq<Process>)
    ensures forall x :: multiset(OnlyListed(pids, ps))[x] == if Listed(ps, x) then multiset(pids)[x] else 0
  {
    if pids != [] {
      var last := |pids| - 1;
      OnlyListedContents(pids[..last], ps);
      assert pids == pids[..last] + [pids[last]];
    }
  }

  /** How often a pid is in the orphans after an exit: once more if it is a listed child of `pid`. */
  lemma ExitOrphans(s: Sched, pid: nat, code: int, x: nat)
    requires IndexAgrees(s) && UniqueIds(s.procs)
    ensures var t := AfterExitOf(s, pid, code);
            multiset(t.orphans)[x] == multiset(s.orphans)[x] + if Lists(s.procs, x, pid) then 1 else 0
  {
    var kids := Kids(s.tree, pid);
    AscendingMultiset(kids);
    OnlyListedContents(Ascending(kids), s.procs);
    ListedLists(s.procs, x);
    if p :| Lists(s.procs, x, p) {
      assert s.tree[x] == p;
      if Lists(s.procs, x, pid) { OneParent(s.procs, x, p, pid); }
    }
  }

  lemma ExitLists(s: Sched, pid: nat, code: int, x: nat, p: nat)
    requires IndexAgrees(s)
    ensures Lists(AfterExitOf(s, pid, code).procs, x, p) <==>
            (Lists(s.procs, x, p) && p != pid) || (p == 0 && Lists(s.procs, x, pid))
  {
    var ps, qs := s.procs, AfterExitOf(s, pid, code).procs;
    ExitFields(s, pid, code);
    if i :| 0 <= i < |ps| && ps[i].id == x && ps[i].parentId == p {
      assert Lists(ps, x, p);
      assert qs[i].id == x;
    }
    if i :| 0 <= i < |ps| && ps[i].id == x && ps[i].parentId == pid {
      assert Lists(ps, x, pid);
      assert qs[i].id == x;
    }
    if i :| 0 <= i < |qs| && qs[i].id == x && qs[i].parentId == p {
      assert Lists(ps, x, ps[i].parentId);
    }
  }

  /** An exit keeps the records in agreement exactly when it is not pid 0 that exits over existing orphans. */
  lemma ExitAgrees(s: Sched, pid: nat, code: int)
    requires IndexAgrees(s) && UniqueIds(s.procs)
    ensures IndexAgrees(AfterExitOf(s, pid, code)) <==> pid != 0 || s.orphans == []
  {
    var t := AfterExitOf(s, pid, code);
    if pid == 0 && s.orphans != [] {
      var x := s.orphans[0];
      assert Lists(s.procs, x, 0);
      ExitOrphans(s, pid, code, x);
      assert multiset(s.orphans)[x] >= 1;
      assert !NoDuplicates(t.orphans);
    } else {
      forall x, p | Lists(t.procs, x, p) ensures x in t.tree && t.tree[x] == p {
        ExitLists(s, pid, code, x, p);
      }
      forall x ensures multiset(t.orphans)[x] <= 1 && (x in t.orphans <==> Lists(t.procs, x, 0)) {
        ExitOrphans(s, pid, code, x);
        ExitLists(s, pid, code, x, 0);
        assert x in t.orphans <==> multiset(t.orphans)[x] > 0;
        assert x in s.orphans <==> multiset(s.orphans)[x] > 0;
      }
    }
  }

  /** With agreeing records an exit clears every parent field that names the exiting pid, so that its later
      removal strands nobody; a timer kill clears none. */
  lemma ExitClearsParentFields(s: Sched, pid: nat, code: int)
    requires IndexAgrees(s) && pid != 0
    ensures !HasChildren(AfterExitOf(s, pid, code).procs, pid)
    ensures forall x :: HasChildren(Kill(s, pid).procs, x) <==> HasChildren(s.procs, x)
  {
    forall x ensures !Lists(AfterExitOf(s, pid, code).procs, x, pid) { ExitLists(s, pid, code, x, pid); }
    EachSameParents(s.procs, Killed(pid));
  }

  /** A timer kill, process by process: the victim dies, and everyone whose wait covers it is woken, its
      parent or not. */
  lemma KillFields(s: Sched, pid: nat)
    ensures var ps, qs := s.procs, Kill(s, pid).procs;
            && |qs| == |ps|
            && forall i :: 0 <= i < |ps| ==>
                 && qs[i].id == ps[i].id && qs[i].parentId == ps[i].parentId
                 && qs[i].state == (if ps[i].id == pid then Zombie
                                    else if ps[i].WaitsFor(pid) then Ready
                                    else ps[i].state)
                 && qs[i].exitCode == (if ps[i].id == pid then TIMEOUT_EXIT_CODE else ps[i].exitCode)
  {
    EachAt(s.procs, Killed(pid));
  }

  /** Once `pid` has exited nobody is recorded as its child. */
  lemma ExitLeavesNoChildren(s: Sched, pid: nat, code: int)
    requires pid != 0
    ensures Kids(AfterExitOf(s, pid, code).tree, pid) == {}
  {
  }

  /** Reaping keeps the records in agreement exactly when it is not pid 0 that reaps a zombie orphan:
      a reaped orphan stays in the orphan list. */
  lemma ReapAgrees(s: Sched, parent: nat, child: nat)
    requires IndexAgrees(s) && UniqueIds(s.procs)
    ensures IndexAgrees(ReapZombieChild(s, parent, child).0) <==> parent != 0 || !CanReap(s.procs, parent, child)
  {
    var (t, outcome) := ReapZombieChild(s, parent, child);
    var k := IndexOf(s.procs, child);
    CanReapIndex(s.procs, parent, child);
    if outcome.Reaped? {
      EachSameParents(Without(s.procs, k), ChildRemoved(parent, child));
      assert Lists(s.procs, child, parent);
      forall x, p ensures Lists(t.procs, x, p) <==> Lists(s.procs, x, p) && x != child {
        ListsWithout(s.procs, k, x, p);
      }
      assert child in t.orphans <==> parent == 0;
    }
  }

  lemma CleanupAgrees(s: Sched, pid: nat)
    requires IndexAgrees(s) && UniqueIds(s.procs)
    ensures IndexAgrees(CleanupTerminated(s, pid).0)
  {
    var (t, outcome) := CleanupTerminated(s, pid);
    var k := IndexOf(s.procs, pid);
    if outcome.Done? {
      RemoveFirstNoDuplicates(s.orphans, pid);
      forall x, p ensures Lists(t.procs, x, p) <==> Lists(s.procs, x, p) && x != pid {
        ListsWithout(s.procs, k, x, p);
      }
    }
  }
}
