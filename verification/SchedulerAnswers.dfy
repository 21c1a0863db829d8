/** What the operations of the scheduler answer and leave behind, process by process and in plain terms:
    contexts, children lists, exit codes, argument ranges. */
module SchedulerAnswers {
  import opened Basics
  import opened Processes
  import opened SchedulerSpec
  import opened ProcessLists
  import opened SchedulerRuns
  import opened SchedulerInvariants

  // ----- schedule

  /** Where position `i` goes when the process at `k` moves to the front. */
  function MovedTo(k: nat, i: nat): nat {
    if i == k then 0 else if i < k then i + 1 else i
  }

  /** A process that is taken off the CPU, or is thought to be. */
  function Saved(p: Process, context: nat): Process {
    p.(contextPtr := context, state := if p.state.Running? then Ready else p.state)
  }

  /** A switch: the first process that is Ready or Running comes to the front and runs, with its own saved
      context as the answer; the interrupted context is saved into the first of the others, and every other
      process is as it was. */
  lemma SwitchAnswers(s: Sched, context: nat, k: nat)
    requires k < |s.procs| && (s.procs[k].state.Ready? || s.procs[k].state.Running?)
    requires forall i :: 0 <= i < k ==> !s.procs[i].state.Ready? && !s.procs[i].state.Running?
    ensures var (t, outcome) := Schedule(s, context);
            && outcome == Switched(s.procs[k].contextPtr)
            && t.current == s.procs[k].id && t.currentPriority == s.procs[k].priority
            && |t.procs| == |s.procs| && (t.tree, t.orphans, t.nextPid) == (s.tree, s.orphans, s.nextPid)
            && forall i :: 0 <= i < |s.procs| ==>
                 t.procs[MovedTo(k, i)] ==
                 if i == k then s.procs[k].(state := Running)
                 else if i == (if k == 0 then 1 else 0) then Saved(s.procs[i], context)
                 else s.procs[i]
  {
    hide Schedule, Preempt, Without, FirstRunnable, Saved;
    assert FirstRunnable(s.procs) == k;
    var r := Without(s.procs, k);
    SwitchState(s, context, k);
    PreemptAt(r, context);
    WithoutAt(s.procs, k);
    var qs := Schedule(s, context).0.procs;
    forall i | 0 <= i < |s.procs|
      ensures qs[MovedTo(k, i)] ==
              if i == k then s.procs[k].(state := Running)
              else if i == (if k == 0 then 1 else 0) then Saved(s.procs[i], context)
              else s.procs[i]
    {
      if i != k {
        var j := if i < k then i else i - 1;
        assert qs[j + 1] == Preempt(r, context)[j] && r[j] == s.procs[i];
      }
    }
  }

  lemma WithoutAt(ps: seq<Process>, k: nat)
    requires k < |ps|
    ensures |Without(ps, k)| == |ps| - 1
    ensures forall j :: 0 <= j < |ps| - 1 ==> Without(ps, k)[j] == ps[if j < k then j else j + 1]
  {
  }

  lemma SwitchState(s: Sched, context: nat, k: nat)
    requires FirstRunnable(s.procs) == k < |s.procs|
    ensures var next := s.procs[k].(state := Running);
            Schedule(s, context) ==
            (s.(procs := [next] + Preempt(Without(s.procs, k), context), current := next.id,
                currentPriority := next.priority),
             Switched(s.procs[k].contextPtr))
  {
  }

  lemma PreemptAt(ps: seq<Process>, context: nat)
    ensures |Preempt(ps, context)| == |ps|
    ensures forall i :: 0 <= i < |ps| ==> Preempt(ps, context)[i] == if i == 0 then Saved(ps[0], context) else ps[i]
  {
  }

  /** With nothing runnable the list rotates: the interrupted context is saved into the process that was in
      front, the answer is the saved context of the one that comes to the front. */
  lemma RotationAnswers(s: Sched, context: nat)
    requires forall i :: 0 <= i < |s.procs| ==> !s.procs[i].state.Ready? && !s.procs[i].state.Running?
    ensures var (t, outcome) := Schedule(s, context);
            if s.procs == [] then t == s.(current := 0) && outcome == Switched(context)
            else
              var last := |s.procs| - 1;
              && |t.procs| == |s.procs| && t == s.(procs := t.procs, current := t.procs[0].id)
              && outcome == Switched(t.procs[0].contextPtr)
              && t.procs[last] == s.procs[0].(contextPtr := context)
              && forall i :: 0 < i <= last ==> t.procs[i - 1] == s.procs[i]
  {
    assert FirstRunnable(s.procs) == |s.procs|;
  }

  /** The interrupted process, if it is the current one in front, has its context saved exactly when it cannot
      run any more; otherwise it is chosen again, with its old context, and the process behind it has its own
      saved context overwritten. */
  lemma ContextSavedIff(s: Sched, context: nat)
    requires UniqueIds(s.procs) && FrontIsCurrent(s)
    ensures var (t, outcome) := Schedule(s, context);
            var k := IndexOf(t.procs, s.current);
            var runs := s.procs[0].state.Ready? || s.procs[0].state.Running?;
            && k < |t.procs|
            && (t.procs[k].contextPtr == context <==> !runs || s.procs[0].contextPtr == context)
            && (runs ==> t.current == s.current && outcome == Switched(s.procs[0].contextPtr))
            && (runs && |s.procs| > 1 ==> t.procs[1] == Saved(s.procs[1], context))
  {
    var t := Schedule(s, context).0;
    var k := FirstRunnable(s.procs);
    ScheduleUnique(s, context);
    OnlyIndex(t.procs, s.current);
    if k < |s.procs| {
      SwitchAnswers(s, context, k);
      assert t.procs[MovedTo(k, 0)].id == s.current;
    } else {
      RotationAnswers(s, context);
      assert t.procs[|t.procs| - 1].id == s.current;
    }
  }

  lemma ScheduleUnique(s: Sched, context: nat)
    requires UniqueIds(s.procs)
    ensures UniqueIds(Schedule(s, context).0.procs)
  {
    var k := FirstRunnable(s.procs);
    if k < |s.procs| {
      var rest := Without(s.procs, k);
      WithoutUnique(s.procs, k);
      PreemptIds(rest, context);
      FrontUnique(s.procs[k].(state := Running), Preempt(rest, context));
    } else if s.procs != [] {
      RotationIds(s.procs[0 := s.procs[0].(contextPtr := context)], s.procs);
    }
  }

  ghost predicate OnlySchedules(steps: seq<Step>) {
    forall i :: 0 <= i < |steps| ==> steps[i] == Enter(YieldCall) || (steps[i].Do? && steps[i].op.ScheduleOp?)
  }

  /** Nobody else ever gets the CPU by timer interrupts and yields: a current process in front that can run
      keeps it through any number of them. */
  lemma {:induction false} FrontKeepsCpu(s: Sched, steps: seq<Step>)
    requires FrontIsCurrent(s) && s.procs[0].Runnable() && OnlySchedules(steps)
    ensures var t := Run(s, steps);
            t.current == s.current && FrontIsCurrent(t) && t.procs[0].contextPtr == s.procs[0].contextPtr
    decreases |steps|
  {
    if steps != [] {
      var t := Apply(s, steps[0]).0;
      if steps[0].Do? {
        SwitchAnswers(s, steps[0].op.context, 0);
        assert t.procs[MovedTo(0, 0)].id == s.procs[0].id;
      }
      FrontKeepsCpu(t, steps[1..]);
    }
  }

  // ----- wait4

  /** A listed zombie child of `parent` that a wait4 for `target` covers. */
  predicate Matches(p: Process, parent: nat, target: nat) {
    p.parentId == parent && p.state == Zombie && (target == U64_VALUES - 1 || target == p.id)
  }

  /** The arguments wait4 takes. */
  predicate Acceptable(target: nat, statusPtr: nat, options: nat) {
    && (target == U64_VALUES - 1 || 1000 <= target <= 10000)
    && (statusPtr == 0 || 0x40_0000 <= statusPtr <= 0x7FFF_FFFB)
    && options == 0
  }

  /** wait4 with a matching zombie: the first in the list is removed, and its pid and exit code are the answer. */
  lemma Wait4Collects(s: Sched, target: nat, statusPtr: nat, options: nat, i: nat)
    requires Wf(s) && Acceptable(target, statusPtr, options)
    requires i < |s.procs| && Matches(s.procs[i], s.current, target)
    requires forall j :: 0 <= j < i ==> !Matches(s.procs[j], s.current, target)
    ensures var (t, outcome) := Wait4(s, target, statusPtr, options);
            && outcome == Reaped(s.procs[i].id, s.procs[i].exitCode)
            && t == ReapZombieChild(s, s.current, s.procs[i].id).0
            && Ids(t.procs) == Ids(s.procs)[..i] + Ids(s.procs)[i + 1..]
  {
    var p := s.procs[i];
    OnlyIndex(s.procs, p.id);
    assert Ids(s.procs)[i] == p.id;
    FirstZombie(s.procs, s.current, target, i);
    IdsWithout(s.procs, i);
    EachIds(Without(s.procs, i), ChildRemoved(s.current, p.id));
  }

  lemma {:induction false} FirstKept(ps: seq<Process>, selection: Selection, i: nat)
    requires i < |ps| && selection.Has(ps[i]) && forall j :: 0 <= j < i ==> !selection.Has(ps[j])
    ensures Keep(ps, selection) != [] && Keep(ps, selection)[0] == ps[i]
  {
    var last := |ps| - 1;
    if i < last {
      FirstKept(ps[..last], selection, i);
    } else {
      NoneKept(ps[..last], selection);
    }
  }

  lemma {:induction false} NoneKept(ps: seq<Process>, selection: Selection)
    requires forall j :: 0 <= j < |ps| ==> !selection.Has(ps[j])
    ensures Keep(ps, selection) == []
  {
    if ps != [] { NoneKept(ps[..|ps| - 1], selection); }
  }

  lemma FirstZombie(ps: seq<Process>, parent: nat, target: nat, i: nat)
    requires UniqueIds(ps) && !Listed(ps, 0) && i < |ps| && Matches(ps[i], parent, target)
    requires forall j :: 0 <= j < i ==> !Matches(ps[j], parent, target)
    ensures WaitChoice(ps, parent, target) == ps[i].id
  {
    if target == ANY_CHILD {
      FirstKept(ps, ZombiesOf(parent), i);
    } else {
      WaitChoiceIsComplete(ps, parent, target);
      assert Reapable(ps[i], parent, ps[i].id);
      assert ZombieMatches(ps, parent, target);
    }
  }

  /** Otherwise the caller, if it is in front, waits at the end of the list, and the answer is the saved context
      of the process that comes to the front, whatever its state; nothing else changes. */
  lemma Wait4Blocks(s: Sched, target: nat, statusPtr: nat, options: nat)
    requires Wf(s) && Acceptable(target, statusPtr, options) && FrontIsCurrent(s)
    requires forall j :: 0 <= j < |s.procs| ==> !Matches(s.procs[j], s.current, target)
    ensures var (t, outcome) := Wait4(s, target, statusPtr, options);
            var last := |s.procs| - 1;
            && |t.procs| == |s.procs| && t == s.(procs := t.procs, current := t.procs[0].id)
            && outcome == Blocked(t.procs[0].contextPtr)
            && t.procs[last] == s.procs[0].(state := Waiting(Child(target)))
            && forall i :: 0 < i <= last ==> t.procs[i - 1] == s.procs[i]
  {
    WaitChoiceIsComplete(s.procs, s.current, target);
  }

  /** In all other cases it is refused and nothing changes. */
  lemma Wait4Refuses(s: Sched, target: nat, statusPtr: nat, options: nat)
    requires Wf(s)
    requires !Acceptable(target, statusPtr, options) ||
             (!FrontIsCurrent(s) && forall j :: 0 <= j < |s.procs| ==> !Matches(s.procs[j], s.current, target))
    ensures Wait4(s, target, statusPtr, options) == (s, Failed)
  {
    if Acceptable(target, statusPtr, options) { WaitChoiceIsComplete(s.procs, s.current, target); }
  }

  // ----- exit

  /** The code is the argument's low 32 bits as a two's complement number. */
  lemma TruncatesToI32(arg: nat)
    ensures -0x8000_0000 <= AsI32(arg) < 0x8000_0000
    ensures (arg - AsI32(arg)) % 0x1_0000_0000 == 0
  {
  }

  /** The exit syscall is refused, without effect, exactly for codes outside -255..255; otherwise the current
      pid becomes 0 and the current process, if listed, holds the code. */
  lemma ExitAnswers(s: Sched, arg: nat)
    ensures var (t, outcome) := Exit(s, arg);
            var low := arg % 0x1_0000_0000;
            if 255 < low < 0xFFFF_FF01 then t == s && outcome == Failed
            else
              && outcome == Done && t == AfterExitOf(s, s.current, AsI32(arg)).(current := 0)
              && AsI32(arg) == if low <= 255 then low else low - 0x1_0000_0000
  {
  }

  /** The orphans an exit adds are the listed children the tree names, each once, in ascending order of pid. */
  lemma ExitAddsOrphansInOrder(s: Sched, pid: nat, code: int)
    ensures var orphans := AfterExitOf(s, pid, code).orphans;
            var added := orphans[|s.orphans|..];
            && |orphans| >= |s.orphans| && orphans[..|s.orphans|] == s.orphans
            && (forall i, j :: 0 <= i < j < |added| ==> added[i] < added[j])
            && (forall x :: x in added <==> x in s.tree && s.tree[x] == pid && Listed(s.procs, x))
  {
    var kids := Ascending(Kids(s.tree, pid));
    AscendingContents(Kids(s.tree, pid));
    OnlyListedOrder(kids, s.procs);
    var added := OnlyListed(kids, s.procs);
    assert (s.orphans + added)[|s.orphans|..] == added;
  }

  lemma {:induction false} OnlyListedOrder(pids: seq<nat>, ps: seq<Process>)
    requires forall i, j :: 0 <= i < j < |pids| ==> pids[i] < pids[j]
    ensures var r := OnlyListed(pids, ps);
            && (forall x :: x in r <==> x in pids && Listed(ps, x))
            && (forall i, j :: 0 <= i < j < |r| ==> r[i] < r[j])
  {
    if pids != [] {
      var last := |pids| - 1;
      OnlyListedOrder(pids[..last], ps);
      assert pids == pids[..last] + [pids[last]];
      var r := OnlyListed(pids[..last], ps);
      forall i | 0 <= i < |r| ensures r[i] < pids[last] {
        assert r[i] in pids[..last];
      }
    }
  }

  // ----- children lists

  /** `q` is `p` without the first `child` in its list of children, and with the count one lower. */
  predicate LostChild(p: Process, q: Process, child: nat) {
    exists i :: 0 <= i < |p.children| && p.children[i] == child && child !in p.children[..i] &&
      q == p.(children := p.children[..i] + p.children[i + 1..],
              stats := p.stats.(childrenCount := if p.stats.childrenCount == 0 then 0 else p.stats.childrenCount - 1))
  }

  lemma RemoveChildDrops(p: Process, child: nat)
    ensures var q := p.RemoveChild(child);
            if child in p.children then LostChild(p, q, child) else q == p
  {
    if child in p.children {
      var i := FirstPosition(p.children, child);
    }
  }

  lemma RemoveChildContents(p: Process, child: nat)
    ensures multiset(p.RemoveChild(child).children) == multiset(p.children) - multiset{child}
  {
    if child in p.children { RemoveFirstPresent(p.children, child); }
  }

  lemma {:induction false} FirstPosition(s: seq<nat>, x: nat) returns (i: nat)
    requires x in s
    ensures i < |s| && s[i] == x && x !in s[..i] && RemoveFirst(s, x) == s[..i] + s[i + 1..]
  {
    if s[0] == x {
      i := 0;
    } else {
      var j := FirstPosition(s[1..], x);
      i := j + 1;
      assert s[..i] == [s[0]] + s[1..][..j];
      assert s[i + 1..] == s[1..][j + 1..];
    }
  }

  /** `q` is `p` after losing `pid` as a child. */
  ghost predicate Bereft(p: Process, q: Process, pid: nat) {
    && multiset(q.children) == multiset(p.children) - multiset{pid}
    && q.stats == p.stats.(childrenCount := if pid in p.children then SaturatingPred(p.stats.childrenCount)
                                            else p.stats.childrenCount)
  }

  lemma RemoveChildBereaves(p: Process, pid: nat)
    ensures Bereft(p, p.RemoveChild(pid), pid)
  {
    RemoveChildContents(p, pid);
  }

  /** An exit, seen from one process: its children, and the fields no exit changes. */
  ghost predicate ExitLeavesIn(p: Process, q: Process, pid: nat, parent: nat) {
    && (if parent != 0 && p.id == parent then Bereft(p, q, pid) else q.children == p.children && q.stats == p.stats)
    && SameRest(p, q)
  }

  lemma SameChildrenBereft(p: Process, p': Process, q: Process, q': Process, pid: nat)
    requires Bereft(p, q, pid)
    requires p'.children == p.children && p'.stats == p.stats && q'.children == q.children && q'.stats == q.stats
    ensures Bereft(p', q', pid)
  {
  }

  lemma StrangerChildren(p: Process, tree: map<nat, nat>, pid: nat, parent: nat, code: int)
    requires parent == 0 || p.id != parent
    ensures ExitLeavesIn(p, AfterExit(p, tree, pid, parent, code), pid, parent)
  {
    hide Bereft, RemoveFirst;
  }

  /** The fields that neither dying, being orphaned, waking nor losing a child changes. */
  predicate SameRest(p: Process, q: Process) {
    q.contextPtr == p.contextPtr && q.pageTableFrame == p.pageTableFrame && q.priority == p.priority &&
        q.limits == p.limits
  }

  lemma RemoveChildRest(p: Process, pid: nat)
    ensures SameRest(p, p.RemoveChild(pid))
  {
  }

  lemma OrphanedAndWoken(p: Process, q: Process, pid: nat)
    requires q == p.WakeFrom(pid) || q == p.MakeOrphan().WakeFrom(pid)
    ensures SameRest(p, q) && q.children == p.children && q.stats == p.stats
  {
  }

  lemma ParentStages(p: Process, tree: map<nat, nat>, pid: nat, code: int) returns (p0: Process)
    requires p.id != 0
    ensures p0 == p || p0 == p.Exit(code)
    ensures var q, p1 := AfterExit(p, tree, pid, p.id, code), p0.RemoveChild(pid);
            q == p1.WakeFrom(pid) || q == p1.MakeOrphan().WakeFrom(pid)
  {
    p0 := if p.id == pid then p.Exit(code) else p;
  }

  lemma ParentChildren(p: Process, tree: map<nat, nat>, pid: nat, code: int)
    requires p.id != 0
    ensures ExitLeavesIn(p, AfterExit(p, tree, pid, p.id, code), pid, p.id)
  {
    hide Bereft, RemoveFirst, Kids, AfterExit;
    var p0 := ParentStages(p, tree, pid, code);
    var p1, q := p0.RemoveChild(pid), AfterExit(p, tree, pid, p.id, code);
    RemoveChildBereaves(p0, pid);
    RemoveChildRest(p0, pid);
    OrphanedAndWoken(p1, q, pid);
    SameChildrenBereft(p0, p, p1, q, pid);
  }

  lemma AfterExitChildren(p: Process, tree: map<nat, nat>, pid: nat, parent: nat, code: int)
    ensures ExitLeavesIn(p, AfterExit(p, tree, pid, parent, code), pid, parent)
  {
    hide AfterExit, ExitLeavesIn;
    if parent == 0 || p.id != parent {
      StrangerChildren(p, tree, pid, parent, code);
    } else {
      ParentChildren(p, tree, pid, code);
    }
  }

  /** The children lists after an exit: the exiting process leaves its real parent's list, once, and nobody
      else's list changes. */
  lemma ExitChildren(s: Sched, pid: nat, code: int)
    ensures var qs := AfterExitOf(s, pid, code).procs;
            && |qs| == |s.procs|
            && forall i :: 0 <= i < |qs| ==> ExitLeavesIn(s.procs[i], qs[i], pid, ParentOf(s.procs, pid))
  {
    hide AfterExit, ExitLeavesIn, ParentOf;
    var parent := ParentOf(s.procs, pid);
    EachAt(s.procs, Exited(s.tree, pid, parent, code));
    forall i | 0 <= i < |s.procs|
      ensures ExitLeavesIn(s.procs[i], AfterExitOf(s, pid, code).procs[i], pid, parent)
    {
      AfterExitChildren(s.procs[i], s.tree, pid, parent, code);
    }
  }

  function SaturatingPred(n: nat): nat {
    if n == 0 then 0 else n - 1
  }

  /** After a reap the child leaves the reaper's list, and every other process is as it was. */
  lemma ReapLeaves(s: Sched, parent: nat, child: nat, i: nat)
    requires UniqueIds(s.procs) && i < |s.procs| && s.procs[i].id == child
    requires s.procs[i].parentId == parent && s.procs[i].state == Zombie
    ensures var (t, outcome) := ReapZombieChild(s, parent, child);
            && outcome == Reaped(child, s.procs[i].exitCode)
            && |t.procs| == |s.procs| - 1 && t == s.(procs := t.procs, tree := s.tree - {child})
            && forall j :: 0 <= j < |t.procs| ==> Forgot(s.procs[if j < i then j else j + 1], t.procs[j], parent, child)
  {
    hide LostChild, Forgot;
    OnlyIndex(s.procs, child);
    var r := Without(s.procs, i);
    var change := ChildRemoved(parent, child);
    EachAt(r, change);
    forall j | 0 <= j < |r| ensures Forgot(s.procs[if j < i then j else j + 1], Each(r, change)[j], parent, child) {
      Forgets(r[j], parent, child);
    }
  }

  /** The parent has lost the child, if it had it; anyone else is the same. */
  ghost predicate Forgot(p: Process, q: Process, parent: nat, child: nat) {
    if p.id == parent && child in p.children then LostChild(p, q, child) else q == p
  }

  lemma Forgets(p: Process, parent: nat, child: nat)
    ensures Forgot(p, ChildRemoved(parent, child).Of(p), parent, child)
  {
    RemoveChildDrops(p, child);
  }

  /** A reap of anything but a zombie child of the reaper is refused without effect. */
  lemma ReapRefuses(s: Sched, parent: nat, child: nat)
    requires forall i :: 0 <= i < |s.procs| && s.procs[i].id == child ==>
                           s.procs[i].parentId != parent || s.procs[i].state != Zombie
    ensures ReapZombieChild(s, parent, child) == (s, Failed)
  {
  }

  /** A fork and the exit of the forked child give the parent its slot back. */
  lemma SlotComesBack(s: Sched, child: Process, code: int)
    requires Wf(s) && CanFork(s) && !Listed(s.procs, s.nextPid) && s.nextPid !in s.procs[0].children
    requires child.id == s.nextPid && child.parentId == s.current && -255 <= code <= 255
    ensures var forked := AddProcess(Fork(s).0, child);
            var left := HandleExit(forked, s.nextPid, code).0;
            && forked.procs[0].children == s.procs[0].children + [s.nextPid]
            && forked.procs[0].stats.childrenCount == s.procs[0].stats.childrenCount + 1
            && left.procs[0].children == s.procs[0].children && left.procs[0].stats == s.procs[0].stats
  {
    var forked := AddProcess(Fork(s).0, child);
    ForkedFamily(s, child);
    hide Fork, AddProcess;
    LastChildLeaves(forked, s.procs[0], s.nextPid, code);
  }

  lemma ForkedFamily(s: Sched, child: Process)
    requires Wf(s) && CanFork(s) && !Listed(s.procs, s.nextPid)
    requires child.id == s.nextPid && child.parentId == s.current
    ensures var forked := AddProcess(Fork(s).0, child);
            && forked.procs != [] && forked.procs[0] == s.procs[0].AddChild(s.nextPid) && s.procs[0].id != 0
            && s.procs[0].id != s.nextPid && ParentOf(forked.procs, s.nextPid) == s.procs[0].id
            && Listed(forked.procs, s.nextPid)
  {
    var grown := Each(s.procs, ChildAdded(s.current, s.nextPid));
    EachAt(s.procs, ChildAdded(s.current, s.nextPid));
    EachIds(s.procs, ChildAdded(s.current, s.nextPid));
    assert Ids(s.procs)[0] == s.current;
    BackUnique(grown, child);
    OnlyIndex(grown + [child], s.nextPid);
    assert (grown + [child])[|grown|] == child;
  }

  lemma LastChildLeaves(s: Sched, front: Process, pid: nat, code: int)
    requires s.procs != [] && s.procs[0] == front.AddChild(pid) && front.id != 0 && front.id != pid
    requires pid !in front.children && ParentOf(s.procs, pid) == front.id && -255 <= code <= 255
    ensures var q := HandleExit(s, pid, code).0.procs;
            q != [] && q[0].children == front.children && q[0].stats == front.stats
  {
    hide Each, ParentOf, AfterExit, RemoveFirst;
    var parent := s.procs[0];
    EachAt(s.procs, Exited(s.tree, pid, front.id, code));
    var p0 := ParentStages(parent, s.tree, pid, code);
    LastChildRemoved(front, p0, pid);
    OrphanedAndWoken(p0.RemoveChild(pid), AfterExit(parent, s.tree, pid, front.id, code), pid);
  }

  lemma LastChildRemoved(front: Process, p: Process, pid: nat)
    requires pid !in front.children && p.children == front.AddChild(pid).children &&
             p.stats == front.AddChild(pid).stats
    ensures p.RemoveChild(pid).children == front.children && p.RemoveChild(pid).stats == front.stats
  {
    hide RemoveFirst;
    var i := FirstPosition(front.children + [pid], pid);
    assert i == |front.children|;
    assert (front.children + [pid])[..i] == front.children;
  }

  // ----- the other operations

  /** register_child, process by process: the parent's list grows by the child unless the list is full, when only
      the tree entry is written. */
  lemma RegisterAnswers(s: Sched, parent: nat, child: nat, k: nat)
    requires UniqueIds(s.procs) && k < |s.procs| && s.procs[k].id == parent
    ensures var (t, outcome) := RegisterChild(s, parent, child);
            var p := s.procs[k];
            if p.stats.childrenCount >= p.limits.maxProcesses
            then outcome == Failed && t == s.(tree := s.tree[child := parent])
            else
              && outcome == Done && |t.procs| == |s.procs|
              && t == s.(tree := s.tree[child := parent], procs := t.procs, orphans := t.orphans)
              && multiset(t.orphans) == multiset(s.orphans) - multiset{child}
              && forall i :: 0 <= i < |s.procs| ==>
                   t.procs[i] ==
                   if i == k then p.(children := p.children + [child],
                                     stats := p.stats.(childrenCount := p.stats.childrenCount + 1))
                   else s.procs[i]
  {
    OnlyIndex(s.procs, parent);
    EachAt(s.procs, ChildAdded(parent, child));
    if child in s.orphans { RemoveFirstPresent(s.orphans, child); } else { RemoveFirstAbsent(s.orphans, child); }
  }

  /** A clean-up of a listed zombie takes it out of the list, the tree and, once, the orphans; of anything else it is
      refused without effect. */
  lemma CleanupAnswers(s: Sched, pid: nat, k: nat)
    requires UniqueIds(s.procs) && k <= |s.procs|
    requires if k < |s.procs| then s.procs[k].id == pid else forall i :: 0 <= i < |s.procs| ==> s.procs[i].id != pid
    ensures var (t, outcome) := CleanupTerminated(s, pid);
            if k < |s.procs| && s.procs[k].state == Zombie then
              && outcome == Done && t ==
                 s.(procs := s.procs[..k] + s.procs[k + 1..], tree := t.tree, orphans := t.orphans)
              && pid !in t.tree && (forall x :: x in t.tree <==> x in s.tree && x != pid)
              && (forall x :: x in t.tree ==> t.tree[x] == s.tree[x])
              && multiset(t.orphans) == multiset(s.orphans) - multiset{pid}
            else t == s && outcome == Failed
  {
    OnlyIndex(s.procs, pid);
    if pid in s.orphans { RemoveFirstPresent(s.orphans, pid); } else { RemoveFirstAbsent(s.orphans, pid); }
  }

  /** Whatever pids are cleaned up, the count is the number of processes that left the list. */
  lemma {:induction false} CleanupCountsLeavers(s: Sched, pids: seq<nat>)
    ensures var (t, count) := CleanupEach(s, pids); count == |s.procs| - |t.procs|
  {
    if pids != [] { CleanupCountsLeavers(s, pids[..|pids| - 1]); }
  }

  /** A fork in plain numbers: the caller is in front, none of its four usages exceeds its limit, and it has a free
      slot. */
  lemma ForksIff(s: Sched)
    ensures Fork(s).1 == Forked(s.nextPid) <==>
            && |s.procs| > 0 && s.procs[0].id == s.current
            && s.procs[0].stats.memoryUsed <= s.procs[0].limits.maxMemory
            && s.procs[0].stats.cpuTimeUsed <= s.procs[0].limits.maxCpuTime
            && s.procs[0].stats.filesOpened <= s.procs[0].limits.maxFiles
            && s.procs[0].stats.childrenCount < s.procs[0].limits.maxProcesses
    ensures Fork(s).1 != Forked(s.nextPid) ==> Fork(s) == (s, Failed)
  {
    if FrontIsCurrent(s) { assert IndexOf(s.procs, s.current) == 0; }
  }

  /** A user pointer is good for `size` bytes, a page at most, exactly when these and the address behind them are
      user addresses. */
  lemma ValidPointers(ptr: nat, size: nat)
    ensures ValidUserPointer(ptr, size) <==>
            size <= 4096 && forall a :: ptr <= a <= ptr + size ==> UserAddress(a)
  {
    if forall a :: ptr <= a <= ptr + size ==> UserAddress(a) {
      assert UserAddress(ptr) && UserAddress(ptr + size);
    }
  }

  predicate UserAddress(a: nat) {
    0x40_0000 <= a <= 0x7FFF_FFFF
  }

  /** The pids handed out along a run, by `allocate_pid` or by fork. */
  function HandedOut(s: Sched, steps: seq<Step>): seq<nat>
    decreases |steps|
  {
    if steps == [] then []
    else
      var (t, outcome) := Apply(s, steps[0]);
      (match outcome
       case Allocated(pid) => [pid]
       case Forked(child) => [child]
       case _ => []) + HandedOut(t, steps[1..])
  }

  lemma NextPidOnlyMoves(s: Sched, step: Step)
    ensures var (t, outcome) := Apply(s, step);
            match outcome
            case Allocated(pid) => pid == s.nextPid && t.nextPid == s.nextPid + 1
            case Forked(child) => child == s.nextPid && t.nextPid == s.nextPid + 1
            case _ => t.nextPid == s.nextPid
  {
    hide Each, Ids, Without, Rotate, Preempt, RemoveFirst, Ascending, OnlyListed, Keep, WaitChoice;
    if step == Enter(ForkCall) && FrontIsCurrent(s) { assert IndexOf(s.procs, s.current) == 0; }
  }

  /** Over every run pids are handed out one after the other, without gap or repetition. */
  lemma {:induction false} PidsAreConsecutive(s: Sched, steps: seq<Step>)
    ensures var pids := HandedOut(s, steps);
            && Run(s, steps).nextPid == s.nextPid + |pids|
            && forall i :: 0 <= i < |pids| ==> pids[i] == s.nextPid + i
    decreases |steps|
  {
    if steps != [] {
      NextPidOnlyMoves(s, steps[0]);
      PidsAreConsecutive(Apply(s, steps[0]).0, steps[1..]);
    }
  }

  /** yield makes the caller ready, if it is in front, and does nothing else. */
  lemma YieldAnswers(s: Sched)
    ensures var (t, outcome) := Yield(s);
            && outcome == Done && |t.procs| == |s.procs| && t == s.(procs := t.procs)
            && forall i :: 0 <= i < |s.procs| ==>
                 t.procs[i] ==
                 if i == 0 && s.procs[0].id == s.current then s.procs[0].(state := Ready) else s.procs[i]
  {
  }

  /** No process sleeps in wait4 for a pid, or for any child, while a zombie child of it with that pid, or any
      zombie child, is listed. */
  lemma SleepersHaveNothingToCollect(ps: seq<Process>, i: nat, j: nat, target: nat)
    requires NoLostWakeup(ps) && i < |ps| && j < |ps|
    ensures !(ps[i].state == Waiting(Child(target)) && Matches(ps[j], ps[i].id, target))
  {
  }
}
