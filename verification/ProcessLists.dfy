/** Facts about lists of processes with distinct pids. */
module ProcessLists {
  import opened Processes
  import opened SchedulerSpec

  lemma EachIds(ps: seq<Process>, change: Change)
    ensures Ids(Each(ps, change)) == Ids(ps)
  {
  }

  lemma SameIdsUnique(ps: seq<Process>, qs: seq<Process>)
    requires UniqueIds(ps) && Ids(qs) == Ids(ps)
    ensures UniqueIds(qs)
  {
  }

  lemma OnlyIndex(ps: seq<Process>, pid: nat)
    requires UniqueIds(ps)
    ensures forall i :: 0 <= i < |ps| ==> (ps[i].id == pid <==> i == IndexOf(ps, pid))
    ensures Listed(ps, pid) <==> IndexOf(ps, pid) < |ps|
  {
    var k := IndexOf(ps, pid);
    forall i | 0 <= i < |ps| ensures ps[i].id == pid <==> i == k {
      assert Ids(ps)[i] == ps[i].id;
      if k < |ps| { assert Ids(ps)[k] == pid; }
    }
    if k < |ps| { assert Ids(ps)[k] == pid; }
  }

  /** With distinct pids, updating the first match is updating every match. */
  lemma UpdateFirstIsEach(ps: seq<Process>, pid: nat, change: Change)
    requires UniqueIds(ps)
    requires forall i :: 0 <= i < |ps| && ps[i].id != pid ==> change.Of(ps[i]) == ps[i]
    ensures Ids(Each(ps, change)) == Ids(ps)
    ensures var k := IndexOf(ps, pid);
            Each(ps, change) == if k < |ps| then ps[k := change.Of(ps[k])] else ps
  {
    OnlyIndex(ps, pid);
    EachAt(ps, change);
    EachIds(ps, change);
  }

  lemma WithoutUnique(ps: seq<Process>, k: nat)
    requires UniqueIds(ps) && k < |ps|
    ensures UniqueIds(Without(ps, k)) && !Listed(Without(ps, k), ps[k].id)
  {
    var r := Without(ps, k);
    forall i | 0 <= i < |r| ensures Ids(r)[i] == Ids(ps)[if i < k then i else i + 1] {
    }
    assert Ids(ps)[k] == ps[k].id;
  }

  lemma FrontUnique(p: Process, ps: seq<Process>)
    requires UniqueIds(ps) && !Listed(ps, p.id)
    ensures UniqueIds([p] + ps)
  {
  }

  lemma BackUnique(ps: seq<Process>, p: Process)
    requires UniqueIds(ps)
    ensures UniqueIds(ps + [p]) <==> !Listed(ps, p.id)
  {
    var ids := Ids(ps + [p]);
    assert ids == Ids(ps) + [p.id];
    if Listed(ps, p.id) {
      var i :| 0 <= i < |ps| && Ids(ps)[i] == p.id;
      assert ids[i] == ids[|ps|];
    }
  }

  lemma PreemptIds(ps: seq<Process>, context: nat)
    ensures Ids(Preempt(ps, context)) == Ids(ps)
  {
  }

  lemma RotateUnique(ps: seq<Process>)
    requires UniqueIds(ps)
    ensures UniqueIds(Rotate(ps))
  {
    if ps != [] {
      assert Ids(Rotate(ps)) == Ids(ps)[1..] + [Ids(ps)[0]];
    }
  }

  lemma FrontIds(ps: seq<Process>, p: Process)
    requires ps != [] && p.id == ps[0].id
    ensures Ids(ps[0 := p]) == Ids(ps)
  {
  }
}
