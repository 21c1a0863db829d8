/** Memory handles of src/ipc.rs: the registry and the operations of `ipc::syscalls`, on values. */
module HandleSpec {
  import opened Basics

  type Usize = x: int | 0 <= x < U64_VALUES

  datatype AccessRights = ReadOnly | ReadWrite | Execute | NoAccess

  datatype TransferMode = Ownership | Shared | Exclusive

  datatype PageRange = PageRange(start: Usize, size: Usize)
  {
    predicate IsValid() {
      start % PAGE == 0 && size % PAGE == 0 && size > 0
    }

    /** `checked_add(4095)`, then division; None is InvalidRange. */
    function PageCount(): Option<nat> {
      if size + 4095 >= U64_VALUES then None else Some((size + 4095) / PAGE)
    }
  }

  datatype Handle = Handle(
    id: nat, owner: nat, holder: nat, range: PageRange, rights: AccessRights, mode: TransferMode,
    active: bool, isMapped: bool, holderAddr: Option<nat>)
  {
    predicate HasAccess(pid: nat) {
      active && (pid == owner || pid == holder)
    }

    predicate Validates() {
      active && range.IsValid() && id != 0
    }

    function Revoke(): Handle {
      this.(active := false, rights := NoAccess)
    }
  }

  datatype Registry = Registry(handles: seq<Handle>, nextId: nat)

  datatype Error = InvalidRange | AccessDenied | CircularTransfer | HandleNotFound

  datatype Event =
    | Created(id: nat, owner: nat, range: PageRange, rights: AccessRights, mode: TransferMode)
    | Transferred(id: nat, target: nat)
    | Received(id: nat, range: PageRange)
    | Revoked(id: nat)
    | CleanedUp(pid: nat)
    | Refused(error: Error)

  function Find(hs: seq<Handle>, id: nat): (k: nat)
    ensures k <= |hs|
    ensures k < |hs| ==> hs[k].id == id
    ensures forall i :: 0 <= i < k ==> hs[i].id != id
  {
    if hs == [] then 0
    else if hs[0].id == id then 0
    else 1 + Find(hs[1..], id)
  }

  function Put(r: Registry, k: nat, h: Handle): Registry
    requires k < |r.handles|
  {
    r.(handles := r.handles[k := h])
  }

  function Create(r: Registry, caller: nat, range: PageRange, rights: AccessRights, mode: TransferMode)
    : (Registry, Event)
  {
    if !range.IsValid() then (r, Refused(InvalidRange))
    else
      (Registry(r.handles + [Handle(r.nextId, caller, caller, range, rights, mode, true, false, None)], r.nextId + 1),
       Created(r.nextId, caller, range, rights, mode))
  }

  function Transfer(r: Registry, caller: nat, id: nat, target: nat): (Registry, Event) {
    var k := Find(r.handles, id);
    if caller == target then (r, Refused(CircularTransfer))
    else if k == |r.handles| then (r, Refused(HandleNotFound))
    else
      var h := r.handles[k];
      if h.owner != caller then (r, Refused(AccessDenied))
      else if !h.Validates() then (r, Refused(InvalidRange))
      else if h.range.PageCount().None? then (r, Refused(InvalidRange))
      else (Put(r, k, h.(holder := target)), Transferred(id, target))
  }

  function Receive(r: Registry, caller: nat, id: nat): (Registry, Event) {
    var k := Find(r.handles, id);
    if k == |r.handles| then (r, Refused(HandleNotFound))
    else
      var h := r.handles[k];
      if h.holder != caller then (r, Refused(AccessDenied))
      else if !h.Validates() then (r, Refused(InvalidRange))
      else if h.range.PageCount().None? then (r, Refused(InvalidRange))
      else (Put(r, k, h.(isMapped := true, holderAddr := Some(h.range.start))), Received(id, h.range))
  }

  /** The handle is revoked before the page count that could still fail. */
  function RevokeHandle(r: Registry, caller: nat, id: nat): (Registry, Event) {
    var k := Find(r.handles, id);
    if k == |r.handles| then (r, Refused(HandleNotFound))
    else
      var h := r.handles[k];
      if h.owner != caller then (r, Refused(AccessDenied))
      else if h.isMapped && h.range.PageCount().None? then (Put(r, k, h.Revoke()), Refused(InvalidRange))
      else if h.isMapped then (Put(r, k, h.Revoke().(isMapped := false, holderAddr := None)), Revoked(id))
      else (Put(r, k, h.Revoke()), Revoked(id))
  }

  predicate Concerns(h: Handle, pid: nat) {
    h.owner == pid || h.holder == pid
  }

  /** The handles `pid` neither owns nor holds, in order. */
  function Unconcerned(hs: seq<Handle>, pid: nat): seq<Handle> {
    if hs == [] then []
    else if Concerns(hs[0], pid) then Unconcerned(hs[1..], pid)
    else [hs[0]] + Unconcerned(hs[1..], pid)
  }

  function Cleanup(r: Registry, pid: nat): (Registry, Event) {
    (r.(handles := Unconcerned(r.handles, pid)), CleanedUp(pid))
  }

  // ----- runs

  datatype Step =
    | CreateStep(caller: nat, range: PageRange, rights: AccessRights, mode: TransferMode)
    | TransferStep(caller: nat, id: nat, target: nat)
    | ReceiveStep(caller: nat, id: nat)
    | RevokeStep(caller: nat, id: nat)
    | CleanupStep(pid: nat)

  function Apply(r: Registry, step: Step): (Registry, Event) {
    match step
    case CreateStep(caller, range, rights, mode) => Create(r, caller, range, rights, mode)
    case TransferStep(caller, id, target) => Transfer(r, caller, id, target)
    case ReceiveStep(caller, id) => Receive(r, caller, id)
    case RevokeStep(caller, id) => RevokeHandle(r, caller, id)
    case CleanupStep(pid) => Cleanup(r, pid)
  }

  function Run(r: Registry, steps: seq<Step>): (Registry, seq<Event>) {
    if steps == [] then (r, [])
    else
      var last := |steps| - 1;
      var (before, events) := Run(r, steps[..last]);
      var (after, event) := Apply(before, steps[last]);
      (after, events + [event])
  }

  const EMPTY: Registry := Registry([], 1)
}

/** The registry object. */
module HandleObject {
  import opened Basics
  import opened HandleSpec

  /** The next handle is dropped, or moves over to those kept. */
  lemma UnconcernedStep(kept: seq<Handle>, h: Handle, rest: seq<Handle>, pid: nat)
    ensures kept + Unconcerned([h] + rest, pid) ==
            (if h.owner == pid || h.holder == pid then kept else kept + [h]) + Unconcerned(rest, pid)
  {
    assert ([h] + rest)[1..] == rest;
  }

  class HandleRegistry {
    var handles: seq<Handle>
    var nextId: nat

    ghost function State(): Registry
      reads this
    {
      Registry(handles, nextId)
    }

    constructor ()
      ensures State() == EMPTY
    {
      handles, nextId := [], 1;
    }

    method Position(id: nat) returns (k: nat)
      ensures k == Find(handles, id)
    {
      k := 0;
      while k < |handles| && handles[k].id != id
        invariant k <= |handles|
        invariant forall i :: 0 <= i < k ==> handles[i].id != id
      {
        k := k + 1;
      }
    }

    method CreateHandle(caller: nat, range: PageRange, rights: AccessRights, mode: TransferMode) returns (event: Event)
      modifies this
      ensures (State(), event) == Create(old(State()), caller, range, rights, mode)
    {
      if !range.IsValid() {
        return Refused(InvalidRange);
      }
      var id := nextId;
      nextId := nextId + 1;
      handles := handles + [Handle(id, caller, caller, range, rights, mode, true, false, None)];
      event := Created(id, caller, range, rights, mode);
    }

    method TransferMemory(caller: nat, id: nat, target: nat) returns (event: Event)
      modifies this
      ensures (State(), event) == Transfer(old(State()), caller, id, target)
    {
      if caller == target {
        return Refused(CircularTransfer);
      }
      var k := Position(id);
      if k == |handles| {
        return Refused(HandleNotFound);
      }
      if handles[k].owner != caller {
        return Refused(AccessDenied);
      }
      if !handles[k].Validates() || handles[k].range.PageCount().None? {
        return Refused(InvalidRange);
      }
      handles := handles[k := handles[k].(holder := target)];
      event := Transferred(id, target);
    }

    method ReceiveMemoryHandle(caller: nat, id: nat) returns (event: Event)
      modifies this
      ensures (State(), event) == Receive(old(State()), caller, id)
    {
      var k := Position(id);
      if k == |handles| {
        return Refused(HandleNotFound);
      }
      if handles[k].holder != caller {
        return Refused(AccessDenied);
      }
      if !handles[k].Validates() || handles[k].range.PageCount().None? {
        return Refused(InvalidRange);
      }
      event := Received(id, handles[k].range);
      handles := handles[k := handles[k].(isMapped := true, holderAddr := Some(handles[k].range.start))];
    }

    method RevokeMemoryHandle(caller: nat, id: nat) returns (event: Event)
      modifies this
      ensures (State(), event) == RevokeHandle(old(State()), caller, id)
    {
      var k := Position(id);
      if k == |handles| {
        return Refused(HandleNotFound);
      }
      if handles[k].owner != caller {
        return Refused(AccessDenied);
      }
      handles := handles[k := handles[k].Revoke()];
      if handles[k].isMapped {
        if handles[k].range.PageCount().None? {
          return Refused(InvalidRange);
        }
        handles := handles[k := handles[k].(isMapped := false, holderAddr := None)];
        assert handles == old(handles)[k := handles[k]];
      }
      event := Revoked(id);
    }

    /** The index stands still when an element is removed under it. */
    method CleanupProcessHandles(pid: nat)
      modifies this
      ensures State() == Cleanup(old(State()), pid).0
    {
      var i := 0;
      while i < |handles|
        modifies this`handles
        invariant i <= |handles|
        invariant handles[..i] + Unconcerned(handles[i..], pid) == Unconcerned(old(handles), pid)
        decreases |handles| - i
      {
        hide Unconcerned;
        ghost var before := handles;
        assert before[i..][1..] == before[i + 1..] && before[i..][0] == before[i];
        UnconcernedStep(before[..i], before[i], before[i + 1..], pid);
        assert before[i..] == [before[i]] + before[i + 1..];
        var shouldRemove := handles[i].owner == pid || handles[i].holder == pid;
        if shouldRemove {
          handles := handles[i := handles[i].Revoke()];
          handles := handles[..i] + handles[i + 1..];
          assert handles[..i] == before[..i] && handles[i..] == before[i + 1..];
        } else {
          assert handles[..i + 1] == handles[..i] + [handles[i]];
          i := i + 1;
        }
      }
      assert handles[i..] == [] && handles[..i] == handles;
    }
  }
}

/** The life cycle of a memory handle over every run. */
module HandleTheorems {
  import opened Basics
  import opened HandleSpec

  // ----- what a history says about a handle

  predicate WasRevoked(events: seq<Event>, id: nat) {
    exists i :: 0 <= i < |events| && events[i] == Revoked(id)
  }

  ghost predicate WasCreated(events: seq<Event>, id: nat, owner: nat, range: PageRange) {
    exists i :: 0 <= i < |events| && events[i].Created? &&
        (events[i].id, events[i].owner, events[i].range) == (id, owner, range)
  }

  predicate WasReceived(events: seq<Event>, id: nat) {
    exists i :: 0 <= i < |events| && events[i].Received? && events[i].id == id
  }

  /** The event is the creation of the handle, with the rights it has as long as it is active. */
  predicate Creates(e: Event, h: Handle) {
    && e.Created? && (e.id, e.owner, e.range, e.mode) == (h.id, h.owner, h.range, h.mode)
    && (h.active ==> e.rights == h.rights)
  }

  ghost predicate CreatedAs(events: seq<Event>, h: Handle) {
    exists i :: 0 <= i < |events| && Creates(events[i], h)
  }

  /** The target of the last successful transfer, or the creator when there was none. */
  function LastTarget(events: seq<Event>, id: nat, creator: nat): nat {
    if events == [] then creator
    else
      var e := events[|events| - 1];
      if e.Transferred? && e.id == id then e.target else LastTarget(events[..|events| - 1], id, creator)
  }

  predicate Mentions(e: Event, id: nat) {
    (e.Created? || e.Transferred? || e.Received? || e.Revoked?) && e.id == id
  }

  /** The handle is what its history makes it. */
  ghost predicate Faithful(h: Handle, events: seq<Event>) {
    && h.range.IsValid()
    && CreatedAs(events, h)
    && h.holder == LastTarget(events, h.id, h.owner)
    && (h.active <==> !WasRevoked(events, h.id))
    && (!h.active ==> h.rights == NoAccess)
    && (h.isMapped <==> h.active && WasReceived(events, h.id))
    && (h.holderAddr == if h.isMapped then Some(h.range.start) else None)
  }

  ghost predicate Traced(r: Registry, events: seq<Event>) {
    && r.nextId > 0
    && (forall i, j :: 0 <= i < j < |r.handles| ==> r.handles[i].id != r.handles[j].id)
    && (forall i :: 0 <= i < |r.handles| ==> 0 < r.handles[i].id < r.nextId && Faithful(r.handles[i], events))
    && (forall i, id: nat :: 0 <= i < |events| && Mentions(events[i], id) ==> id < r.nextId)
  }

  // ----- page counts

  /** No valid range is too large to count: the largest multiple of 4096 below 2^64 leaves room for 4095. */
  lemma PageCountNeverFails(range: PageRange)
    requires range.IsValid()
    ensures range.PageCount() == Some(range.size / PAGE)
  {
  }

  // ----- histories grow

  lemma HistoryStep(events: seq<Event>, e: Event, id: nat, creator: nat)
    ensures WasRevoked(events + [e], id) <==> WasRevoked(events, id) || e == Revoked(id)
    ensures WasReceived(events + [e], id) <==> WasReceived(events, id) || (e.Received? && e.id == id)
    ensures forall h :: CreatedAs(events + [e], h) <==> CreatedAs(events, h) || Creates(e, h)
    ensures LastTarget(events + [e], id, creator) ==
            if e.Transferred? && e.id == id then e.target else LastTarget(events, id, creator)
  {
    var es := events + [e];
    assert es[..|events|] == events;
    if i :| 0 <= i < |events| && events[i] == Revoked(id) { assert es[i] == Revoked(id); }
    if e == Revoked(id) { assert es[|events|] == Revoked(id); }
    if i :| 0 <= i < |events| && events[i].Received? && events[i].id == id { assert es[i].Received?; }
    if e.Received? && e.id == id { assert es[|events|] == e; }
    forall h ensures CreatedAs(es, h) <==> CreatedAs(events, h) || Creates(e, h) {
      if i :| 0 <= i < |events| && Creates(events[i], h) { assert Creates(es[i], h); }
      if Creates(e, h) { assert Creates(es[|events|], h); }
    }
  }

  lemma UnmentionedStays(h: Handle, events: seq<Event>, e: Event)
    requires Faithful(h, events) && !Mentions(e, h.id)
    ensures Faithful(h, events + [e])
  {
    HistoryStep(events, e, h.id, h.owner);
  }

  lemma {:induction false} NewIdHasNoHistory(events: seq<Event>, id: nat, creator: nat)
    requires forall i :: 0 <= i < |events| ==> !Mentions(events[i], id)
    ensures LastTarget(events, id, creator) == creator && !WasRevoked(events, id) && !WasReceived(events, id)
  {
    if events != [] {
      NewIdHasNoHistory(events[..|events| - 1], id, creator);
    }
  }

  lemma QuietTraced(r: Registry, events: seq<Event>, e: Event)
    requires Traced(r, events) && (e.Refused? || e.CleanedUp?)
    ensures Traced(r, events + [e])
  {
    forall i | 0 <= i < |r.handles| ensures Faithful(r.handles[i], events + [e]) {
      UnmentionedStays(r.handles[i], events, e);
    }
  }

  lemma PutTraced(r: Registry, events: seq<Event>, k: nat, h: Handle, e: Event)
    requires Traced(r, events) && k < |r.handles| && h.id == r.handles[k].id && Faithful(h, events + [e])
    requires forall id: nat :: Mentions(e, id) ==> id == h.id
    ensures Traced(Put(r, k, h), events + [e])
  {
    var hs := r.handles[k := h];
    forall i | 0 <= i < |hs| ensures 0 < hs[i].id < r.nextId && Faithful(hs[i], events + [e]) {
      if i != k { UnmentionedStays(hs[i], events, e); }
    }
  }

  // ----- steps

  lemma CreateTraced(r: Registry, events: seq<Event>, caller: nat, range: PageRange, rights: AccessRights,
                     mode: TransferMode)
    requires Traced(r, events)
    ensures var (r', e) := Create(r, caller, range, rights, mode); Traced(r', events + [e])
  {
    var (r', e) := Create(r, caller, range, rights, mode);
    if e.Refused? {
      QuietTraced(r, events, e);
    } else {
      forall i | 0 <= i < |r.handles| ensures Faithful(r.handles[i], events + [e]) {
        UnmentionedStays(r.handles[i], events, e);
      }
      NewIdHasNoHistory(events, r.nextId, caller);
      HistoryStep(events, e, r.nextId, caller);
    }
  }

  lemma TransferTraced(r: Registry, events: seq<Event>, caller: nat, id: nat, target: nat)
    requires Traced(r, events)
    ensures var (r', e) := Transfer(r, caller, id, target); Traced(r', events + [e])
  {
    var (r', e) := Transfer(r, caller, id, target);
    if e.Refused? {
      QuietTraced(r, events, e);
    } else {
      var k := Find(r.handles, id);
      HistoryStep(events, e, id, r.handles[k].owner);
      PutTraced(r, events, k, r.handles[k].(holder := target), e);
    }
  }

  lemma ReceiveTraced(r: Registry, events: seq<Event>, caller: nat, id: nat)
    requires Traced(r, events)
    ensures var (r', e) := Receive(r, caller, id); Traced(r', events + [e])
  {
    var (r', e) := Receive(r, caller, id);
    if e.Refused? {
      QuietTraced(r, events, e);
    } else {
      var k := Find(r.handles, id);
      var h := r.handles[k];
      HistoryStep(events, e, id, h.owner);
      PutTraced(r, events, k, h.(isMapped := true, holderAddr := Some(h.range.start)), e);
    }
  }

  lemma RevokeTraced(r: Registry, events: seq<Event>, caller: nat, id: nat)
    requires Traced(r, events)
    ensures var (r', e) := RevokeHandle(r, caller, id); Traced(r', events + [e])
  {
    var (r', e) := RevokeHandle(r, caller, id);
    var k := Find(r.handles, id);
    if k == |r.handles| || r.handles[k].owner != caller {
      QuietTraced(r, events, e);
    } else {
      var h := r.handles[k];
      PageCountNeverFails(h.range);
      HistoryStep(events, e, id, h.owner);
      PutTraced(r, events, k, r'.handles[k], e);
    }
  }

  lemma {:induction false} UnconcernedMembers(hs: seq<Handle>, pid: nat)
    requires forall i, j :: 0 <= i < j < |hs| ==> hs[i].id != hs[j].id
    ensures var ks := Unconcerned(hs, pid);
            && (forall h :: h in ks <==> h in hs && h.owner != pid && h.holder != pid)
            && (forall i, j :: 0 <= i < j < |ks| ==> ks[i].id != ks[j].id)
  {
    if hs != [] {
      UnconcernedMembers(hs[1..], pid);
      assert hs == [hs[0]] + hs[1..];
      var ks := Unconcerned(hs[1..], pid);
      forall j | 0 <= j < |ks| ensures ks[j].id != hs[0].id {
        assert ks[j] in hs[1..];
      }
    }
  }

  lemma CleanupTraced(r: Registry, events: seq<Event>, pid: nat)
    requires Traced(r, events)
    ensures var (r', e) := Cleanup(r, pid); Traced(r', events + [e])
  {
    var (r', e) := Cleanup(r, pid);
    QuietTraced(r, events, e);
    UnconcernedMembers(r.handles, pid);
    forall i | 0 <= i < |r'.handles| ensures 0 < r'.handles[i].id < r'.nextId && Faithful(r'.handles[i], events + [e]) {
      assert r'.handles[i] in r.handles;
    }
  }

  // ----- theorems

  /** Over every run each registered handle is exactly what its history makes it: ids are unique and
      nonzero, owner and range are those of its creation, the holder is the last target, it is active
      until revoked, and once revoked it has no rights and no mapping. */
  lemma {:induction false} HandlesFollowTheirHistory(steps: seq<Step>)
    ensures var (r, events) := Run(EMPTY, steps); Traced(r, events)
  {
    if steps != [] {
      var last := |steps| - 1;
      HandlesFollowTheirHistory(steps[..last]);
      var (r, events) := Run(EMPTY, steps[..last]);
      match steps[last]
      case CreateStep(caller, range, rights, mode) => CreateTraced(r, events, caller, range, rights, mode);
      case TransferStep(caller, id, target) => TransferTraced(r, events, caller, id, target);
      case ReceiveStep(caller, id) => ReceiveTraced(r, events, caller, id);
      case RevokeStep(caller, id) => RevokeTraced(r, events, caller, id);
      case CleanupStep(pid) => CleanupTraced(r, events, pid);
    }
  }

  lemma RegisteredAt(steps: seq<Step>, k: nat)
    requires k < |Run(EMPTY, steps).0.handles|
    ensures var (r, events) := Run(EMPTY, steps);
            Traced(r, events) && Find(r.handles, r.handles[k].id) == k && Faithful(r.handles[k], events)
  {
    HandlesFollowTheirHistory(steps);
  }

  /** A range of whole pages is taken, and nothing else; the new handle is active and unmapped, and its creator
      both owns and holds it. */
  lemma CreateSucceedsIff(r: Registry, caller: nat, range: PageRange, rights: AccessRights, mode: TransferMode)
    ensures var (t, e) := Create(r, caller, range, rights, mode);
            if range.start % 4096 == 0 && range.size % 4096 == 0 && range.size > 0
            then e == Created(r.nextId, caller, range, rights, mode) && t.nextId == r.nextId + 1 &&
                 |t.handles| == |r.handles| + 1 && t.handles[..|r.handles|] == r.handles &&
                 t.handles[|r.handles|] == Handle(r.nextId, caller, caller, range, rights, mode, true, false, None)
            else t == r && e == Refused(InvalidRange)
  {
  }

  /** Over every run a transfer of a registered handle succeeds exactly when its creator gives it to someone else
      before revoking it; the target then holds it, and nothing else changes. */
  lemma TransferSucceedsIff(steps: seq<Step>, k: nat, caller: nat, target: nat)
    requires k < |Run(EMPTY, steps).0.handles|
    ensures var (r, events) := Run(EMPTY, steps);
            var h := r.handles[k];
            var (t, e) := Transfer(r, caller, h.id, target);
            if caller == target then t == r && e == Refused(CircularTransfer)
            else if caller != h.owner then t == r && e == Refused(AccessDenied)
            else if WasRevoked(events, h.id) then t == r && e == Refused(InvalidRange)
            else e == Transferred(h.id, target) && t == r.(handles := r.handles[k := h.(holder := target)])
  {
    RegisteredAt(steps, k);
    PageCountNeverFails(Run(EMPTY, steps).0.handles[k].range);
  }

  /** A receipt succeeds exactly when the last target asks before the revocation; the handle is then mapped at the
      start of its range, which is the answer. */
  lemma ReceiveSucceedsIff(steps: seq<Step>, k: nat, caller: nat)
    requires k < |Run(EMPTY, steps).0.handles|
    ensures var (r, events) := Run(EMPTY, steps);
            var h := r.handles[k];
            var (t, e) := Receive(r, caller, h.id);
            if caller != LastTarget(events, h.id, h.owner) then t == r && e == Refused(AccessDenied)
            else if WasRevoked(events, h.id) then t == r && e == Refused(InvalidRange)
            else
              && e == Received(h.id, h.range)
              && t == r.(handles := r.handles[k := h.(isMapped := true, holderAddr := Some(h.range.start))])
  {
    RegisteredAt(steps, k);
    PageCountNeverFails(Run(EMPTY, steps).0.handles[k].range);
  }

  /** A revocation succeeds exactly for the creator, as often as it likes, and leaves the handle without rights and
      mapping. */
  lemma RevokeSucceedsIff(steps: seq<Step>, k: nat, caller: nat)
    requires k < |Run(EMPTY, steps).0.handles|
    ensures var (r, events) := Run(EMPTY, steps);
            var h := r.handles[k];
            var (t, e) := RevokeHandle(r, caller, h.id);
            if caller != h.owner then t == r && e == Refused(AccessDenied)
            else
              var dead := h.(active := false, rights := NoAccess, isMapped := false, holderAddr := None);
              e == Revoked(h.id) && t == r.(handles := r.handles[k := dead])
  {
    RegisteredAt(steps, k);
    PageCountNeverFails(Run(EMPTY, steps).0.handles[k].range);
  }

  /** For an id that is not registered all three answer HandleNotFound, except a transfer to oneself. */
  lemma UnknownHandleIsRefused(r: Registry, id: nat, caller: nat, target: nat)
    requires forall k :: 0 <= k < |r.handles| ==> r.handles[k].id != id
    ensures Transfer(r, caller, id, target) ==
            (r, Refused(if caller == target then CircularTransfer else HandleNotFound))
    ensures Receive(r, caller, id) == (r, Refused(HandleNotFound))
    ensures RevokeHandle(r, caller, id) == (r, Refused(HandleNotFound))
  {
  }

  /** A clean-up drops exactly the handles the process owns or holds, and keeps the others in order. */
  lemma {:induction false} CleanupSplits(a: seq<Handle>, b: seq<Handle>, pid: nat)
    ensures Unconcerned(a + b, pid) == Unconcerned(a, pid) + Unconcerned(b, pid)
  {
    if a == [] {
      assert a + b == b;
    } else {
      CleanupSplits(a[1..], b, pid);
      assert (a + b)[1..] == a[1..] + b;
    }
  }

  lemma CleanupOfOne(h: Handle, pid: nat)
    ensures Unconcerned([h], pid) == if h.owner == pid || h.holder == pid then [] else [h]
  {
  }

  /** Access belongs exactly to the creator and the last target, until the handle is revoked; and the
      page count of a registered handle is always its size in pages. */
  lemma AccessIsCreatorAndLastTarget(steps: seq<Step>, k: nat, pid: nat)
    requires k < |Run(EMPTY, steps).0.handles|
    ensures var (r, events) := Run(EMPTY, steps);
            var h := r.handles[k];
            && WasCreated(events, h.id, h.owner, h.range)
            && (h.HasAccess(pid) <==>
                && !WasRevoked(events, h.id)
                && (pid == h.owner || pid == LastTarget(events, h.id, h.owner)))
            && h.range.PageCount() == Some(h.range.size / PAGE)
  {
    HandlesFollowTheirHistory(steps);
    PageCountNeverFails(Run(EMPTY, steps).0.handles[k].range);
  }

  lemma {:induction false} EventsGrow(r: Registry, steps: seq<Step>, more: seq<Step>)
    ensures Run(r, steps).1 <= Run(r, steps + more).1
  {
    if more == [] {
      assert steps + more == steps;
    } else {
      var last := |more| - 1;
      EventsGrow(r, steps, more[..last]);
      assert (steps + more)[..|steps + more| - 1] == steps + more[..last];
    }
  }

  /** Revocation is permanent: whatever follows, the handle stays without rights, access or mapping
      for as long as it is registered, and every transfer or receipt of it is refused. */
  lemma RevocationIsPermanent(steps: seq<Step>, more: seq<Step>, id: nat, k: nat, pid: nat, target: nat)
    requires WasRevoked(Run(EMPTY, steps).1, id)
    ensures var r := Run(EMPTY, steps + more).0;
            && (k < |r.handles| && r.handles[k].id == id ==>
                  var h := r.handles[k]; !h.active && h.rights == NoAccess && !h.isMapped && !h.HasAccess(pid))
            && Transfer(r, pid, id, target).1.Refused?
            && Receive(r, pid, id).1.Refused?
  {
    hide Run, Traced, Transfer, Receive;
    EventsGrow(EMPTY, steps, more);
    HandlesFollowTheirHistory(steps + more);
    var (r, events) := Run(EMPTY, steps + more);
    var i :| 0 <= i < |Run(EMPTY, steps).1| && Run(EMPTY, steps).1[i] == Revoked(id);
    assert events[i] == Revoked(id);
    RevokedHandle(r, events, id, k, pid, target);
  }

  lemma RevokedHandle(r: Registry, events: seq<Event>, id: nat, k: nat, pid: nat, target: nat)
    requires Traced(r, events) && WasRevoked(events, id)
    ensures k < |r.handles| && r.handles[k].id == id ==>
              var h := r.handles[k]; !h.active && h.rights == NoAccess && !h.isMapped && !h.HasAccess(pid)
    ensures Transfer(r, pid, id, target).1.Refused?
    ensures Receive(r, pid, id).1.Refused?
  {
  }

  /** The documentation has the sender lose access in Ownership and Exclusive mode. In the code a
      successful transfer takes access from no owner, whatever the mode, and gives it to the target; the
      only one who can lose it is the previous target. */
  lemma TransferKeepsOwnerAccess(r: Registry, caller: nat, id: nat, target: nat, pid: nat)
    requires Transfer(r, caller, id, target).1.Transferred?
    ensures var k := Find(r.handles, id);
            var before, after := r.handles[k], Transfer(r, caller, id, target).0.handles[k];
            && after.HasAccess(caller) && after.HasAccess(target)
            && (before.HasAccess(pid) && !after.HasAccess(pid) <==>
               pid == before.holder && pid != before.owner && pid != target)
  {
  }
}
