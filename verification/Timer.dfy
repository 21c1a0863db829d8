/** The timeout manager of src/timer.rs: its operations on values. */
module TimerSpec {
  import opened Basics

  const DEFAULT_TIMEOUT_LIMIT: nat := 30

  datatype TimeoutState = Normal | Warning | TimedOut

  datatype Timeout = Timeout(pid: nat, startTime: nat, limit: nat, state: TimeoutState, warningSent: bool)
  {
    function Start(tick: nat): Timeout {
      this.(startTime := tick, state := Normal, warningSent := false)
    }

    function Reset(): Timeout {
      Start(0)
    }
  }

  datatype Timer = Timer(entries: seq<Timeout>, tick: nat, active: bool, userPid: nat)

  /** What a tick makes visible: nothing, a warning with the ticks left, or a kill. */
  datatype Event = Quiet | Warned(pid: nat, remaining: nat) | Killed(pid: nat)

  function SaturatingSub(a: nat, b: nat): nat {
    if a < b then 0 else a - b
  }

  /** The first entry for `pid`, or the number of entries. */
  function Find(entries: seq<Timeout>, pid: nat): (k: nat)
    ensures k <= |entries|
    ensures k < |entries| ==> entries[k].pid == pid
    ensures forall i :: 0 <= i < k ==> entries[i].pid != pid
  {
    if entries == [] then 0
    else if entries[0].pid == pid then 0
    else 1 + Find(entries[1..], pid)
  }

  function CheckTimeout(e: Timeout, tick: nat): (Timeout, TimeoutState) {
    if e.state.TimedOut? then (e, TimedOut)
    else
      var elapsed := SaturatingSub(tick, e.startTime);
      if elapsed >= e.limit then (e.(state := TimedOut), TimedOut)
      else if elapsed >= e.limit / 2 && !e.warningSent then (e.(warningSent := true), Warning)
      else (e, Normal)
  }

  function Register(t: Timer, pid: nat, limit: Option<nat>): Timer {
    var given := if limit.Some? then limit.value else DEFAULT_TIMEOUT_LIMIT;
    t.(entries := t.entries + [Timeout(pid, 0, given, Normal, false)])
  }

  function Others(entries: seq<Timeout>, pid: nat): seq<Timeout> {
    if entries == [] then []
    else
      var last := |entries| - 1;
      Others(entries[..last], pid) + (if entries[last].pid != pid then [entries[last]] else [])
  }

  function Unregister(t: Timer, pid: nat): Timer {
    t.(entries := Others(t.entries, pid))
  }

  function StartUserMode(t: Timer, pid: nat): Timer {
    var known := if Find(t.entries, pid) < |t.entries| then t else Register(t, pid, None);
    var k := Find(known.entries, pid);
    var started :=
      if k < |known.entries| then known.(entries := known.entries[k := known.entries[k].Start(t.tick)]) else known;
    started.(active := true, userPid := pid)
  }

  function EndUserMode(t: Timer): Timer {
    var k := Find(t.entries, t.userPid);
    t.(active := false,
       userPid := 0,
       entries := if k < |t.entries| then t.entries[k := t.entries[k].Reset()] else t.entries)
  }

  function SetLimit(t: Timer, pid: nat, limit: nat): Timer {
    var k := Find(t.entries, pid);
    if k < |t.entries| then t.(entries := t.entries[k := t.entries[k].(limit := limit)])
    else Register(t, pid, Some(limit))
  }

  function Status(t: Timer, pid: nat): Option<(TimeoutState, nat, nat)> {
    var k := Find(t.entries, pid);
    if k < |t.entries| then
      Some((t.entries[k].state, SaturatingSub(t.tick, t.entries[k].startTime), t.entries[k].limit))
    else None
  }

  function CheckTimeouts(t: Timer): (Timer, Event) {
    var k := Find(t.entries, t.userPid);
    if k == |t.entries| then (t, Quiet)
    else
      var (e, state) := CheckTimeout(t.entries[k], t.tick);
      var checked := t.(entries := t.entries[k := e]);
      match state
      case Normal => (checked, Quiet)
      case Warning => (checked, Warned(e.pid, SaturatingSub(e.limit, SaturatingSub(t.tick, e.startTime))))
      case TimedOut => (EndUserMode(checked), Killed(e.pid))
  }

  function Tick(t: Timer): (Timer, Event) {
    var ticked := t.(tick := (t.tick + 1) % U64_VALUES);
    if t.active then CheckTimeouts(ticked) else (ticked, Quiet)
  }

  // ----- runs

  datatype TimerStep =
    | RegisterStep(pid: nat, limit: Option<nat>)
    | UnregisterStep(pid: nat)
    | StartStep(pid: nat)
    | EndStep
    | SetLimitStep(pid: nat, newLimit: nat)
    | TickStep

  function ApplyTimer(t: Timer, step: TimerStep): Timer {
    match step
    case RegisterStep(pid, limit) => Register(t, pid, limit)
    case UnregisterStep(pid) => Unregister(t, pid)
    case StartStep(pid) => StartUserMode(t, pid)
    case EndStep => EndUserMode(t)
    case SetLimitStep(pid, limit) => SetLimit(t, pid, limit)
    case TickStep => Tick(t).0
  }

  function RunTimer(t: Timer, steps: seq<TimerStep>): Timer
    decreases |steps|
  {
    if steps == [] then t else RunTimer(ApplyTimer(t, steps[0]), steps[1..])
  }

  /** The manager after `n` ticks and nothing else. */
  function Ticks(t: Timer, n: nat): Timer {
    if n == 0 then t else Tick(Ticks(t, n - 1)).0
  }

  /** The event of the `k`-th tick, counted from 1. */
  function EventAt(t: Timer, k: nat): Event
    requires k > 0
  {
    Tick(Ticks(t, k - 1)).1
  }
}

/** The manager object; a kill reaches into the scheduler. */
module TimerObject {
  import opened Basics
  import opened Processes
  import opened SchedulerSpec
  import opened ProcessLists
  import opened SchedulerObject
  import opened TimerSpec

  class TimeoutManager {
    var entries: seq<Timeout>
    var currentTick: nat
    var userModeActive: bool
    var currentUserPid: nat

    ghost function State(): Timer
      reads this
    {
      Timer(entries, currentTick, userModeActive, currentUserPid)
    }

    constructor ()
      ensures State() == Timer([], 0, false, 0)
    {
      entries, currentTick, userModeActive, currentUserPid := [], 0, false, 0;
    }

    method Position(pid: nat) returns (k: nat)
      ensures k == Find(entries, pid)
    {
      k := 0;
      while k < |entries| && entries[k].pid != pid
        invariant k <= |entries|
        invariant forall i :: 0 <= i < k ==> entries[i].pid != pid
      {
        k := k + 1;
      }
    }

    method RegisterProcess(pid: nat, limit: Option<nat>)
      modifies this
      ensures State() == Register(old(State()), pid, limit)
    {
      var timeoutLimit := if limit.Some? then limit.value else DEFAULT_TIMEOUT_LIMIT;
      entries := entries + [Timeout(pid, 0, timeoutLimit, Normal, false)];
    }

    method UnregisterProcess(pid: nat)
      modifies this
      ensures State() == Unregister(old(State()), pid)
    {
      var kept: seq<Timeout> := [];
      var i := 0;
      while i < |entries|
        modifies {}
        invariant i <= |entries|
        invariant kept == Others(entries[..i], pid)
      {
        assert entries[..i + 1][..i] == entries[..i];
        if entries[i].pid != pid {
          kept := kept + [entries[i]];
        }
        i := i + 1;
      }
      assert entries[..i] == entries;
      entries := kept;
    }

    method StartUserMode(pid: nat)
      modifies this
      ensures State() == TimerSpec.StartUserMode(old(State()), pid)
    {
      userModeActive := true;
      currentUserPid := pid;
      var k := Position(pid);
      if k < |entries| {
        entries := entries[k := entries[k].Start(currentTick)];
      } else {
        RegisterProcess(pid, None);
        k := Position(pid);
        if k < |entries| {
          entries := entries[k := entries[k].Start(currentTick)];
        }
      }
    }

    method EndUserMode()
      modifies this
      ensures State() == TimerSpec.EndUserMode(old(State()))
    {
      userModeActive := false;
      var k := Position(currentUserPid);
      if k < |entries| {
        entries := entries[k := entries[k].Reset()];
      }
      currentUserPid := 0;
    }

    method SetTimeoutLimit(pid: nat, limit: nat)
      modifies this
      ensures State() == SetLimit(old(State()), pid, limit)
    {
      var k := Position(pid);
      if k < |entries| {
        entries := entries[k := entries[k].(limit := limit)];
      } else {
        RegisterProcess(pid, Some(limit));
      }
    }

    method GetStatus(pid: nat) returns (status: Option<(TimeoutState, nat, nat)>)
      ensures status == Status(State(), pid)
    {
      var k := Position(pid);
      if k < |entries| {
        status := Some((entries[k].state, SaturatingSub(currentTick, entries[k].startTime), entries[k].limit));
      } else {
        status := None;
      }
    }

    /** Marks the process as a zombie, then wakes every process that waits for it or for any child. */
    method KillProcess(sched: Scheduler, pid: nat)
      requires sched.Valid()
      modifies sched
      ensures sched.Valid() && sched.State() == Kill(old(sched.State()), pid)
    {
      var marked := sched.MarkExited(pid, TIMEOUT_EXIT_CODE);
      ghost var ps := sched.processes;
      EachAt(old(sched.processes), ExitMarked(pid, TIMEOUT_EXIT_CODE));
      var i := 0;
      while i < |sched.processes|
        modifies sched`processes
        invariant i <= |sched.processes| == |ps|
        invariant forall j :: 0 <= j < i ==> sched.processes[j] == ps[j].WakeFrom(pid)
        invariant forall j :: i <= j < |ps| ==> sched.processes[j] == ps[j]
      {
        if sched.processes[i].WaitsFor(pid) {
          sched.processes := sched.processes[i := sched.processes[i].(state := Ready)];
        }
        i := i + 1;
      }
      EachAt(old(sched.processes), SchedulerSpec.Killed(pid));
      EachIds(old(sched.processes), SchedulerSpec.Killed(pid));
      assert sched.processes == Each(old(sched.processes), SchedulerSpec.Killed(pid));
    }

    method CheckTimeouts(sched: Scheduler) returns (event: Event)
      requires sched.Valid()
      modifies this, sched
      ensures (State(), event) == TimerSpec.CheckTimeouts(old(State()))
      ensures sched.Valid()
      ensures sched.State() == if event.Killed? then Kill(old(sched.State()), event.pid) else old(sched.State())
    {
      event := Quiet;
      var k := Position(currentUserPid);
      if k < |entries| {
        var (checked, state) := CheckTimeout(entries[k], currentTick);
        entries := entries[k := checked];
        match state
        case Warning =>
          event := Warned(checked.pid, SaturatingSub(checked.limit, SaturatingSub(currentTick, checked.startTime)));
        case TimedOut =>
          KillProcess(sched, checked.pid);
          EndUserMode();
          event := TimerSpec.Killed(checked.pid);
        case Normal =>
      }
    }

    method IncrementTick(sched: Scheduler) returns (event: Event)
      requires sched.Valid()
      modifies this, sched
      ensures (State(), event) == Tick(old(State()))
      ensures sched.Valid()
      ensures sched.State() == if event.Killed? then Kill(old(sched.State()), event.pid) else old(sched.State())
    {
      event := Quiet;
      currentTick := (currentTick + 1) % U64_VALUES;
      if userModeActive {
        event := CheckTimeouts(sched);
      }
    }
  }
}

/** Deadlines are met to the tick, except across a wrap of the tick counter. */
module TimerTheorems {
  import opened Basics
  import opened TimerSpec

  ghost predicate AllNormal(entries: seq<Timeout>) {
    forall i :: 0 <= i < |entries| ==> entries[i].state.Normal?
  }

  lemma {:induction false} OthersNormal(entries: seq<Timeout>, pid: nat)
    requires AllNormal(entries)
    ensures AllNormal(Others(entries, pid))
  {
    if entries != [] {
      OthersNormal(entries[..|entries| - 1], pid);
    }
  }

  /** The first entry for `pid` is where the search ends. */
  lemma FindIs(entries: seq<Timeout>, pid: nat, k: nat)
    requires k < |entries| && entries[k].pid == pid && forall i :: 0 <= i < k ==> entries[i].pid != pid
    ensures Find(entries, pid) == k
  {
  }

  lemma CheckKeepsNormal(t: Timer)
    requires AllNormal(t.entries)
    ensures AllNormal(CheckTimeouts(t).0.entries)
  {
    var k := Find(t.entries, t.userPid);
    if k < |t.entries| {
      var (e, state) := CheckTimeout(t.entries[k], t.tick);
      FindIs(t.entries[k := e], t.userPid, k);
    }
  }

  /** Warning is only ever reported, and TimedOut is undone by the kill that follows it. */
  lemma StepKeepsNormal(t: Timer, step: TimerStep)
    requires AllNormal(t.entries)
    ensures AllNormal(ApplyTimer(t, step).entries)
  {
    hide CheckTimeouts;
    CheckKeepsNormal(t.(tick := (t.tick + 1) % U64_VALUES));
    if step.UnregisterStep? {
      OthersNormal(t.entries, step.pid);
    }
  }

  /** Between calls every stored state is Normal, so get_status never reports anything else. */
  lemma {:induction false} StatusIsAlwaysNormal(t: Timer, steps: seq<TimerStep>, pid: nat)
    requires AllNormal(t.entries)
    ensures AllNormal(RunTimer(t, steps).entries)
    ensures Status(RunTimer(t, steps), pid).Some? ==> Status(RunTimer(t, steps), pid).value.0.Normal?
    decreases |steps|
  {
    if steps != [] {
      StepKeepsNormal(t, steps[0]);
      StatusIsAlwaysNormal(ApplyTimer(t, steps[0]), steps[1..], pid);
    }
  }

  // ----- what the operations leave behind

  /** Unregistering drops the entries of the process and keeps the others in order. */
  lemma {:induction false} OthersSplit(a: seq<Timeout>, b: seq<Timeout>, pid: nat)
    ensures Others(a + b, pid) == Others(a, pid) + Others(b, pid)
  {
    if b == [] {
      assert a + b == a;
    } else {
      var last := |b| - 1;
      OthersSplit(a, b[..last], pid);
      assert (a + b)[..|a + b| - 1] == a + b[..last];
    }
  }

  lemma OthersOfOne(e: Timeout, pid: nat)
    ensures Others([e], pid) == if e.pid == pid then [] else [e]
  {
    assert [e][..0] == [];
  }

  lemma {:induction false} OthersMembers(entries: seq<Timeout>, pid: nat)
    ensures forall e :: e in Others(entries, pid) <==> e in entries && e.pid != pid
  {
    if entries != [] {
      var last := |entries| - 1;
      OthersMembers(entries[..last], pid);
      assert entries == entries[..last] + [entries[last]];
    }
  }

  /** An unregistered process has no status, and its deadline is gone: if it is the one in user mode, no tick
      does anything but count. */
  lemma UnregisteredIsForgotten(t: Timer, pid: nat)
    ensures var u := Unregister(t, pid);
            && Status(u, pid) == None && (u.tick, u.active, u.userPid) == (t.tick, t.active, t.userPid)
            && (t.userPid == pid ==> Tick(u) == (u.(tick := (t.tick + 1) % U64_VALUES), Quiet))
  {
    OthersMembers(t.entries, pid);
    var u := Unregister(t, pid);
    assert forall i :: 0 <= i < |u.entries| ==> u.entries[i] in u.entries;
  }

  /** Outside user mode a tick only counts. */
  lemma TicksOutsideUserMode(t: Timer, pid: nat)
    ensures !EndUserMode(t).active && EndUserMode(t).tick == t.tick && EndUserMode(t).userPid == 0
    ensures Tick(EndUserMode(t)) == (EndUserMode(t).(tick := (t.tick + 1) % U64_VALUES), Quiet)
    ensures |EndUserMode(t).entries| == |t.entries|
    ensures forall i :: 0 <= i < |t.entries| ==>
              var e, f := t.entries[i], EndUserMode(t).entries[i];
              if e.pid == t.userPid && (forall j :: 0 <= j < i ==> t.entries[j].pid != e.pid)
              then f == Timeout(e.pid, 0, e.limit, Normal, false)
              else f == e
  {
  }

  /** A registration puts a fresh entry behind the others; it matters only for a process that has none. */
  lemma RegisterAppends(t: Timer, pid: nat, limit: Option<nat>)
    ensures var u := Register(t, pid, limit);
            && u.entries == t.entries + [Timeout(pid, 0, if limit.None? then 30 else limit.value, Normal, false)]
            && (u.tick, u.active, u.userPid) == (t.tick, t.active, t.userPid)
            && (Find(t.entries, pid) < |t.entries| ==> Status(u, pid) == Status(t, pid))
  {
    var u := Register(t, pid, limit);
    var k := Find(t.entries, pid);
    if k < |t.entries| { FindIs(u.entries, pid, k); }
  }

  /** The limit last set is the one a later start runs under, whether the process was known or not. */
  lemma LastLimitGoverns(t: Timer, pid: nat, limit: nat)
    requires t.tick < U64_VALUES
    ensures JustStarted(StartUserMode(SetLimit(t, pid, limit), pid), pid, limit)
    ensures |SetLimit(t, pid, limit).entries| <= |t.entries| + 1
    ensures forall i :: 0 <= i < |t.entries| ==>
              var e, f := t.entries[i], SetLimit(t, pid, limit).entries[i];
              f == (if i == Find(t.entries, pid) then e.(limit := limit) else e)
  {
    var u := SetLimit(t, pid, limit);
    var k := Find(t.entries, pid);
    FindIs(u.entries, pid, k);
    StartEstablishes(u, pid);
  }

  /** A process that nobody gave a limit runs under 30 ticks; a start changes no other entry. */
  lemma StartAnswers(t: Timer, pid: nat)
    requires t.tick < U64_VALUES
    ensures var u := StartUserMode(t, pid);
            && u.active && u.userPid == pid && u.tick == t.tick
            && (Find(t.entries, pid) == |t.entries| ==> JustStarted(u, pid, 30))
            && |t.entries| <= |u.entries| <= |t.entries| + 1
            && forall i :: 0 <= i < |t.entries| && i != Find(t.entries, pid) ==> u.entries[i] == t.entries[i]
  {
    StartEstablishes(t, pid);
  }

  /** While the process runs, its status is Normal, the ticks since the start, as the counter shows them, and its
      limit. */
  lemma StatusWhileRunning(t: Timer, pid: nat, limit: nat, k: nat)
    requires JustStarted(t, pid, limit) && !Reached(KillTick(t.tick, limit), k)
    ensures var now := (t.tick + k) % U64_VALUES;
            Status(Ticks(t, k), pid) == Some((Normal, if now < t.tick then 0 else now - t.tick, limit))
  {
    hide Ticks, After, KillTick, Find;
    TicksInClosedForm(t, pid, limit, k);
    EntryWhileRunning(t, pid, limit, k);
  }

  lemma EntryWhileRunning(t: Timer, pid: nat, limit: nat, k: nat)
    requires JustStarted(t, pid, limit) && !Reached(KillTick(t.tick, limit), k)
    ensures var i, u := Find(t.entries, pid), After(t, pid, limit, k);
            && Find(u.entries, pid) == i < |u.entries| && u.tick == (t.tick + k) % U64_VALUES
            && u.entries[i] == EntryAfter(t.tick, pid, limit, k)
  {
    hide KillTick, WarnTick;
    FindIs(After(t, pid, limit, k).entries, pid, Find(t.entries, pid));
  }

  // ----- one deadline, from its start

  /** User mode has just been started for `pid` with limit `limit`. */
  ghost predicate JustStarted(t: Timer, pid: nat, limit: nat) {
    var k := Find(t.entries, pid);
    && t.active && t.userPid == pid && t.tick < U64_VALUES
    && k < |t.entries|
    && t.entries[k] == Timeout(pid, t.tick, limit, Normal, false)
  }

  lemma StartEstablishes(t: Timer, pid: nat)
    requires t.tick < U64_VALUES
    ensures var k := Find(t.entries, pid);
            var limit := if k < |t.entries| then t.entries[k].limit else DEFAULT_TIMEOUT_LIMIT;
            JustStarted(StartUserMode(t, pid), pid, limit)
  {
    var k := Find(t.entries, pid);
    var known := if k < |t.entries| then t else Register(t, pid, None);
    FindIs(known.entries, pid, k);
    FindIs(StartUserMode(t, pid).entries, pid, k);
  }

  /** The tick, counted from the start, on which the process is killed; none at all if the counter wraps
      first. */
  function KillTick(start: nat, limit: nat): Option<nat> {
    if limit == 0 then Some(1)
    else if start + limit < U64_VALUES then Some(limit)
    else None
  }

  /** The tick on which the process is warned. */
  function WarnTick(start: nat, limit: nat): Option<nat> {
    if limit >= 2 && start + limit / 2 < U64_VALUES then Some(limit / 2)
    else if limit == 1 && start + 1 == U64_VALUES then Some(1)
    else None
  }

  predicate Reached(at: Option<nat>, k: nat) {
    at.Some? && at.value <= k
  }

  /** The manager `k` ticks after the start, in closed form. */
  ghost function After(t: Timer, pid: nat, limit: nat, k: nat): Timer
    requires JustStarted(t, pid, limit)
  {
    var i := Find(t.entries, pid);
    var ticked := t.(tick := (t.tick + k) % U64_VALUES);
    if Reached(KillTick(t.tick, limit), k) then
      ticked.(active := false, userPid := 0, entries := t.entries[i := t.entries[i].Reset()])
    else
      ticked.(entries := t.entries[i := t.entries[i].(warningSent := Reached(WarnTick(t.tick, limit), k))])
  }

  ghost function Expected(start: nat, pid: nat, limit: nat, k: nat): Event {
    if KillTick(start, limit) == Some(k) then Killed(pid)
    else if WarnTick(start, limit) == Some(k) then
      Warned(pid, if start + k < U64_VALUES then limit - limit / 2 else limit)
    else Quiet
  }

  /** The entry as it stands `k` ticks after the start, if it has not been killed yet. */
  ghost function EntryAfter(start: nat, pid: nat, limit: nat, k: nat): Timeout {
    Timeout(pid, start, limit, Normal, Reached(WarnTick(start, limit), k))
  }

  /** One check of a live entry. */
  lemma OneCheck(start: nat, pid: nat, limit: nat, k: nat)
    requires start < U64_VALUES && !Reached(KillTick(start, limit), k)
    ensures var (e, state) := CheckTimeout(EntryAfter(start, pid, limit, k), (start + k + 1) % U64_VALUES);
            match Expected(start, pid, limit, k + 1)
            case Killed(_) => state == TimedOut && e == EntryAfter(start, pid, limit, k).(state := TimedOut)
            case Warned(_, left) =>
              && state == Warning && e == EntryAfter(start, pid, limit, k + 1)
              && left == SaturatingSub(limit, SaturatingSub((start + k + 1) % U64_VALUES, start))
            case Quiet => state == Normal && e == EntryAfter(start, pid, limit, k + 1)
  {
  }

  lemma NextTick(start: nat, k: nat)
    ensures ((start + k) % U64_VALUES + 1) % U64_VALUES == (start + k + 1) % U64_VALUES
  {
  }

  /** A check of the running process's entry, given what checking the entry alone does. */
  lemma CheckRunning(t: Timer, i: nat, e: Timeout, state: TimeoutState)
    requires i == Find(t.entries, t.userPid) < |t.entries| && CheckTimeout(t.entries[i], t.tick) == (e, state) &&
             e.pid == t.userPid
    ensures CheckTimeouts(t) ==
            match state
            case Normal => (t.(entries := t.entries[i := e]), Quiet)
            case Warning => (t.(entries := t.entries[i := e]),
                Warned(e.pid, SaturatingSub(e.limit, SaturatingSub(t.tick, e.startTime))))
            case TimedOut => (t.(active := false, userPid := 0, entries := t.entries[i := e.Reset()]), Killed(e.pid))
  {
    hide CheckTimeout;
    FindIs(t.entries[i := e], t.userPid, i);
    assert t.entries[i := e][i := e.Reset()] == t.entries[i := e.Reset()];
  }

  /** A tick while the process is still alive. */
  lemma LiveTick(t: Timer, pid: nat, limit: nat, k: nat)
    requires JustStarted(t, pid, limit) && !Reached(KillTick(t.tick, limit), k)
    ensures Tick(After(t, pid, limit, k)) == (After(t, pid, limit, k + 1), Expected(t.tick, pid, limit, k + 1))
  {
    var i := Find(t.entries, pid);
    var before := After(t, pid, limit, k);
    var now := (t.tick + k + 1) % U64_VALUES;
    hide Tick, CheckTimeout, CheckTimeouts, KillTick, WarnTick, Find;
    OneCheck(t.tick, pid, limit, k);
    NextTick(t.tick, k);
    ActiveTick(before, now);
    KillIsNext(t.tick, pid, limit, k);
    EntryWhileRunning(t, pid, limit, k);
    var (e, state) := CheckTimeout(EntryAfter(t.tick, pid, limit, k), now);
    CheckRunning(before.(tick := now), i, e, state);
    assert before.entries[i := e] == t.entries[i := e];
    assert before.entries[i := e.Reset()] == t.entries[i := e.Reset()];
    hide JustStarted, EntryAfter, Reached;
  }

  lemma KillIsNext(start: nat, pid: nat, limit: nat, k: nat)
    requires !Reached(KillTick(start, limit), k)
    ensures Reached(KillTick(start, limit), k + 1) <==> Expected(start, pid, limit, k + 1).Killed?
  {
  }

  lemma ActiveTick(t: Timer, now: nat)
    requires t.active && now == (t.tick + 1) % U64_VALUES
    ensures Tick(t) == CheckTimeouts(t.(tick := now))
  {
  }

  lemma OneTick(t: Timer, pid: nat, limit: nat, k: nat)
    requires JustStarted(t, pid, limit)
    ensures Tick(After(t, pid, limit, k)) == (After(t, pid, limit, k + 1), Expected(t.tick, pid, limit, k + 1))
  {
    if Reached(KillTick(t.tick, limit), k) {
      NextTick(t.tick, k);
    } else {
      LiveTick(t, pid, limit, k);
    }
  }

  lemma {:induction false} TicksInClosedForm(t: Timer, pid: nat, limit: nat, k: nat)
    requires JustStarted(t, pid, limit)
    ensures Ticks(t, k) == After(t, pid, limit, k)
  {
    var i := Find(t.entries, pid);
    if k == 0 {
      assert t.entries[i := t.entries[i]] == t.entries;
    } else {
      TicksInClosedForm(t, pid, limit, k - 1);
      OneTick(t, pid, limit, k - 1);
    }
  }

  /** Deadline exactness: however often the counter wraps, the k-th tick after the start kills exactly at
      KillTick, warns exactly at WarnTick, and is quiet otherwise. */
  lemma DeadlineExactness(t: Timer, pid: nat, limit: nat, k: nat)
    requires JustStarted(t, pid, limit) && 0 < k
    ensures EventAt(t, k) == Expected(t.tick, pid, limit, k)
  {
    hide Tick;
    TicksInClosedForm(t, pid, limit, k - 1);
    OneTick(t, pid, limit, k - 1);
  }

  /** Without a wrap: limit 0 or 1 kills on the first tick and never warns; otherwise one warning at half the
      limit and a kill at the limit. */
  lemma DeadlineWithoutWrap(t: Timer, pid: nat, limit: nat, k: nat)
    requires JustStarted(t, pid, limit) && 0 < k && t.tick + limit < U64_VALUES
    ensures EventAt(t, k).Killed? <==> k == if limit <= 1 then 1 else limit
    ensures EventAt(t, k).Warned? <==> limit >= 2 && k == limit / 2
    ensures EventAt(t, k).Warned? ==> EventAt(t, k).remaining == limit - k
  {
    DeadlineExactness(t, pid, limit, k);
  }

  /** A deadline can be missed for good: the process is ever killed exactly when its limit is 0 or the counter
      does not wrap before the deadline. */
  lemma DeadlineMetUnlessWrap(t: Timer, pid: nat, limit: nat)
    requires JustStarted(t, pid, limit)
    ensures (exists k: nat :: 0 < k && EventAt(t, k).Killed?) <==> limit == 0 || t.tick + limit < U64_VALUES
  {
    if limit == 0 || t.tick + limit < U64_VALUES {
      var k := if limit == 0 then 1 else limit;
      DeadlineExactness(t, pid, limit, k);
      assert EventAt(t, k).Killed?;
    } else {
      forall k: nat | 0 < k ensures !EventAt(t, k).Killed? {
        DeadlineExactness(t, pid, limit, k);
      }
    }
  }

  /** User mode started one tick after boot, for a process with the largest limit. */
  function LateStart(): Timer {
    StartUserMode(Tick(SetLimit(Timer([], 0, false, 0), 1, U64_VALUES - 1)).0, 1)
  }

  lemma LateStartIsJustStarted()
    ensures JustStarted(LateStart(), 1, U64_VALUES - 1) && LateStart().tick == 1
  {
    var ticked := Tick(SetLimit(Timer([], 0, false, 0), 1, U64_VALUES - 1)).0;
    assert ticked == Timer([Timeout(1, 0, U64_VALUES - 1, Normal, false)], 1, false, 0);
    StartEstablishes(ticked, 1);
  }

  /** Its deadline is never met. */
  lemma LargestLimitIsNeverMet(k: nat)
    requires 0 < k
    ensures !EventAt(LateStart(), k).Killed?
  {
    hide LateStart, EventAt;
    LateStartIsJustStarted();
    DeadlineExactness(LateStart(), 1, U64_VALUES - 1, k);
  }
}
