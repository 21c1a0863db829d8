/** What each scheduler operation, process syscall and timer kill does to the scheduler state, as
    functions on values.  The methods of `SchedulerObject`, `Syscalls` and `TimerObject` are proved equal
    to these functions; the theorems about runs are in `SchedulerTheorems`, `ExitCodes` and `KernelTheorems`.

    With distinct pids (`UniqueIds`) a search that stops at the first match touches the only match,
    so the updates are stated process by process. */
module SchedulerSpec {
  import opened Processes

  /** The global `SCHEDULER`, together with `CPU_DATA.current_process_id` and `NEXT_PID`. */
  datatype Sched = Sched(
    procs: seq<Process>,
    tree: map<nat, nat>,
    orphans: seq<nat>,
    current: nat,
    currentPriority: nat,
    nextPid: nat)

  datatype Outcome =
    | Done
    | Failed
    | Reaped(child: nat, code: int)
    | Forked(child: nat)
    | Allocated(pid: nat)
    | Switched(contextPtr: nat)
    | Blocked(contextPtr: nat)
    | Cleaned(count: nat)

  // ----- lists of processes

  function Ids(ps: seq<Process>): (r: seq<nat>)
    ensures |r| == |ps|
    ensures forall i {:trigger r[i]} :: 0 <= i < |ps| ==> r[i] == ps[i].id
  {
    if ps == [] then [] else [ps[0].id] + Ids(ps[1..])
  }

  predicate UniqueIds(ps: seq<Process>) {
    forall i, j :: 0 <= i < j < |ps| ==> Ids(ps)[i] != Ids(ps)[j]
  }

  predicate Listed(ps: seq<Process>, pid: nat) {
    pid in Ids(ps)
  }

  /** The first position holding `pid`, or the length of the list. */
  function IndexOf(ps: seq<Process>, pid: nat): (k: nat)
    ensures k <= |ps|
    ensures k < |ps| ==> ps[k].id == pid
    ensures forall i :: 0 <= i < k ==> ps[i].id != pid
  {
    if ps == [] then 0
    else if ps[0].id == pid then 0
    else 1 + IndexOf(ps[1..], pid)
  }

  /** The first position whose process is Ready or Running, or the length of the list. */
  function FirstRunnable(ps: seq<Process>): (k: nat)
    ensures k <= |ps|
    ensures k < |ps| ==> ps[k].Runnable()
    ensures forall i :: 0 <= i < k ==> !ps[i].Runnable()
  {
    if ps == [] then 0
    else if ps[0].Runnable() then 0
    else 1 + FirstRunnable(ps[1..])
  }

  /** An update made to every process that it concerns. */
  datatype Change =
    | ChildAdded(parent: nat, child: nat)
    | ChildRemoved(parent: nat, child: nat)
    | ExitMarked(pid: nat, code: int)
    | Orphaned(pids: set<nat>)
    | ParentWoken(parent: nat, child: nat)
    | Exited(tree: map<nat, nat>, pid: nat, parent: nat, code: int)
    | Killed(pid: nat)
  {
    function Of(p: Process): (q: Process)
      ensures q.id == p.id
    {
      match this
      case ChildAdded(parent, child) => if p.id == parent then p.AddChild(child) else p
      case ChildRemoved(parent, child) => if p.id == parent then p.RemoveChild(child) else p
      case ExitMarked(pid, code) => if p.id == pid then p.Exit(code) else p
      case Orphaned(pids) => if p.id in pids then p.MakeOrphan() else p
      case ParentWoken(parent, child) => if p.id == parent then p.WakeFrom(child) else p
      case Exited(tree, pid, parent, code) => AfterExit(p, tree, pid, parent, code)
      case Killed(pid) => AfterKill(p, pid)
    }
  }

  function Each(ps: seq<Process>, change: Change): seq<Process> {
    if ps == [] then [] else [change.Of(ps[0])] + Each(ps[1..], change)
  }

  lemma EachAt(ps: seq<Process>, change: Change)
    ensures |Each(ps, change)| == |ps|
    ensures forall i :: 0 <= i < |ps| ==> Each(ps, change)[i] == change.Of(ps[i])
  {
  }

  datatype Selection = ZombiesOf(parent: nat) | Zombies | NonZombies | NotIn(pids: set<nat>) {
    predicate Has(p: Process) {
      match this
      case ZombiesOf(parent) => p.parentId == parent && p.state.Zombie?
      case Zombies => p.state.Zombie?
      case NonZombies => !p.state.Zombie?
      case NotIn(pids) => p.id !in pids
    }
  }

  /** The selected processes, in order. */
  function Keep(ps: seq<Process>, selection: Selection): seq<Process> {
    if ps == [] then []
    else
      var last := |ps| - 1;
      Keep(ps[..last], selection) + (if selection.Has(ps[last]) then [ps[last]] else [])
  }

  lemma {:induction false} KeepContents(ps: seq<Process>, selection: Selection)
    ensures forall p :: p in Keep(ps, selection) <==> p in ps && selection.Has(p)
  {
    if ps != [] {
      var last := |ps| - 1;
      KeepContents(ps[..last], selection);
      assert ps == ps[..last] + [ps[last]];
    }
  }

  function Without(ps: seq<Process>, k: nat): seq<Process>
    requires k < |ps|
  {
    ps[..k] + ps[k + 1..]
  }

  // ----- the key order of the process tree

  predicate IsMinimum(m: nat, s: set<nat>) {
    m in s && forall y :: y in s ==> m <= y
  }

  lemma {:induction false} MinimumExists(s: set<nat>)
    requires s != {}
    ensures exists m :: IsMinimum(m, s)
    decreases |s|
  {
    var x :| x in s;
    var rest := s - {x};
    assert s == rest + {x};
    if rest == {} {
      assert IsMinimum(x, s);
    } else {
      MinimumExists(rest);
      var m :| IsMinimum(m, rest);
      assert IsMinimum(if m <= x then m else x, s);
    }
  }

  function Minimum(s: set<nat>): (m: nat)
    requires s != {}
    ensures IsMinimum(m, s)
  {
    MinimumExists(s);
    var m :| IsMinimum(m, s);
    m
  }

  /** The elements of `s` in the order a BTreeMap visits its keys. */
  function Ascending(s: set<nat>): seq<nat>
    decreases |s|
  {
    if s == {} then []
    else
      var m := Minimum(s);
      [m] + Ascending(s - {m})
  }

  lemma {:induction false} AscendingContents(s: set<nat>)
    ensures forall x :: x in Ascending(s) <==> x in s
    ensures forall i, j :: 0 <= i < j < |Ascending(s)| ==> Ascending(s)[i] < Ascending(s)[j]
    decreases |s|
  {
    if s != {} {
      var m := Minimum(s);
      AscendingContents(s - {m});
      var rest := Ascending(s - {m});
      assert forall i :: 0 <= i < |rest| ==> rest[i] in s - {m};
      forall x ensures x in [m] + rest <==> x in s {
      }
    }
  }

  function Kids(tree: map<nat, nat>, pid: nat): set<nat> {
    set c | c in tree && tree[c] == pid
  }

  /** The tree with the given children handed to pid 0. */
  function Cut(tree: map<nat, nat>, pids: set<nat>): map<nat, nat> {
    map c | c in tree :: if c in pids then 0 else tree[c]
  }

  function OnlyListed(pids: seq<nat>, ps: seq<Process>): seq<nat> {
    if pids == [] then []
    else
      var last := |pids| - 1;
      OnlyListed(pids[..last], ps) + (if Listed(ps, pids[last]) then [pids[last]] else [])
  }

  // ----- Scheduler operations

  function AddProcess(s: Sched, p: Process): Sched {
    s.(tree := s.tree[p.id := p.parentId],
       orphans := if p.parentId == 0 && p.id != 0 then s.orphans + [p.id] else s.orphans,
       procs := s.procs + [p])
  }

  /** The tree entry is written before the parent's child limit is checked, so a failure leaves it behind. */
  function RegisterChild(s: Sched, parent: nat, child: nat): (Sched, Outcome) {
    var entered := s.(tree := s.tree[child := parent]);
    var k := IndexOf(s.procs, parent);
    if k < |s.procs| && !s.procs[k].CanAddChild() then
      (entered, Failed)
    else
      (entered.(procs := Each(s.procs, ChildAdded(parent, child)),
                orphans := RemoveFirst(s.orphans, child)),
       Done)
  }

  /** The parent recorded in the listed process `pid`; 0 when it is not listed. */
  function ParentOf(ps: seq<Process>, pid: nat): nat {
    var k := IndexOf(ps, pid);
    if k < |ps| then ps[k].parentId else 0
  }

  /** What the exit of `pid`, whose parent is `parent`, does to one process. */
  function AfterExit(p: Process, tree: map<nat, nat>, pid: nat, parent: nat, code: int): (q: Process)
    ensures q.id == p.id
  {
    var p0 := if p.id == pid then p.Exit(code) else p;
    var p1 := if parent != 0 && p.id == parent then p0.RemoveChild(pid) else p0;
    var p2 := if p.id in Kids(tree, pid) then p1.MakeOrphan() else p1;
    if parent != 0 && p.id == parent then p2.WakeFrom(pid) else p2
  }

  function AfterExitOf(s: Sched, pid: nat, code: int): Sched {
    var kids := Kids(s.tree, pid);
    s.(procs := Each(s.procs, Exited(s.tree, pid, ParentOf(s.procs, pid), code)),
       tree := Cut(s.tree, kids),
       orphans := s.orphans + OnlyListed(Ascending(kids), s.procs))
  }

  function HandleExit(s: Sched, pid: nat, code: int): (Sched, Outcome) {
    if Listed(s.procs, pid) && !ValidExitCode(code) then (s, Failed)
    else (AfterExitOf(s, pid, code), Done)
  }

  function ZombieChildren(ps: seq<Process>, parent: nat): seq<nat> {
    Ids(Keep(ps, ZombiesOf(parent)))
  }

  predicate Reapable(p: Process, parent: nat, child: nat) {
    p.id == child && p.parentId == parent && p.state.Zombie?
  }

  function ReapZombieChild(s: Sched, parent: nat, child: nat): (Sched, Outcome) {
    var k := IndexOf(s.procs, child);
    if k < |s.procs| && Reapable(s.procs[k], parent, child) then
      (s.(procs := Each(Without(s.procs, k), ChildRemoved(parent, child)),
          tree := s.tree - {child}),
       Reaped(child, s.procs[k].exitCode))
    else
      (s, Failed)
  }

  function CleanupTerminated(s: Sched, pid: nat): (Sched, Outcome) {
    var k := IndexOf(s.procs, pid);
    if k < |s.procs| && s.procs[k].state.Zombie? then
      (s.(procs := Without(s.procs, k),
          tree := s.tree - {pid},
          orphans := RemoveFirst(s.orphans, pid)),
       Done)
    else
      (s, Failed)
  }

  /** Cleans up the given pids one after the other; the count is of the successes. */
  function CleanupEach(s: Sched, pids: seq<nat>): (Sched, nat) {
    if pids == [] then (s, 0)
    else
      var (before, count) := CleanupEach(s, pids[..|pids| - 1]);
      var (after, outcome) := CleanupTerminated(before, pids[|pids| - 1]);
      (after, if outcome.Done? then count + 1 else count)
  }

  function CleanupAllZombies(s: Sched): (Sched, Outcome) {
    var (after, count) := CleanupEach(s, Ids(Keep(s.procs, Zombies)));
    (after, Cleaned(count))
  }

  /** The process that is in front once the chosen one is taken out is handed the interrupted context. */
  function Preempt(ps: seq<Process>, context: nat): seq<Process> {
    if ps == [] then []
    else
      var saved := ps[0].(contextPtr := context);
      [if saved.state.Running? then saved.(state := Ready) else saved] + ps[1..]
  }

  function Rotate(ps: seq<Process>): seq<Process> {
    if ps == [] then [] else ps[1..] + [ps[0]]
  }

  function Schedule(s: Sched, context: nat): (Sched, Outcome) {
    var k := FirstRunnable(s.procs);
    if k < |s.procs| then
      var next := s.procs[k].(state := Running);
      (s.(procs := [next] + Preempt(Without(s.procs, k), context),
          current := next.id,
          currentPriority := next.priority),
       Switched(next.contextPtr))
    else if s.procs == [] then
      (s.(current := 0), Switched(context))
    else
      var rotated := Rotate(s.procs[0 := s.procs[0].(contextPtr := context)]);
      (s.(procs := rotated, current := rotated[0].id), Switched(rotated[0].contextPtr))
  }

  // ----- syscalls, from the dispatch on

  predicate FrontIsCurrent(s: Sched) {
    s.procs != [] && s.procs[0].id == s.current
  }

  function AllocatePid(s: Sched): (Sched, Outcome) {
    (s.(nextPid := s.nextPid + 1), Allocated(s.nextPid))
  }

  predicate CanFork(s: Sched) {
    FrontIsCurrent(s) && s.procs[0].WithinLimits() && s.procs[0].CanAddChild()
  }

  function Fork(s: Sched): (Sched, Outcome) {
    if !CanFork(s) then
      (s, Failed)
    else
      var (registered, outcome) := RegisterChild(AllocatePid(s).0, s.current, s.nextPid);
      (registered, if outcome.Failed? then Failed else Forked(s.nextPid))
  }

  predicate ValidUserPointer(ptr: nat, size: nat) {
    0x40_0000 <= ptr <= 0x7FFF_FFFF && size <= 0x1000 && ptr + size <= 0x7FFF_FFFF
  }

  predicate ValidWait(target: nat, statusPtr: nat, options: nat) {
    && (target == ANY_CHILD || 1000 <= target <= 10000)
    && (statusPtr == 0 || ValidUserPointer(statusPtr, 4))
    && options == 0
  }

  /** The zombie child a wait4 for `target` takes, or 0. */
  function WaitChoice(ps: seq<Process>, parent: nat, target: nat): nat {
    var zombies := ZombieChildren(ps, parent);
    if target == ANY_CHILD then
      if zombies == [] then 0 else zombies[0]
    else
      if target in zombies then target else 0
  }

  function Block(s: Sched, target: nat): (Sched, Outcome)
    requires s.procs != []
  {
    var rotated := Rotate(s.procs[0 := s.procs[0].(state := Waiting(Child(target)))]);
    (s.(procs := rotated, current := rotated[0].id), Blocked(rotated[0].contextPtr))
  }

  function Wait4(s: Sched, target: nat, statusPtr: nat, options: nat): (Sched, Outcome) {
    if !ValidWait(target, statusPtr, options) then (s, Failed)
    else
      var child := WaitChoice(s.procs, s.current, target);
      if child != 0 then ReapZombieChild(s, s.current, child)
      else if FrontIsCurrent(s) then Block(s, target)
      else (s, Failed)
  }

  function Yield(s: Sched): (Sched, Outcome) {
    (if FrontIsCurrent(s) then s.(procs := s.procs[0 := s.procs[0].(state := Ready)]) else s, Done)
  }

  /** `arg as i32`: the low 32 bits read as a two's complement number. */
  function AsI32(arg: nat): int {
    var low := arg % 0x1_0000_0000;
    if low < 0x8000_0000 then low else low - 0x1_0000_0000
  }

  function Exit(s: Sched, arg: nat): (Sched, Outcome) {
    if !ValidExitCode(AsI32(arg)) then (s, Failed)
    else
      var (left, outcome) := HandleExit(s, s.current, AsI32(arg));
      if outcome.Failed? then (left, Failed) else (left.(current := 0), Done)
  }

  // ----- the timer's kill_process

  const TIMEOUT_EXIT_CODE: int := -1

  /** Every process waiting for `pid` or for any child is woken, whoever its child is. */
  function AfterKill(p: Process, pid: nat): (q: Process)
    ensures q.id == p.id
  {
    (if p.id == pid then p.Exit(TIMEOUT_EXIT_CODE) else p).WakeFrom(pid)
  }

  function Kill(s: Sched, pid: nat): Sched {
    s.(procs := Each(s.procs, Killed(pid)))
  }

  // ----- runs

  /** A call of `allocate_pid` or of a `Scheduler` method. */
  datatype Op =
    | AllocateOp
    | AddOp(p: Process)
    | RegisterOp(parent: nat, child: nat)
    | ExitOp(pid: nat, code: int)
    | ReapOp(parent: nat, child: nat)
    | CleanupOp(pid: nat)
    | ScheduleOp(context: nat)

  /** An entry into the kernel: a syscall of the current process, or the timer's kill. */
  datatype Entry =
    | ForkCall
    | Wait4Call(target: nat, statusPtr: nat, options: nat)
    | YieldCall
    | ExitCall(arg: nat)
    | TimerKill(pid: nat)

  datatype Step = Do(op: Op) | Enter(entry: Entry)

  function ApplyOp(s: Sched, op: Op): (Sched, Outcome) {
    match op
    case AllocateOp => AllocatePid(s)
    case AddOp(p) => (AddProcess(s, p), Done)
    case RegisterOp(parent, child) => RegisterChild(s, parent, child)
    case ExitOp(pid, code) => HandleExit(s, pid, code)
    case ReapOp(parent, child) => ReapZombieChild(s, parent, child)
    case CleanupOp(pid) => CleanupTerminated(s, pid)
    case ScheduleOp(context) => Schedule(s, context)
  }

  function ApplyEntry(s: Sched, entry: Entry): (Sched, Outcome) {
    match entry
    case ForkCall => Fork(s)
    case Wait4Call(target, statusPtr, options) => Wait4(s, target, statusPtr, options)
    case YieldCall => Yield(s)
    case ExitCall(arg) => Exit(s, arg)
    case TimerKill(pid) => (Kill(s, pid), Done)
  }

  function Apply(s: Sched, step: Step): (Sched, Outcome) {
    match step
    case Do(op) => ApplyOp(s, op)
    case Enter(entry) => ApplyEntry(s, entry)
  }

  function Run(s: Sched, steps: seq<Step>): Sched
    decreases |steps|
  {
    if steps == [] then s else Run(Apply(s, steps[0]).0, steps[1..])
  }

  const BOOT: Sched := Sched([], map[], [], 0, 10, 1)
}
