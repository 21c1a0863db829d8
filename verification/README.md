# Ruix in Dafny

A model of the in-memory state machines of the Ruix microkernel, with proofs that hold for every
input, every run and every interleaving of the modelled steps, under the premises each row names.
Code that updates state in place is a class whose methods, with their loops, are proved equal to
functions on values; the theorems are about those functions. `dafny verify dfyconfig.toml` checks everything.

| files | what they hold |
|---|---|
| `Basics`, `Process`, `SchedulerSpec`, `ProcessLists` | processes, and what every scheduler operation, process syscall and timer kill does |
| `Scheduler`, `Syscall` | the scheduler object and the process arms of the dispatcher |
| `SchedulerRuns`, `SchedulerInvariants`, `SchedulerTheorems` | what every run keeps |
| `ProcessTree`, `CarefulRuns` | what a step may break, and exactly when |
| `SchedulerAnswers` | what each operation answers and leaves behind, process by process |
| `ExitCodes`, `KernelTheorems`, `ExampleRuns` | exit codes, what callers may rely on, and runs from boot |
| `Timer` | the timeout manager: functions, object, deadlines |
| `HeapMemory`, `BlockHeap`, `BlockHeapSafety`, `BlockAllocator` | the fixed-size block heap, byte by byte |
| `Paging`, `FrameAllocator`, `AddressSpaces` | page tables and physical frames |
| `Channels`, `ChannelTheorems`, `Handles` | message channels and memory handles |
| `Keyboard`, `Executor` | the two wake-up protocols, as interleaved atomic steps |
| `Vga` | the text screen and the serial text buffer |

Main results:

* **Processes.** There are twelve kinds of step from four source files. `EveryStepOk` and
  `ReachableStatesAreSafe`: in every state reachable from boot no wake-up is lost, only the front can be
  Running and child counts are exact; the one premise is that `add_process` gets newly built processes
  under pids not listed. `Conservation` accounts for every pid.
* **Answers.** `SwitchAnswers`, `RotationAnswers`, `Wait4Collects`, `Wait4Blocks`, `ExitChildren`, `ReapLeaves` and the
  lemmas beside them say what every operation returns and what it does to each process, without reference
  to the functions that compute it.
* **What may break.** Six more invariants hold only with care: the three records of parenthood agree, the
  current pid is in front, the current process is runnable, every parent field is 0 or a listed pid, every
  walk up the process tree ends, parents are older than children. `CarefulStepsKeep` gives for each,
  over the state before the step, the exact condition under which a step keeps it, and
  `ReachableExactly` lifts it to runs from boot: the invariant holds in every state if and only if
  every step meets its condition. `FamilyGrows` is a run that meets all six.
* **Exit codes.** `EveryStepExact` says exactly which steps lose the code of a zombie, and `CodeKeptIff` that over
  every legal run the code is held until it is handed over, unchanged, if and only if no step before
  that loses it. `ExitCodeDeliveredOnce`: then it is still held or was handed out exactly once.
* **Deadlines.** `DeadlineExactness` gives the tick of the warning and of the kill in closed form, for every tick
  after the start however often the 64-bit counter wraps, when only ticks follow the start.
* **Heap.** `EveryStepIsSafe`, `HeapSafety` and `FreshHeapStaysSafe`: free lists threaded through freed memory stay well
  formed, live blocks never overlap, and nobody but its holder changes a live block.
* **Paging.** `CopyTranslatesAlike`, `CopiesKeepAgreeing`, `SetUserBitsOpensPath`: copying a root table
  preserves every translation, and marking a path for user mode changes none, even with aliased tables.
  `TranslatesByLevels` and `MarksThreeLevels` say both over the four index fields of an address.
* **IPC.** `ChannelsAreFifo`, `ReceiveDeliversIff`, `SendAcceptedIff`, `DeliveriesAreSends`: messages arrive in order, and
  a receipt or a send succeeds exactly when the history says so. `HandlesFollowTheirHistory`,
  `TransferSucceedsIff`, `ReceiveSucceedsIff`, `RevocationIsPermanent`: the same for memory handles.
* **Wake-ups and screen.** `NoLostKeystroke`, `NeverHaltsOnPendingWake`, `WakesAreServedInOrder`, `ScreenCells`.

Inputs the kernel takes from outside are parameters: register contents and user memory, the
fallback allocator's answers, the results of polls, the frame in CR3. A panic is an outcome.

Where the code does less than one would expect, or differs from its comments, the code is followed,
and a lemma says what holds:

* The boot code (src/main.rs:23-29) adds processes 1 and 2 while the next pid is still 1, so it is not careful
  about the order of pids, and the first fork of process 1 gets pid 1. Then process 1 is its own parent
  in the tree, the records disagree and the walk up from it never ends: `FirstForkBreaksRecords`.
  `ForkAgrees` and `InsertKeepsGrounded` say exactly which forks do such harm. That nobody is
  its own parent, in `Safe`, is about the parent fields.
* After an exit the current pid is 0 until the next switch. An exit or a reap by pid 0 breaks the
  orphan list: `ExitAgrees` and `ReapAgrees` say exactly when, `DoubleExitIsReachable` and
  `ZeroReapsOrphan` give runs from boot.
* `register_child` rewrites the tree but not the child's own parent field: `RegisterAgrees`, with the run
  `RegisteringAnOrphanBreaksRecords`.
* Cleaning up a zombie that is current leaves the current pid dangling: `CleanupKeepsFront`, with the run
  `CleaningCurrentLeavesPidDangling`.
* A zombie does not always stay one. A process killed at its deadline that yields is ready again and runs
  on, with exit code -1: `KilledProcessRunsOn`. The code of a zombie is lost exactly when it is
  cleaned up, exits again or is killed with another code, or yields or blocks in wait4 from the front:
  `EveryStepExact`.
* A timer kill does not orphan the victim's children, as an exit does, so that its clean-up leaves them with a
  parent that is not listed: `ExitClearsParentFields`, `ParentsExact`, with the run `CleaningKilledParentStrandsChild`.
* A timer kill wakes everyone who waits for any child, not the parent alone: `KillFields`, with the run
  `KillWakesStranger`.
* wait4 switches to the next process in the list, and the idle case of `schedule` rotates it, whether that process
  can run or not: `RunnerExact`, with the run `LoneWaiterStaysCurrent`.
* A deadline is missed for good when the tick counter wraps first: `DeadlineMetUnlessWrap`, with the input
  `LargestLimitIsNeverMet`.
* `schedule` saves the interrupted context into the first process that is not chosen. The process it interrupted, if
  that can still run, is chosen again with its old context, and the one behind it loses its own:
  `ContextSavedIff`. Through timer interrupts and yields alone nobody else ever runs: `FrontKeepsCpu`.
* Only the first thousand channels ever created can be used: `NewChannelUsableIff`, `ThousandAndFirstIsUnusable`.
* A new level 4 entry of the kernel is not seen by existing processes: `RootWriteSeparatesIff` and
  `NewRootEntryIsUnseen` decide it before the write, `AddressZeroSeparates` is an instance.
* `get_next_process_by_priority` is documented to pick the highest priority. It picks the first
  runnable process in the list and reads no priority: `PrioritiesAreIgnored`, `WorsePriorityRunsFirst`.
* Fork allocates a pid and registers it, and adds no process to the list: `ForkFailsOnlyForLimits`.
* A wait4 for one pid is refused unless that pid lies in 1000..10000, while pids count up from 1:
  `Wait4FailsOnlyForArguments`, with the run `SmallPidIsRefused`.
* The comments of `TransferMode` have the sender lose access in two modes. In the code the owner never
  does: `TransferKeepsOwnerAccess`.

## Model

| member | source | states |
|---|---|---|
| `SchedulerObject.Scheduler.AddProcess` | src/process/scheduler.rs:36-47 | the new state, for any process; distinct pids stay distinct if and only if the pid was not listed |
| `SchedulerObject.Scheduler.AllocatePid` | src/process/mod.rs:36-41 | returns the next pid and moves the counter on |
| `SchedulerObject.Scheduler.RegisterChild` | src/process/scheduler.rs:92-110 | new state and outcome as specified, including the tree entry left behind by a failure at the child limit |
| `SchedulerObject.Scheduler.OrphanChildren` | src/process/scheduler.rs:134-154 | exactly the tree's children of the pid are handed to pid 0, and the listed ones join the orphans in pid order |
| `SchedulerObject.Scheduler.WakeParent` | src/process/scheduler.rs:156-168 | the search for the parent, stopping at the first match, wakes exactly a real parent parked on that child or on any child |
| `SchedulerObject.Scheduler.HandleProcessExit` | src/process/scheduler.rs:113-171 | the four passes with their early stops change each process as one per-process function says |
| `SchedulerObject.Scheduler.FindZombieChildren` | src/process/scheduler.rs:174-184 | the pids of exactly the zombie children, in list order |
| `SchedulerObject.Scheduler.TakeZombie` | src/process/scheduler.rs:187-204 | the retain pass drops the child if and only if it is a zombie of that parent, and yields its exit code |
| `SchedulerObject.Scheduler.ReapZombieChild` | src/process/scheduler.rs:187-222 | new state and outcome of a reap, both when it finds the zombie and when it does not |
| `SchedulerObject.Scheduler.CleanupTerminatedProcess` | src/process/scheduler.rs:250-295 | only a zombie is removed, from list, tree and orphans; otherwise nothing changes |
| `SchedulerObject.Scheduler.CleanupAllZombies` | src/process/scheduler.rs:298-321 | collect-then-clean equals cleaning the collected pids one after the other, with the count of successes |
| `SchedulerObject.Scheduler.NextRunnable` | src/process/scheduler.rs:55-64 | the first Ready or Running process in list order, whatever the priorities |
| `SchedulerObject.Scheduler.Schedule` | src/process/scheduler.rs:356-425 | the switch, the fallback rotation and the idle case, with the returned context |
| `Syscalls.Fork` | src/syscall.rs:278-316 | the fork arm over the scheduler object equals the specified step |
| `Syscalls.Wait4` | src/syscall.rs:317-408 | the wait4 arm, from argument checks to reaping or blocking, equals the specified step |
| `Syscalls.SchedYield` | src/syscall.rs:409-425 | the yield arm equals the specified step |
| `Syscalls.Exit` | src/syscall.rs:426-454 | the exit arm, with the truncation to 32 bits, equals the specified step |
| `SchedulerRuns.ScheduleOrder` | src/process/scheduler.rs:356-425 | a schedule moves the first runnable pid to the front and keeps the others in order, or rotates by one |
| `SchedulerRuns.OnlyZombiesLeave` | src/process/scheduler.rs:187-222 | whatever step removes a pid, it was a zombie |
| `SchedulerRuns.CleanupEachIsRun` | src/process/scheduler.rs:298-321 | cleaning up a list of zombies is a run of single clean-ups, so run theorems cover it |
| `SchedulerAnswers.SwitchAnswers` | src/process/scheduler.rs:356-396 | a switch answers with the saved context of the first runnable process, which runs; the interrupted context goes into the first of the others, and every other process is as it was |
| `SchedulerAnswers.RotationAnswers` | src/process/scheduler.rs:398-425 | with nothing runnable the list rotates, the old front gets the interrupted context and the new front's context is the answer; an empty list answers with the interrupted context |
| `SchedulerAnswers.ContextSavedIff` | src/process/scheduler.rs:356-425 | the interrupted current process in front has its context saved if and only if it cannot run any more; otherwise it is chosen again with its old context and the process behind it loses its own |
| `SchedulerAnswers.FrontKeepsCpu` | src/process/scheduler.rs:356-425 | through any number of timer interrupts and yields a runnable current process in front stays current, with its old saved context |
| `SchedulerAnswers.Wait4Collects` | src/syscall.rs:351-379 | with a matching zombie wait4 removes the first one and answers with its pid and exit code |
| `SchedulerAnswers.Wait4Blocks` | src/syscall.rs:381-401 | without one the caller in front waits at the end of the list, and the answer is the saved context of the new front, whatever its state |
| `SchedulerAnswers.Wait4Refuses` | src/syscall.rs:317-408 | in all other cases wait4 is refused and changes nothing |
| `SchedulerAnswers.TruncatesToI32` | src/syscall.rs:426-440 | the exit code is congruent to the argument modulo 2^32 and in the signed 32-bit range |
| `SchedulerAnswers.ExitAnswers` | src/syscall.rs:426-454 | the exit syscall is refused without effect exactly for codes outside -255..255, and otherwise sets the current pid to 0 |
| `SchedulerAnswers.ExitAddsOrphansInOrder` | src/process/scheduler.rs:134-154 | an exit appends to the orphans exactly the listed children the tree names, in ascending order |
| `SchedulerAnswers.RemoveChildDrops` | src/process/mod.rs:365-373 | removing a child takes its first occurrence out of the list and lowers the count, or changes nothing |
| `SchedulerAnswers.RemoveChildContents` | src/process/mod.rs:365-373 | the children, counted with multiplicity, are one occurrence fewer |
| `SchedulerAnswers.ExitChildren` | src/process/scheduler.rs:113-171 | after an exit the real parent's list has one occurrence of the pid fewer, every other list and count is unchanged, and so are contexts, page tables, priorities and limits |
| `SchedulerAnswers.ReapLeaves` | src/process/scheduler.rs:187-222 | a reap answers with the exit code, takes the child out of the reaper's children, the list and the tree, and leaves every other process as it was |
| `SchedulerAnswers.ReapRefuses` | src/process/scheduler.rs:187-222 | a reap of anything but a zombie child of the reaper fails without effect |
| `SchedulerAnswers.SlotComesBack` | src/syscall.rs:284-309 | a fork takes a slot of the parent and the child's exit gives it back, list and count |
| `SchedulerAnswers.RegisterAnswers` | src/process/scheduler.rs:92-110 | a full parent leaves only the tree entry; otherwise its list and count grow by the child, the orphans lose one occurrence of it, and no other process changes |
| `SchedulerAnswers.CleanupAnswers` | src/process/scheduler.rs:250-295 | a listed zombie leaves list, tree and, once, the orphans; anything else is refused without effect |
| `SchedulerAnswers.CleanupCountsLeavers` | src/process/scheduler.rs:298-321 | whatever pids are cleaned up, the count is the number of processes that left |
| `SchedulerAnswers.ForksIff` | src/syscall.rs:284-309 | a fork succeeds if and only if the caller is in front, within its four limits and has a free slot; otherwise nothing changes |
| `SchedulerAnswers.YieldAnswers` | src/syscall.rs:409-425 | yield makes the caller ready if it is in front and does nothing else |
| `SchedulerAnswers.ValidPointers` | src/syscall.rs:120-146 | a user pointer is valid if and only if the size is at most a page and all addresses up to the end are user addresses |
| `SchedulerAnswers.PidsAreConsecutive` | src/process/mod.rs:36-41 | over every run the pids handed out are consecutive, without gap or repetition |
| `SchedulerAnswers.SleepersHaveNothingToCollect` | src/process/scheduler.rs:156-168 | without lost wake-ups nobody sleeps in wait4 beside a zombie child that the wait covers |
| `SchedulerInvariants.WaitChoiceIsComplete` | src/syscall.rs:351-361 | wait4 finds nothing to reap if and only if no listed zombie child matches its target |
| `SchedulerInvariants.ChoiceIsZombie` | src/syscall.rs:351-361 | a pid chosen by wait4 is a zombie child of the caller and the asked-for one, so the reap that follows finds it |
| `SchedulerInvariants.ExitFields` | src/process/scheduler.rs:113-171 | what an exit does to pid, parent, state and exit code of every process, and that it keeps child counts exact |
| `SchedulerInvariants.ExitKeepsWakeups` | src/process/scheduler.rs:113-171 | an exit wakes everyone it must: no parent is left waiting beside the new zombie |
| `SchedulerInvariants.KillKeepsWakeups` | src/timer.rs:182-211 | a timer kill leaves nobody waiting beside a matching zombie child |
| `SchedulerInvariants.KillFields` | src/timer.rs:182-211 | what a timer kill does to pid, parent, state and exit code of every process: the victim dies and everyone whose wait covers it is woken |
| `SchedulerInvariants.BlockKeepsWakeups` | src/syscall.rs:381-401 | blocking in wait4 after a fruitless search creates no lost wake-up |
| `SchedulerInvariants.RegisterAgrees` | src/process/scheduler.rs:92-110 | the parenthood records agree afterwards if and only if the child was unlisted or already a child of that real parent |
| `SchedulerInvariants.ForkAgrees` | src/syscall.rs:284-309 | the records agree after a fork if and only if it cannot go through or the next pid is unlisted or already a listed child of the caller |
| `SchedulerInvariants.ExitOrphans` | src/process/scheduler.rs:134-154 | an exit adds to the orphans exactly one occurrence of each listed child |
| `SchedulerInvariants.ExitAgrees` | src/process/scheduler.rs:113-171 | from agreeing records, they agree afterwards if and only if it was not pid 0 that exited over existing orphans |
| `SchedulerInvariants.ExitLeavesNoChildren` | src/process/scheduler.rs:134-145 | after an exit of a nonzero pid no tree entry names it as parent |
| `SchedulerInvariants.ExitClearsParentFields` | src/process/scheduler.rs:134-154 | from agreeing records, after an exit of a nonzero pid no parent field names it, while a timer kill leaves all parent fields alone |
| `SchedulerInvariants.AddAgrees` | src/process/scheduler.rs:36-47 | adding a nonzero, unlisted pid always keeps the records in agreement |
| `SchedulerInvariants.ReapAgrees` | src/process/scheduler.rs:187-222 | from agreeing records, they agree afterwards if and only if the reaper is not pid 0 or no such zombie is listed |
| `SchedulerInvariants.CleanupAgrees` | src/process/scheduler.rs:250-295 | a clean-up always keeps the records in agreement |
| `SchedulerInvariants.ScheduleKeepsRunner` | src/process/scheduler.rs:356-425 | after any schedule only the front can be Running, and the current pid is 0 or in front |
| `SchedulerTheorems.EveryStepOk` | src/process/scheduler.rs:36-425 | every legal step keeps pids distinct and accounted for, loses no wake-up, and keeps a single runner, exact child counts and nobody its own parent |
| `SchedulerTheorems.RunsAreSafe` | src/process/scheduler.rs:36-425 | every legal run from a safe state ends in a safe one |
| `SchedulerTheorems.Conservation` | src/process/scheduler.rs:187-321 | over any legal run, pids listed at the end plus pids gone are pids listed at the start plus pids added |
| `SchedulerTheorems.ReachableStatesAreSafe` | src/process/scheduler.rs:113-171 | in every state reachable from boot: no lost wake-up, only the front can be Running, child counts exact and within limits, no parent field naming its own process |
| `ProcessTree.InsertKeepsGrounded` | src/process/scheduler.rs:92-95 | recording a parent keeps every walk up the tree finite if and only if the child is a real pid and not on the walk up from that parent |
| `ProcessTree.CutKeepsGrounded` | src/process/scheduler.rs:134-145 | handing children to pid 0 and removing entries keep every walk finite |
| `CarefulRuns.RecordsExact` | src/process/scheduler.rs:36-425 | for every kind of step: the records agree afterwards if and only if the step meets a condition on the state before it |
| `CarefulRuns.FrontExact` | src/process/scheduler.rs:187-425 | for every kind of step: the current pid stays 0 or in front if and only if the step does not reap or clean up the current process |
| `CarefulRuns.CleanupKeepsFront` | src/process/scheduler.rs:250-295 | a clean-up keeps the current pid in front if and only if the pid is not a zombie that is current |
| `CarefulRuns.RunnerExact` | src/process/scheduler.rs:356-425 | for every kind of step: the current process stays runnable if and only if it does not die and a switch finds a runnable process |
| `CarefulRuns.ParentsExact` | src/process/scheduler.rs:187-295 | for every kind of step: every parent field stays 0 or a listed pid if and only if nobody with listed children is removed and nobody is added under an unlisted parent |
| `CarefulRuns.AncestryExact` | src/process/scheduler.rs:36-295 | for every kind of step: every walk still ends if and only if the step records no pid below itself |
| `CarefulRuns.PidOrderExact` | src/process/mod.rs:36-41 | for every kind of step: parents stay older than children if and only if added and registered pids are allocated ones, above their parents |
| `CarefulRuns.CarefulStepsKeep` | src/process/scheduler.rs:36-425 | the six conditions, for every invariant and every legal step, in one statement |
| `CarefulRuns.HoldsThroughoutIff` | src/process/scheduler.rs:36-425 | over every legal run from a safe state an invariant holds in every state if and only if every step meets its condition |
| `CarefulRuns.ReachableExactly` | src/process/scheduler.rs:36-425 | the same for every legal run from boot, for each of the six invariants |
| `CarefulRuns.ReachableStatesAreConsistent` | src/process/scheduler.rs:92-295 | in every state reachable from boot by steps careful about records and front, whatever the pids, the state is safe, the records agree and the current pid is 0 or in front |
| `CarefulRuns.ReachableRunnersRun` | src/process/scheduler.rs:356-425 | in every state reachable from boot by steps careful about it, the current pid is 0 or names a runnable process in front |
| `CarefulRuns.ReachableWalksEnd` | src/process/scheduler.rs:92-145 | in every state reachable from boot without recording a pid below itself, every walk up the tree ends |
| `CarefulRuns.ReachableParentsAreOlder` | src/process/mod.rs:36-41 | in every state reachable from boot with all pids from allocate_pid, parents are older than children |
| `ExitCodes.ExitMakesPending` | src/process/scheduler.rs:113-122 | an accepted exit of a listed pid leaves its code with the zombie for the parent it had, or for pid 0 if the tree names it as its own parent |
| `ExitCodes.KillMakesPending` | src/timer.rs:182-211 | a killed process holds code -1 under its parent, and nobody waits for it any more |
| `ExitCodes.ReapDelivers` | src/process/scheduler.rs:187-222 | the parent's reap returns the code and unlists the child; anyone else's fails and changes nothing |
| `ExitCodes.EveryStepExact` | src/process/scheduler.rs:113-295 | every legal step leaves a zombie's code held, or hands it over unchanged, if and only if the step meets a condition on the state before it; the same for a code held for a given parent |
| `ExitCodes.ExitCodeDeliveredOnce` | src/process/scheduler.rs:113-222 | along any legal run without a step that loses the code before it is handed over, it is still held and never handed out, or was handed out exactly once; for anyone or for a given parent |
| `ExitCodes.CodeKeptIff` | src/process/scheduler.rs:113-222 | over every legal run a code is held in every state until it is handed over, unchanged, if and only if no step before that loses it or, for a given parent, hands it to pid 0 |
| `ExitCodes.NoFurtherDeliveries` | src/process/scheduler.rs:187-222 | once a child is unlisted, no run without a process added under its pid lists it or delivers its code |
| `ExitCodes.ReapTakesOnlyOne` | src/process/scheduler.rs:174-222 | a reap takes exactly the reaped child out of find_zombie_children |
| `KernelTheorems.Wait4NeverFails` | src/syscall.rs:351-402 | a well-formed wait4 of a nonzero current pid reaps a matching zombie if there is one and blocks otherwise |
| `KernelTheorems.Wait4FailsOnlyForArguments` | src/syscall.rs:317-341 | a wait4 of a nonzero current pid in front fails if and only if its arguments are invalid; for one pid outside 1000..10000 it always does and changes nothing |
| `KernelTheorems.PrioritiesAreIgnored` | src/process/scheduler.rs:54-64 | two states that differ only in priorities get the same choice, the same order and the same context |
| `KernelTheorems.ForkFailsOnlyForLimits` | src/syscall.rs:284-309 | fork of a nonzero current pid fails only for limits, changing nothing; otherwise the new pid enters the tree and the parent's children, and no process is added |
| `KernelTheorems.EveryWalkEnds` | src/process/mod.rs:36-41 | with parents older than children every walk up the tree leaves it within pid + 1 steps and stays out |
| `KernelTheorems.CleanupAllLeavesNonZombies` | src/process/scheduler.rs:298-321 | exactly the non-zombies remain, in order, and the count is the number of zombies |
| `KernelTheorems.CleanupEachIsFilter` | src/process/scheduler.rs:298-321 | cleaning up distinct zombies removes exactly them, and every one counts |
| `ExampleRuns.SecondExit` | src/syscall.rs:443-451 | a second exit before a switch keeps the records in agreement if and only if there is no orphan |
| `ExampleRuns.DoubleExitIsReachable` | src/syscall.rs:443-451 | a legal four-step run from boot records pid 1 as an orphan twice |
| `ExampleRuns.ZeroReapsOrphan` | src/syscall.rs:351-379 | a legal four-step run from boot, ending in a wait4 by pid 0, empties the process list and leaves pid 1 among the orphans |
| `ExampleRuns.FamilyGrows` | src/process/mod.rs:243-270 | a legal run from boot, careful about all six invariants, that ends with a parent and its child listed |
| `ExampleRuns.FirstForkBreaksRecords` | src/main.rs:23-29 | the first fork after the boot code gets pid 1: process 1 is its own parent in the tree, no orphan, the records disagree and its walk never ends |
| `ExampleRuns.RegisteringAnOrphanBreaksRecords` | src/process/scheduler.rs:92-110 | after the boot code, registering process 2 under process 1 makes the records disagree |
| `ExampleRuns.CleaningCurrentLeavesPidDangling` | src/process/scheduler.rs:250-295 | a legal run from boot after which the current pid is 1 and the list empty |
| `ExampleRuns.WorsePriorityRunsFirst` | src/process/scheduler.rs:54-64 | a legal run from boot in which priority 20 runs while a ready process has priority 5, the better one |
| `ExampleRuns.SmallPidIsRefused` | src/syscall.rs:317-328 | a legal run from boot after which wait4 for the zombie child 2 of the caller is refused |
| `ExampleRuns.KilledProcessRunsOn` | src/syscall.rs:409-425 | a legal run from boot after which a process killed by the timer is Running again with exit code -1 |
| `ExampleRuns.CleaningKilledParentStrandsChild` | src/timer.rs:182-211 | a legal run from boot after which child 2 is listed under parent 1, who is not |
| `ExampleRuns.LoneWaiterStaysCurrent` | src/syscall.rs:381-401 | a legal run from boot after which the current process is waiting in wait4 |
| `ExampleRuns.KillWakesStranger` | src/timer.rs:199-209 | a legal run from boot after which a timer kill wakes a process that is not the victim's parent and has nothing to collect |
| `TimerObject.TimeoutManager.StartUserMode` | src/timer.rs:105-120 | starts the first entry for the pid, registering one with the default limit if needed |
| `TimerObject.TimeoutManager.EndUserMode` | src/timer.rs:122-129 | resets the entry of the current user pid and leaves user mode |
| `TimerObject.TimeoutManager.UnregisterProcess` | src/timer.rs:100-103 | keeps exactly the other processes' entries |
| `TimerObject.TimeoutManager.RegisterProcess` | src/timer.rs:94-98 | a fresh entry is added behind the others, with the given or the default limit |
| `TimerObject.TimeoutManager.CheckTimeouts` | src/timer.rs:139-180 | checks the current user process alone, and changes the scheduler exactly when it is killed |
| `TimerObject.TimeoutManager.SetTimeoutLimit` | src/timer.rs:213-221 | changes the first entry or registers a new one |
| `TimerObject.TimeoutManager.GetStatus` | src/timer.rs:223-230 | reports the first entry's state, saturated elapsed ticks and limit |
| `TimerObject.TimeoutManager.KillProcess` | src/timer.rs:182-211 | both loops over the scheduler's list, against the per-process effect of a kill |
| `TimerObject.TimeoutManager.IncrementTick` | src/timer.rs:131-180 | the tick's new state and event, and the scheduler changed exactly when the event is a kill |
| `TimerTheorems.StatusIsAlwaysNormal` | src/timer.rs:50-67 | over every run all stored states are Normal, so get_status reports nothing else |
| `TimerTheorems.OthersMembers` | src/timer.rs:100-103 | exactly the entries of other processes remain |
| `TimerTheorems.OthersOfOne` | src/timer.rs:100-103 | an entry goes if and only if it is of that process |
| `TimerTheorems.OthersSplit` | src/timer.rs:100-103 | the entries that remain keep their order |
| `TimerTheorems.UnregisteredIsForgotten` | src/timer.rs:100-103 | an unregistered process has no status, and if it is the one in user mode ticks do nothing but count |
| `TimerTheorems.TicksOutsideUserMode` | src/timer.rs:122-137 | ending user mode resets the first entry of its process alone, and ticks then only count |
| `TimerTheorems.RegisterAppends` | src/timer.rs:94-98 | a fresh entry with the given limit or 30 goes behind the others and leaves the status of a known process as it was |
| `TimerTheorems.LastLimitGoverns` | src/timer.rs:213-221 | the limit last set is the one a later start runs under, and no other entry changes |
| `TimerTheorems.StartAnswers` | src/timer.rs:105-120 | an unknown process starts with limit 30, and a start changes no other entry |
| `TimerTheorems.StatusWhileRunning` | src/timer.rs:223-230 | while the process runs its status is Normal, the ticks since the start, 0 after a wrap below it, and its limit |
| `TimerTheorems.StartEstablishes` | src/timer.rs:105-120 | after a start the first entry for the pid is fresh at the current tick |
| `TimerTheorems.TicksInClosedForm` | src/timer.rs:131-160 | if only ticks follow the start, after any number of them the whole manager state is given in closed form |
| `TimerTheorems.DeadlineExactness` | src/timer.rs:131-180 | if only ticks follow the start, every tick kills, warns or is quiet exactly as the closed form says, however often the counter wraps |
| `TimerTheorems.DeadlineWithoutWrap` | src/timer.rs:50-67 | without a wrap: one warning at half the limit and a kill at the limit; limits 0 and 1 kill at once without warning |
| `TimerTheorems.DeadlineMetUnlessWrap` | src/timer.rs:50-67 | the process is ever killed if and only if the limit is 0 or the counter does not wrap before the deadline |
| `TimerTheorems.LargestLimitIsNeverMet` | src/timer.rs:50-67 | with the largest limit and a start at tick 1 no tick ever kills |
| `HeapMemory.ReadWritten` | src/allocator/fixed_size_block.rs:94-104 | a next pointer written into a block reads back, byte by byte |
| `BlockAllocatorObject.FindListIndex` | src/allocator/fixed_size_block.rs:59-62 | the smallest class that covers size and alignment, or none |
| `BlockAllocatorObject.FixedSizeBlockAllocator.constructor` | src/allocator/fixed_size_block.rs:28-45 | a new allocator over a memory range is sound and has no live block |
| `BlockAllocatorObject.FixedSizeBlockAllocator.Alloc` | src/allocator/fixed_size_block.rs:65-87 | list heads and memory change as specified and the heap stays sound |
| `BlockAllocatorObject.FixedSizeBlockAllocator.Dealloc` | src/allocator/fixed_size_block.rs:90-113 | the block becomes the head of its list, or goes back to the fallback, and the heap stays sound |
| `BlockHeap.BlockServes` | src/allocator/fixed_size_block.rs:59-81 | a chosen block is large enough and its alignment serves the layout's |
| `BlockHeapSafety.EveryStepIsSafe` | src/allocator/fixed_size_block.rs:64-113 | every alloc, dealloc and caller's write keeps the heap sound and changes no other granted block, so no next pointer lands in a live block |
| `BlockHeapSafety.LiveBlocksApart` | src/allocator/fixed_size_block.rs:65-87 | distinct live blocks share no byte |
| `BlockHeapSafety.AllocGivesBlock` | src/allocator/fixed_size_block.rs:65-87 | a non-null result is new, in the heap, large enough, aligned and clear of all live blocks |
| `BlockHeapSafety.AllocAnswers` | src/allocator/fixed_size_block.rs:65-87 | the answer is the first block of the list or else what the fallback gives, so null exactly for an empty list and a fallback that has nothing |
| `BlockHeapSafety.PoppedBlockIsCleared` | src/allocator/fixed_size_block.rs:68-73 | a block from a list has its next pointer cleared, its successor heads the list, and no other byte changes |
| `BlockHeapSafety.RequestsGetSmallestBlock` | src/allocator/fixed_size_block.rs:19 | a request up to 2048 bytes is served by the smallest power of two from 8 up that covers size and alignment, a larger one goes to the fallback as it is |
| `BlockHeapSafety.LargeBlockGoesBack` | src/allocator/fixed_size_block.rs:106-113 | a block above the classes goes back to the fallback and no list changes |
| `BlockHeapSafety.FreedBlockIsReused` | src/allocator/fixed_size_block.rs:65-105 | free then alloc of the same class returns the same block and restores all lists |
| `BlockHeapSafety.FreedBlockHeads` | src/allocator/fixed_size_block.rs:90-105 | a freed block heads its list, and its first bytes hold the old head |
| `BlockHeapSafety.HeapSafety` | src/allocator/fixed_size_block.rs:64-113 | over every legal run the heap stays sound, and every block neither freed nor written by its holder keeps its layout and every byte |
| `BlockHeapSafety.RunsAreSound` | src/allocator/fixed_size_block.rs:64-113 | every legal run from a sound heap, live blocks or not, ends in a sound heap of the same extent |
| `BlockHeapSafety.FreshHeapStaysSafe` | src/allocator/fixed_size_block.rs:28-113 | over every legal run of a fresh allocator live blocks lie in the heap, are aligned as asked and share no byte |
| `Paging.TranslateAddr` | src/memory.rs:130-163 | the level loop computes the translation, None for absent entries, panic for huge pages |
| `Paging.TranslatesIffChain` | src/memory.rs:130-163 | an address translates if and only if four present, non-huge entries lead from the root to its frame |
| `Paging.IndexesCompose` | src/memory.rs:139-141 | the four indexes and the offset are the digits of the low 48 bits of the address, level 4 first |
| `Paging.IndexesOfComposed` | src/memory.rs:139-141 | conversely the address composed of four indexes and an offset has exactly these |
| `Paging.PagesHavePaths` | src/memory.rs:139-141 | two addresses below 2^48 have the same path if and only if they lie in one page |
| `Paging.TranslatesByLevels` | src/memory.rs:130-163 | the address with given indexes maps to a physical address if and only if four present, non-huge entries at these indexes lead to its frame |
| `Paging.CopyTranslatesAlike` | src/process/mod.rs:632-654 | a root copied into a frame no table refers to translates every address as the old root did, which still does |
| `Paging.CopiesKeepAgreeing` | src/process/mod.rs:648-651 | two equal roots keep agreeing on every address through any later writes to other tables |
| `Paging.RootWriteSeparatesIff` | src/process/mod.rs:648-651 | if no table leads back to the written root, a write to one of two equal roots separates them exactly at the addresses where, in the memory before the write, the new entry leads elsewhere than the old one |
| `Paging.NewRootEntryIsUnseen` | src/process/mod.rs:648-651 | an entry written where there was none: the other root maps nothing there, the written one exactly what the tables below the entry led to before the write |
| `Paging.AddressZeroSeparates` | src/process/mod.rs:648-651 | a memory and an entry after which address 0 is mapped under one root and not under the other |
| `Paging.SetUserBitsKeepsTranslations` | src/memory.rs:102-119 | marking a path changes no translation from any root and clears no flag, also when it panics midway |
| `Paging.SetUserBitsAddsUser` | src/memory.rs:102-119 | marking a path leaves every frame address, clears no flag and adds none but the user flag |
| `Paging.SetUserBitsOpensPath` | src/memory.rs:102-119 | marking succeeds if and only if the path is present and not huge, and then every entry on it is open to user mode, aliased or not |
| `Paging.MarksThreeLevels` | src/memory.rs:102-119 | exactly the level 4, 3 and 2 entries of the address gain the user flag, and no other entry of memory changes |
| `Paging.EveryEntryMetIsMarked` | src/memory.rs:102-119 | every entry met on the way is marked, also the one on which the marking panics |
| `Paging.MappedPageBecomesUserAccessible` | src/memory.rs:80-119 | once the leaf entry is present and open to user mode, marking the parents succeeds and opens all four levels |
| `Paging.PhysicalMemory.CopyLevel4` | src/process/mod.rs:648-651 | the copy loop gives the new frame the root's 512 entries and changes nothing else |
| `Paging.PhysicalMemory.SetUserBitForParents` | src/memory.rs:102-119 | the in-place loop over three levels equals marking the path, panic included |
| `FrameAllocator.BootInfoFrameAllocator.AllocateFrame` | src/memory.rs:49-53 | the k-th call returns the k-th usable frame, or None |
| `FrameAllocator.HandsOutExactlyUsable` | src/memory.rs:33-45 | for a map whose usable regions are page-aligned and disjoint, a frame is handed out if and only if it lies in usable memory |
| `FrameAllocator.NeverTwice` | src/memory.rs:33-54 | for such a map no frame is handed out twice |
| `FrameAllocator.HandsOutEveryPage` | src/memory.rs:33-54 | for such a map the frames handed out add up to all usable bytes |
| `FrameAllocator.FramesComeInOrder` | src/memory.rs:33-45 | frames come in the order of the memory map |
| `FrameAllocator.FramesOfOneRegion` | src/memory.rs:33-45 | within a usable region they are its pages, ascending; an unusable one gives none |
| `AddressSpaces.NextFrameIsUnreferenced` | src/process/mod.rs:632-654 | under the same premise as the next row, no table refers to the frame handed out next |
| `AddressSpaces.NewProcessSharesAddressSpace` | src/process/mod.rs:632-654 | if tables refer only to frames already handed out or outside usable memory, a root built in the next frame sees every address as the kernel does |
| `ChannelObject.ChannelRegistry.CreateChannel` | src/ipc.rs:505-515 | the registry object creates channels as specified, refusing self-channels |
| `ChannelObject.ChannelRegistry.SendMessage` | src/syscall.rs:515-555 | guards, lookup and the bounded queues, against the specified step |
| `ChannelObject.ChannelRegistry.ReceiveMessage` | src/syscall.rs:556-607 | guards, lookup and the cut to the buffer size, against the specified step |
| `ChannelObject.ChannelRegistry.RemoveChannel` | src/ipc.rs:420-421 | every channel with the id goes, the others keep their order |
| `ChannelObject.ChannelRegistry.CleanupProcessChannels` | src/ipc.rs:413-424 | the two phases, against removing the collected ids one by one |
| `ChannelSpec.NewMessage` | src/ipc.rs:286-297 | a message holds the first min(length, 256) bytes of its data |
| `ChannelTheorems.ChannelsAreFifo` | src/ipc.rs:332-361 | over every run, in each direction of every channel accepted messages are delivered ones followed by queued ones; queues stay within 1000 and hold the right sender; ids are unique |
| `ChannelTheorems.NthReceivedIsNthSent` | src/ipc.rs:332-361 | the n-th message received is the n-th accepted from the other endpoint |
| `ChannelTheorems.ReceiveDeliversIff` | src/ipc.rs:353-361 | over every run a receipt by an endpoint delivers, if and only if the other endpoint has more messages accepted than this one got, the first of these cut to the buffer |
| `ChannelTheorems.SendAcceptedIff` | src/ipc.rs:332-350 | over every run a send by an endpoint is accepted, with all its bytes, if and only if fewer than 1000 of its messages are waiting |
| `ChannelTheorems.OthersAreRefused` | src/syscall.rs:515-607 | bad arguments, unknown ids and sends of strangers are refused without effect, and a stranger receives nothing |
| `ChannelTheorems.CreateAnswers` | src/syscall.rs:492-514 | a channel is created if and only if the target is another pid from 1 to 10000, and it is new and empty |
| `ChannelTheorems.NewChannelUsableIff` | src/syscall.rs:515-525 | over every run, a well-formed message on a channel just created is accepted if and only if fewer than 1000 channels were created before it |
| `ChannelTheorems.ThousandAndFirstIsUnusable` | src/syscall.rs:515-525 | after a thousand creations the next channel is created and every send on it refused |
| `ChannelTheorems.DeliveriesAreSends` | src/syscall.rs:515-607 | every delivery of every run hands over an earlier send's first min(length, buffer size) bytes |
| `ChannelTheorems.OtherChannelsUntouched` | src/ipc.rs:529-553 | a send or receive leaves every other channel as it was |
| `ChannelTheorems.CleanupIsFilter` | src/ipc.rs:413-424 | with unique ids the two-phase clean-up keeps exactly the channels the process is not an endpoint of, in order |
| `ChannelTheorems.StrangersSplit` | src/ipc.rs:413-424 | the channels that stay keep their order |
| `ChannelTheorems.StrangersOfOne` | src/ipc.rs:413-424 | a channel goes if and only if the process is one of its two endpoints |
| `HandleObject.HandleRegistry.CreateHandle` | src/ipc.rs:196-206 | the registry object creates handles as specified |
| `HandleObject.HandleRegistry.TransferMemory` | src/ipc.rs:609-670 | the checks in order and the new holder, against the specified step |
| `HandleObject.HandleRegistry.ReceiveMemoryHandle` | src/ipc.rs:688-741 | the checks in order and the mapping, against the specified step |
| `HandleObject.HandleRegistry.RevokeMemoryHandle` | src/ipc.rs:759-813 | revocation before the unmapping that could fail, against the specified step |
| `HandleObject.HandleRegistry.CleanupProcessHandles` | src/ipc.rs:239-262 | the index-and-remove loop ends and leaves exactly the handles not owned or held by the process, in order |
| `HandleTheorems.PageCountNeverFails` | src/ipc.rs:49-60 | a valid range always counts size / 4096 pages without overflow |
| `HandleTheorems.HandlesFollowTheirHistory` | src/ipc.rs:573-813 | over every run ids are unique and nonzero, owner, range, mode and rights are those of creation, the holder is the last target, active means not revoked, mapped means received and not revoked, and revoked means no rights |
| `HandleTheorems.CreateSucceedsIff` | src/ipc.rs:573-584 | a handle is created if and only if its range is a positive number of whole pages; it is active, unmapped, owned and held by its creator |
| `HandleTheorems.TransferSucceedsIff` | src/ipc.rs:609-670 | over every run a transfer of a registered handle succeeds if and only if its creator gives it to someone else before revoking it, and then changes the holder alone; each refusal has its error |
| `HandleTheorems.ReceiveSucceedsIff` | src/ipc.rs:688-741 | a receipt succeeds if and only if the last target asks before the revocation; it answers with the range and maps the handle at its start |
| `HandleTheorems.RevokeSucceedsIff` | src/ipc.rs:759-813 | a revocation succeeds if and only if the creator asks, and leaves the handle without rights and mapping |
| `HandleTheorems.UnknownHandleIsRefused` | src/ipc.rs:609-813 | an id that is not registered is answered with HandleNotFound |
| `HandleTheorems.CleanupSplits` | src/ipc.rs:239-262 | the handles that stay keep their order |
| `HandleTheorems.CleanupOfOne` | src/ipc.rs:239-262 | a handle goes if and only if the process owns or holds it |
| `HandleTheorems.AccessIsCreatorAndLastTarget` | src/ipc.rs:124-126 | access belongs exactly to the creator and the last target until revocation |
| `HandleTheorems.RevocationIsPermanent` | src/ipc.rs:759-813 | after a revocation no later run restores access, and every transfer or receipt is refused |
| `HandleTheorems.TransferKeepsOwnerAccess` | src/ipc.rs:601-660 | a transfer takes access from the previous target alone, in every mode |
| `Keyboard.NoLostKeystroke` | src/process/mod.rs:567-612 | in every interleaving a parked consumer with input has been woken or is about to be, and consumes the accepted scancodes in order |
| `Keyboard.ParkedConsumerIsServed` | src/process/mod.rs:591-612 | the pending wake fires its waker, nothing takes the wake away, and the next poll returns the oldest scancode |
| `Keyboard.StepAnswers` | src/process/mod.rs:567-612 | a push is accepted if and only if fewer than 100 scancodes are queued; a wake fires the registered waker and uses it up; pops take the oldest; a consumer served after registering takes its waker back |
| `Keyboard.WakersFireOnce` | src/process/mod.rs:567-612 | over every interleaving each registration fires at most once |
| `Executor.NeverHaltsOnPendingWake` | src/task/executor.rs:31-74 | whatever interrupts come, waking tasks or not, the CPU is never halted beside an unserved wake, and wakers are cached only for live tasks |
| `Executor.FinishedTasksStayFinished` | src/task/executor.rs:48-55 | a task whose poll returned Ready is never polled again |
| `Executor.WakesAreServedInOrder` | src/task/executor.rs:31-57 | over every run wakes are served in the order they come, each once |
| `Executor.StepAnswers` | src/task/executor.rs:23-84 | what each step does to queue, tasks, wakers and CPU; the 101st waiting wake panics, and no interrupt comes between the check and the halt |
| `Executor.IdleExecutorHaltsAndResumes` | src/task/executor.rs:58-74 | a possible run in which the CPU halts, is woken and polls task 0 |
| `Executor.DrainIsRun` | src/task/executor.rs:39-56 | for every sequence of rounds the loop ends in a state the step machine reaches by possible steps |
| `Executor.LoopIsDrain` | src/task/executor.rs:39-56 | conversely every possible execution of the loop, ended, panicked or between two iterations, is given by some rounds |
| `Executor.ExecutorObject.SpawnTask` | src/task/executor.rs:23-30 | insertion and first wake, with the panic on a full queue |
| `Executor.ExecutorObject.PollTask` | src/task/executor.rs:47-55 | one poll with the wakes that arrive during it, ending in removal or in waiting |
| `Executor.ExecutorObject.RunReadyTasks` | src/task/executor.rs:31-57 | the loop over queue, tasks and waker cache, iteration by iteration, with wakes before each pop and during each poll |
| `VgaObject.Writer.NewLine` | src/vga_buffer.rs:86-95 | the in-place scroll of the 2D buffer is a shift by one row |
| `VgaObject.Writer.ClearRow` | src/vga_buffer.rs:97-105 | blanks one row in the current colour and no other cell |
| `VgaObject.Writer.WriteByte` | src/vga_buffer.rs:65-84 | one byte on the buffer, with deferred wrapping |
| `VgaObject.Writer.WriteString` | src/vga_buffer.rs:107-116 | the byte loop with unprintable bytes replaced |
| `VgaTheorems.ScreenShowsLastRows` | src/vga_buffer.rs:64-117 | from column 0, after any text the buffer holds the last 25 rows of the text split at newlines and wrapped at 80, below what was there |
| `VgaTheorems.ScreenCells` | src/vga_buffer.rs:64-117 | every cell of the 25 rows of 80 after any text from column 0: the character of the layout in the current colour, a space behind the end of a row, or what was there before |
| `VgaTheorems.LinesRejoin` | src/vga_buffer.rs:65-84 | the lines of a text joined with newlines are the text, and no line holds a newline |
| `VgaTheorems.WrapRejoins` | src/vga_buffer.rs:65-84 | the rows of a line joined are the line; all but the last have exactly 80 characters |
| `VgaTheorems.UnprintablesAreReplaced` | src/vga_buffer.rs:107-116 | a string is written byte for byte, everything but printable ASCII and newlines as 0xfe |
| `VgaTheorems.ByteFollowsLayout` | src/vga_buffer.rs:65-84 | one byte written to a screen that shows a layout gives the screen of the extended layout |
| `VgaTheorems.WritesConcatenate` | src/vga_buffer.rs:107-116 | several writes show what one write of the whole shows |
| `SerialBuffer.BufferWriter.WriteStr` | src/vga_buffer.rs:200-212 | the buffer holds, byte for byte, the first bytes of everything written, up to its capacity |

## Left out

- AddProcess: a second process under a listed pid is added as the code adds it, and distinctness is lost exactly then; what the other operations do to such a list is not modelled.
- Fork: pids are unbounded naturals; the wrap of the pid counter after 2^64 allocations is not modelled, nor is that of the channel and handle counters.
- Alloc: the fallback allocator is known by its contract only; callers free live blocks with their own layout and write inside live blocks.
- RunReadyTasks: a poll that never returns is not covered, and a loop that never ends only iteration by iteration.
- SendMessage: the caller's bytes are an input; reading them from user memory, and a null pointer with a nonzero length, are not modelled.
- SwitchAnswers: no fairness, priority order or survival of saved contexts is promised, since the code does not provide them; `FrontKeepsCpu`, `PrioritiesAreIgnored` and `ContextSavedIff` say what it does.
- SpawnTask: spawning is modelled between polls, as the exclusive borrow of the executor demands.
- Process groups, sessions, creation times and the setters for priority and limits: they take no part in the modelled steps.
- `Process::wait` and `Process::join`: the first answers with a placeholder, and no modelled step calls either.
- The queue of asynchronous tasks inside the scheduler: `schedule` does not use it.
- Register parsing, assembly, MSR, GDT, IDT, PIC and CR3 effects: hardware with no modelled semantics.
- `map_to` and TLB flushes: library and hardware effects; the mapped leaf is a premise of `MappedPageBecomesUserAccessible`.
- Two frame allocators over the same memory map: distinctness is stated for one.
- The simulated frames and page installation in memory transfers, and the panic on a non-canonical address there: only handle state is modelled.
- `HandleRegistry::revoke_handle` on its own: nothing in the repository calls it.
- src/memory/scalable.rs, with its per-CPU free lists, region reference counts and the mapping operations for IPC: a separate memory manager that the modelled code does not call.
- src/cpu.rs, src/error.rs, src/serial.rs, the scancode decoder and the test framework: not modelled.
- An uninitialised scancode queue: the keyboard protocol starts with the queue in place.
- Lock internals and lock order: every locked operation is one atomic step.
