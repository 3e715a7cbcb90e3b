# Verified models of the kernel's scheduler, C library and data paths

A Dafny model of the parts of the system (a monolithic kernel on ArceOS) whose correctness
rests on more than one function, with proofs for all inputs, all runs or all reachable states.

- **Scheduler on several CPUs** (`SmpKernel`, `SmpInvariant`, `SmpSafety`, `SmpProgress`,
  `SmpAffinity`, `SmpCalls`, `RunQueueSelect`). A transition system with one step per atomic
  action or lock section of `axtask`, sequentially consistent atomics and any number of CPUs.
  Queues are multisets, so any scheduling policy is covered. `SmpInvariant` proves one inductive invariant step by step;
  it is about two auxiliary maps, the place of each task and the CPU that uses its stack.
  `SmpSafety` draws the conclusions, which do not mention the maps, for every run from boot.
  `SmpProgress` shows that waiting for `on_cpu` with a lock held ends, `SmpAffinity` that the
  masks asked for in a run are obeyed, and `SmpCalls` what single calls achieve.
- **Sleeping mutex** (`Mutex`), **wait queues with timers on one CPU** (`Timers`) and **`join`
  against `exit`** (`Join`), as transition systems in the same style.
- **String search** (`Words`, `MaximalSuffix`, `TwoWaySearch`, `Strstr`): `strstr` with its
  rolling windows and the two-way algorithm, down to the critical factorization theorem.
- **Arithmetic of the C library**: `fmod` on bit patterns (`Fmod`), the calendar (`Calendar`),
  `vsnprintf` from the format string to the buffer (`Format`, `Printf`, `PrintInteger`) against
  the texts of the standard (`PrintStandard`, `PrintfTexts`), integer parsing (`Strtol`,
  `StrtolTexts`) and the round trip between the two (`PrintParse`), `memmove` and `memset`
  (`MemCopy`).
- **Data paths**: copying to and cloning of address spaces (`AddrSpace`), pipes (`Pipe`), the
  cursor over a block device (`Disk`), hard links (`Hardlinks`) and child reaping (`Children`).

Where a promised property does not hold of the code, the code is modelled as it is and the
exact condition is proved:

- `join` on another CPU can miss the exit code, because the state Exited is stored first; so
  can `wait4`.
- `mktime` does not undo `gmtime_r` for years that do not fit an `int`.
- Printing drops the sign of a negative number when 32 or more digits are asked for, half of
  the `0x` prefix at 31 digits, and all but the low 32 digits of a binary number; `strtoull`
  does not know the `0b` prefix. A field is narrower than its width when more than 32 zeros
  are asked for.
- The format loop steps over the end of a format that stops after the flags or digits of a
  directive, as in `%5`; after `%`, `*`, `.` or a length letter it returns as intended.
- The round robin over run queues has a bound that other CPUs, which use its counter as well,
  cannot break if and only if the mask has every CPU.
- `wait4` for a given child waits for it with WNOHANG as well.
- A string conversion reads the byte at its precision, and with a precision of 0 all bytes up
  to a zero, so it can leave an array that has no zero.
- Cloning an address space reads as many bytes as the bounce buffer has grown to, so it fails
  for a smaller area that is not followed by mapped memory.
- `read` on a pipe does not return when its request is met exactly, and `write` does not when
  it has filled the pipe exactly.

Where code and comment disagree the model follows the code: unlocking a mutex wakes one waiter,
not all of them; `create_link` accepts only directory paths, while its comment asks for files.

Interfaces to code outside the model are parameters: the device is an array with blocks that
fail on reading or on writing, a page table is a map from pages to frames, new frames are given
by the caller and fresh, the clock only advances, files exist and can be removed or not, the
text of a floating-point number is part of the argument, and `join` on a child that still runs
returns a given code.

## Model

| member | source | states |
|---|---|---|
| `SmpSafety.EveryRunIsSafe` | arceos/modules/axtask/src/run_queue.rs:468-623 | For any number of CPUs and every sequence of steps from boot: each task lies in exactly one place (one queue, once; one wait queue, once; one unblocker; one migration task; picked or current on one CPU; one exited list; idle slot; freed) in the state that belongs to it; `on_cpu` is set just when one CPU, and only one, uses the stack; a task in use is in no foreign queue; masks are respected; freed means unreferenced and conversely; all the run-time assertions hold |
| `SmpSafety.OnePlaceHolds` | arceos/modules/axtask/src/run_queue.rs:468-522 | No task is lost, queued twice or in two places: there is one place where it lies, and its state and `in_wait_queue` fit that place |
| `SmpSafety.StackExclusiveHolds` | arceos/modules/axtask/src/run_queue.rs:524-572 | `on_cpu` is set if and only if some CPU is on, is leaving or is entering the stack of the task, and there is at most one such CPU; another CPU never has the task in its queue |
| `SmpSafety.AffinityHolds` | arceos/modules/axtask/src/api.rs:158-185 | A task that is queued, picked or current on a CPU has that CPU in its mask, except between changing the mask and the migration |
| `SmpSafety.FreedIffUnreferencedHolds` | arceos/modules/axtask/src/run_queue.rs:575-598 | A task has been freed by the GC task if and only if no strong reference to it is left anywhere |
| `SmpSafety.ChecksHold` | arceos/modules/axtask/src/run_queue.rs:506-572 | `is_running` at every point where running code is required, `next.is_ready`, `strong_count > 1` of the outgoing task, the upgrade of `PREV_TASK`, "Migration failed", and the wake-up CAS never fail; a migrated task is off its stack before it is queued |
| `SmpSafety.StepKeeps` | arceos/modules/axtask/src/run_queue.rs:285-623 | Every enabled step of every CPU keeps the inductive invariant |
| `SmpSafety.RunKeeps` | arceos/modules/axtask/src/run_queue.rs:285-623 | The invariant holds in every state of every run |
| `SmpSafety.BootInv` | arceos/modules/axtask/src/run_queue.rs:624-666 | The state after `init` on CPU 0 and `init_secondary` on the others satisfies the invariant |
| `SmpProgress.SpinEnds` | arceos/modules/axtask/src/run_queue.rs:479-495 | In every run, once the CPU whose task is waited for has made as many of its own steps as its distance from `clear_prev_task_on_cpu` (at most five), `on_cpu` of that task has been cleared, whatever other CPUs did: the spin under the wait-queue lock cannot deadlock |
| `SmpProgress.SpinnerWaitsForLeaver` | arceos/modules/axtask/src/run_queue.rs:479-495 | A CPU that spins on `on_cpu` waits for another CPU, which is between giving the task away and clearing the flag |
| `SmpProgress.LeaverCanStep` | arceos/modules/axtask/src/run_queue.rs:506-572 | A CPU on its way out of a task always has an enabled step |
| `SmpProgress.LeaverApproaches` | arceos/modules/axtask/src/run_queue.rs:524-572 | Each step of that CPU brings it one step nearer, and the last one clears `on_cpu` |
| `SmpProgress.SpinStep` | arceos/modules/axtask/src/run_queue.rs:479-495 | While a CPU spins, steps of other CPUs leave it spinning on the same CPU, or end the spin condition |
| `SmpInvariant.YieldKeeps` | arceos/modules/axtask/src/run_queue.rs:285-352 | Offering the current task to its own queue: CAS Running to Ready: the invariant is kept, with the place and the stack user of each task afterwards written out |
| `SmpInvariant.PutBackKeeps` | arceos/modules/axtask/src/run_queue.rs:476-498 | Entering the queue after the CAS: the invariant is kept, with the place and the stack user of each task afterwards written out |
| `SmpInvariant.PickKeeps` | arceos/modules/axtask/src/run_queue.rs:506-513 | Picking a queued task: the invariant is kept, with the place and the stack user of each task afterwards written out |
| `SmpInvariant.PickIdleKeeps` | arceos/modules/axtask/src/run_queue.rs:511-514 | Picking the idle task when the queue is empty: the invariant is kept, with the place and the stack user of each task afterwards written out |
| `SmpInvariant.SetRunningKeeps` | arceos/modules/axtask/src/run_queue.rs:524-538 | Marking the next task Running: the invariant is kept, with the place and the stack user of each task afterwards written out |
| `SmpInvariant.StayKeeps` | arceos/modules/axtask/src/run_queue.rs:538-541 | Returning at once when the next task is the current one: the invariant is kept, with the place and the stack user of each task afterwards written out |
| `SmpInvariant.SetOnCpuKeeps` | arceos/modules/axtask/src/run_queue.rs:543-546 | Claiming the next task: the invariant is kept, with the place and the stack user of each task afterwards written out |
| `SmpInvariant.SwapCurrentKeeps` | arceos/modules/axtask/src/run_queue.rs:548-565 | Storing `PREV_TASK`, replacing the current task, switching stacks: the invariant is kept, with the place and the stack user of each task afterwards written out |
| `SmpInvariant.ClearPrevKeeps` | arceos/modules/axtask/src/run_queue.rs:615-623 | Clearing `on_cpu` of the previous task: the invariant is kept, with the place and the stack user of each task afterwards written out |
| `SmpInvariant.BlockKeeps` | arceos/modules/axtask/src/run_queue.rs:395-420 | Blocking in a wait queue under its lock: the invariant is kept, with the place and the stack user of each task afterwards written out |
| `SmpInvariant.NotifyKeeps` | arceos/modules/axtask/src/wait_queue.rs:171-213 | Popping a waiter under the lock of the queue and choosing its run queue: the invariant is kept, with the place and the stack user of each task afterwards written out |
| `SmpInvariant.WakeCasKeeps` | arceos/modules/axtask/src/run_queue.rs:476 | CAS Blocked to Ready: the invariant is kept, with the place and the stack user of each task afterwards written out |
| `SmpInvariant.SpinDoneKeeps` | arceos/modules/axtask/src/run_queue.rs:479-498 | Queueing the unblocked task after the spin: the invariant is kept, with the place and the stack user of each task afterwards written out |
| `SmpInvariant.ExitKeeps` | arceos/modules/axtask/src/run_queue.rs:355-368 | Marking the current task Exited: the invariant is kept, with the place and the stack user of each task afterwards written out |
| `SmpInvariant.JoinersDoneKeeps` | arceos/modules/axtask/src/task.rs:414-417 | Having woken all joiners: the invariant is kept, with the place and the stack user of each task afterwards written out |
| `SmpInvariant.PushExitedKeeps` | arceos/modules/axtask/src/run_queue.rs:373-377 | Entering the exited list: the invariant is kept, with the place and the stack user of each task afterwards written out |
| `SmpInvariant.GcNotWaitingKeeps` | arceos/modules/axtask/src/run_queue.rs:378-383 | Finding the GC task awake: the invariant is kept, with the place and the stack user of each task afterwards written out |
| `SmpInvariant.GcTakeKeeps` | arceos/modules/axtask/src/run_queue.rs:578-581 | The GC task takes an exited task: the invariant is kept, with the place and the stack user of each task afterwards written out |
| `SmpInvariant.GcReturnKeeps` | arceos/modules/axtask/src/run_queue.rs:586-590 | and puts it back while somebody else holds it: the invariant is kept, with the place and the stack user of each task afterwards written out |
| `SmpInvariant.GcDropKeeps` | arceos/modules/axtask/src/run_queue.rs:583-585 | or frees it: the invariant is kept, with the place and the stack user of each task afterwards written out |
| `SmpInvariant.SetAffinityKeeps` | arceos/modules/axtask/src/api.rs:158-168 | Changing the mask of the current task: the invariant is kept, with the place and the stack user of each task afterwards written out |
| `SmpInvariant.StartMigrationKeeps` | arceos/modules/axtask/src/run_queue.rs:304-315 | Handing the current task to a migration task: the invariant is kept, with the place and the stack user of each task afterwards written out |
| `SmpInvariant.MigrateEntryKeeps` | arceos/modules/axtask/src/run_queue.rs:605-611 | The migration task queues it on a CPU of its mask: the invariant is kept, with the place and the stack user of each task afterwards written out |
| `SmpInvariant.MigrationDoneKeeps` | arceos/modules/axtask/src/api.rs:169-183 | The migrated task runs again: the invariant is kept, with the place and the stack user of each task afterwards written out |
| `SmpInvariant.SpawnKeeps` | arceos/modules/axtask/src/api.rs:111-115 | Adding a new task, with any mask, to a queue of its mask: the invariant is kept, with the place and the stack user of each task afterwards written out |
| `SmpInvariant.TakeHandleKeeps` | arceos/modules/axtask/src/task.rs:511-513 | Taking a further reference to the current task: the invariant is kept, with the place and the stack user of each task afterwards written out |
| `SmpInvariant.DropHandleKeeps` | arceos/modules/axtask/src/api.rs:111-115 | Dropping a reference to a task: the invariant is kept, with the place and the stack user of each task afterwards written out |
| `SmpInvariant.MigratedIsOff` | arceos/modules/axtask/src/run_queue.rs:605-611 | When a migration task runs, the task it owns is not on any CPU any more |
| `SmpAffinity.MaskObeyed` | arceos/modules/axtask/src/api.rs:158-185 | In every run, from the actions in it: from the step in which a task asks for a mask, or is spawned with one, until it asks again, every CPU on which it is queued, picked or current is in that very mask, except while it is on its way out; it is on its way out right after the step if and only if the CPU it asked from is not in the mask |
| `SmpAffinity.MaskIsSet` | arceos/modules/axtask/src/api.rs:164-168 | Right after the step the mask asked for stands in the task; a spawned task is queued on a CPU of its mask |
| `SmpAffinity.OnlyMigrationSettles` | arceos/modules/axtask/src/run_queue.rs:304-315 | A task stops being on its way out only by handing itself to a migration task |
| `SmpAffinity.MigrationReturns` | arceos/modules/axtask/src/api.rs:169-183 | When the migrated task runs again, on whatever CPU, that CPU is in its mask and the call is over |
| `SmpAffinity.HandlesCounted` | arceos/modules/axtask/src/task.rs:511-513 | In every run the strong references held outside the scheduler are as many as were taken, at spawn or from the current task, less those dropped |
| `SmpCalls.YieldSwitches` | arceos/modules/axtask/src/run_queue.rs:285-352 | `yield` with another task in the queue: in seven steps that task executes and the one that yielded is Ready, off its stack and queued; nothing else changes |
| `SmpCalls.YieldStays` | arceos/modules/axtask/src/run_queue.rs:538-541 | or the one that yielded is picked again and goes on, with the queue as before |
| `SmpCalls.IdleGivesWay` | arceos/modules/axtask/src/run_queue.rs:506-572 | The idle task gives way to any queued task and is not queued |
| `SmpCalls.IdleTakesOver` | arceos/modules/axtask/src/run_queue.rs:511-514 | A CPU whose task has left switches to its idle task just if its queue is empty |
| `SmpCalls.SwitchCompletes` | arceos/modules/axtask/src/run_queue.rs:524-623 | `switch_to` and `clear_prev_task_on_cpu`: the next task executes on its stack, the previous one is off its own |
| `SmpCalls.NotifyQueues` | arceos/modules/axtask/src/wait_queue.rs:171-213 | A notified waiter that no CPU is still leaving is Ready, out of the wait queue and in the chosen run queue, and the CPU goes on where it was |
| `SmpCalls.ExitRetires` | arceos/modules/axtask/src/run_queue.rs:355-388 | A task without joiners that exits is Exited and in the exited list, and its CPU picks another |
| `SmpCalls.GcFreesUnheld` | arceos/modules/axtask/src/run_queue.rs:575-598 | The GC task frees an exited task just if nothing else refers to it, and otherwise puts it back |
| `SmpCalls.MigrationQueues` | arceos/modules/axtask/src/run_queue.rs:304-315 | A task on its way out ends up off its stack and queued on any chosen CPU of its mask |
| `SmpCalls.RunningTaskMay` | arceos/modules/axtask/src/api.rs:111-185 | What the code of a running task can do next: yield, block, notify, spawn, change its mask, exit, take and drop references |
| `RunQueueSelect.RunQueueIndex.Select` | arceos/modules/axtask/src/run_queue.rs:100-113 | For every non-empty mask and every schedule of increments by other CPUs, the round robin ends with the first of its own values that lies in the mask, fewer than two rounds after the interference ends, also when the 64-bit counter wraps; it outlasts the interference if and only if that makes all tries miss; an empty mask is the panic |
| `RunQueueSelect.EveryCpuIsProposed` | arceos/modules/axtask/src/run_queue.rs:106-112 | Within two rounds every CPU is proposed, across a wrap of the counter |
| `RunQueueSelect.StarvedIff` | arceos/modules/axtask/src/run_queue.rs:106-112 | For every mask, number of CPUs and counter value: other CPUs can make any number of tries miss if and only if the mask lacks a CPU; a full mask hits at once |
| `RunQueueSelect.KeptOn` | arceos/modules/axtask/src/run_queue.rs:106-112 | The schedule that does it: before each try fewer than two rounds of increments by others, after which the try proposes the missing CPU |
| `RunQueueSelect.TwoCpusStarve` | arceos/modules/axtask/src/run_queue.rs:106-112 | Two CPUs, mask {1}, counter 0: a CPU that takes every other value makes any number of tries miss |
| `RunQueueSelect.ProposedInOneRound` | arceos/modules/axtask/src/run_queue.rs:106-112 | Without a wrap one round proposes every CPU |
| `Mutex.MutualExclusion` | arceos/modules/axsync/src/mutex.rs:71-98 | In every interleaving, with spurious CAS failures, at most one task is between `lock` and `force_unlock`, and it is the owner |
| `Mutex.NoLostUpdate` | arceos/modules/axsync/src/mutex.rs:216-252 | The protected value is the sum of all increments stored, whatever the interleaving |
| `Mutex.NoDeadlock` | arceos/modules/axsync/src/mutex.rs:71-137 | Whenever a task sleeps in the wait queue of the mutex, some task already inside the protocol and not asleep can move |
| `Mutex.SleeperCanWake` | arceos/modules/axsync/src/mutex.rs:71-137 | From every reachable state every sleeper has a continuation in which it is popped and looks again, however many sleep before it: no state is beyond a wake-up |
| `Mutex.PopSoon` | arceos/modules/axtask/src/wait_queue.rs:171-179 | From every state of the invariant with sleepers the first one can be popped, and the others keep their order |
| `Mutex.OwnerAssertions` | arceos/modules/axsync/src/mutex.rs:80-92 | A task that failed to lock is not the owner, and a task that unlocks is: both assertions hold |
| `Mutex.KeepsExclusion` | arceos/modules/axsync/src/mutex.rs:71-137 | Every step keeps the owner word equal to the one task inside, which has seen the last stored value |
| `Mutex.KeepsQueue` | arceos/modules/axtask/src/wait_queue.rs:88-103 | Every step keeps the wait queue without duplicates, equal to the sleeping tasks, with one user at a time |
| `Mutex.KeepsWakeup` | arceos/modules/axtask/src/wait_queue.rs:171-179 | Every step keeps: if a task sleeps or is about to, the mutex is locked, or a task is before its notification, or a contender is awake |
| `Mutex.RunKeeps` | arceos/modules/axsync/src/mutex.rs:71-137 | All of this holds along every run |
| `Mutex.LockReturnsOwning` | arceos/modules/axsync/src/mutex.rs:71-98 | In every run a task that has called `lock` is still in it unless it has owned the mutex since |
| `Mutex.LockStep` | arceos/modules/axsync/src/mutex.rs:73-93 | In one step a task leaves `lock` only by owning the mutex, and wakes up only as the first of the queue |
| `Mutex.TryLockIff` | arceos/modules/axsync/src/mutex.rs:103-119 | `try_lock` takes a free mutex at once and changes nothing about a locked one |
| `Mutex.ContendedSleeps` | arceos/modules/axsync/src/mutex.rs:82-91 | A contended `lock` falls asleep at the end of the wait queue |
| `Mutex.WokenTakes` | arceos/modules/axsync/src/mutex.rs:73-93 | A woken task takes a mutex that is free |
| `Mutex.UnlockWakesFirst` | arceos/modules/axsync/src/mutex.rs:128-137 | `force_unlock` frees the mutex, wakes the first sleeper, keeps the order of the others and returns |
| `Mutex.InsideAdds` | arceos/modules/axsync/src/mutex.rs:216-252 | The task inside can add to the data |
| `Timers.StaleTicketNeverWakes` | arceos/modules/axtask/src/timers.rs:23-36 | On one CPU a timer event changes nobody but the blocked task that armed it for the call it is still in, after its deadline |
| `Timers.WaitTimeoutResult` | arceos/modules/axtask/src/wait_queue.rs:108-126 | `wait_timeout` returns false exactly when a notification took the waiter out of the queue, and true only after the deadline |
| `Timers.WaitTimeoutUntilLeaves` | arceos/modules/axtask/src/wait_queue.rs:147-161 | `wait_timeout_until` leaves its loop with true just when the deadline has passed, and with false only when the condition holds, out of the queue |
| `Timers.WaitTimeoutUntilResult` | arceos/modules/axtask/src/wait_queue.rs:162-165 | Whatever interrupts come between leaving the loop and `cancel_events`, it returns what it left the loop with, true only after the deadline, and leaves no queue entry and no live event behind |
| `Timers.SleeperIsHeld` | arceos/modules/axtask/src/timers.rs:38-44 | A task that does not run is ready, or blocked and held by its wait queue or the timer list; the timer list holds every blocked task with a deadline |
| `Timers.SleepIsLongEnough` | arceos/modules/axtask/src/run_queue.rs:423-435 | `sleep_until` comes back only after its deadline |
| `Timers.OverdueTasksAreAwake` | arceos/modules/axtask/src/timers.rs:46-60 | After `check_events` no task whose deadline has passed is blocked |
| `Timers.NothingLeftBehind` | arceos/modules/axtask/src/wait_queue.rs:54-74 | Outside the blocking calls a task is not blocked, in no queue, and no pending event has its ticket |
| `Timers.RequeuedOnce` | arceos/modules/axtask/src/wait_queue.rs:147-161 | A task that blocks again in `wait_timeout_until` is not in the queue yet, and its event is still to come |
| `Timers.NotifyTakesFirst` | arceos/modules/axtask/src/wait_queue.rs:171-179 | `notify_one` takes the first waiter, which is awake afterwards, and touches no other task |
| `Timers.StepKeeps` | arceos/modules/axtask/src/wait_queue.rs:54-213 | Every step keeps the invariant over tasks, events, tickets and queues |
| `Timers.RunKeeps` | arceos/modules/axtask/src/wait_queue.rs:54-213 | The invariant holds along every run |
| `Timers.TicketsKept` | arceos/modules/axtask/src/timers.rs:38-44 | No two events carry the same ticket |
| `Timers.TimeoutIsLongEnough` | arceos/modules/axtask/src/wait_queue.rs:108-165 | `wait_timeout(dur)` or `wait_timeout_until(dur)` called at time now0, whatever happens in between: the step with which the call returns has a result, and true comes no sooner than now0 + dur; `wait_timeout` returns true just if the task is still in the queue |
| `Timers.SleepsUntilDeadline` | arceos/modules/axtask/src/run_queue.rs:423-435 | `sleep_until(d)` called before d: the task does not run and cannot be picked before d |
| `Timers.SleepInThePast` | arceos/modules/axtask/src/run_queue.rs:430 | `sleep_until` with a time that has come changes nothing |
| `Timers.AwakeInTime` | arceos/modules/axtask/src/timers.rs:46-60 | When now0 + dur, or d, has come and the events that are due have been served, the task is awake |
| `Timers.EventIsArmed` | arceos/modules/axtask/src/timers.rs:38-44 | Before that time an event for just that time and with the ticket of the task is in the timer list |
| `Timers.WaitIsNotified` | arceos/modules/axtask/src/wait_queue.rs:78-81 | `wait` runs on only when a notify has taken it out of the queue |
| `Timers.UntilFindsCondition` | arceos/modules/axtask/src/wait_queue.rs:88-103 | `wait_until` returns only in a turn that finds its condition true, and out of the queue |
| `Timers.HowItReturns` | arceos/modules/axtask/src/wait_queue.rs:78-165 | The step with which each kind of call returns, and what it returns |
| `Timers.BlocksLast` | arceos/modules/axtask/src/run_queue.rs:395-420 | A task that blocks is the last of its wait queue |
| `Timers.TickServes` | arceos/modules/axtask/src/timers.rs:23-36 | An expired event is taken off the list, and the task of a live one is awake |
| `Timers.PickedRuns` | arceos/modules/axtask/src/run_queue.rs:506-572 | A picked task runs, and is back from `wait_timeout` or `sleep_until` |
| `Timers.WaitReturns` | arceos/modules/axtask/src/wait_queue.rs:78-103 | `wait` returns once it runs again, `wait_until` as soon as its condition is true |
| `Timers.CallBegins` | arceos/modules/axtask/src/wait_queue.rs:78-165 | A call that is begun is in progress, and a sleeper is blocked |
| `Join.JoinReturnsCodeIff` | arceos/modules/axtask/src/task.rs:157-161 | In every reachable state in which `join` is about to test: all ways it can go on return the exit code if and only if the code is 0 or is already stored; on several CPUs it may not be, because `Exited` is stored first |
| `Join.JoinInOneRun` | arceos/modules/axtask/src/task.rs:157-161 | In one run `join` returns the code if and only if the code is 0 or its store came before the load |
| `Join.JoinCanMissTheCode` | arceos/modules/axtask/src/run_queue.rs:368-371 | A run in which `join` on another CPU returns 0 for any exit code |
| `Join.JoinOnOneCpu` | arceos/modules/axtask/src/run_queue.rs:355-386 | On one CPU, where nothing comes between the mark and the store, `join` returns the code passed to `exit` |
| `Join.SleepingJoiner` | arceos/modules/axtask/src/task.rs:414-417 | A joiner that had to sleep is always woken and gets the code |
| `Strstr.Find` | arceos/ulib/axlibc/c/string.c:440-464 | For all C strings `strstr` ends, stays inside both and returns the first occurrence, or none |
| `Strstr.FindByte` | arceos/ulib/axlibc/c/string.c:198-207 | `strchr` finds the first character equal to the given `int`, the terminator included, and none exactly if there is none, whether `char` is signed or not |
| `Strstr.TwoBytes` | arceos/ulib/axlibc/c/string.c:290-297 | The two-byte window finds the first occurrence |
| `Strstr.ThreeBytes` | arceos/ulib/axlibc/c/string.c:299-307 | The three-byte window finds the first occurrence |
| `Strstr.FourBytes` | arceos/ulib/axlibc/c/string.c:309-317 | The four-byte window finds the first occurrence |
| `TwoWaySearch.Search` | arceos/ulib/axlibc/c/string.c:388-438 | The two-way search returns the first occurrence: no shift by last byte, by right half or by period skips one, and the remembered prefix is right |
| `TwoWaySearch.Factorize` | arceos/ulib/axlibc/c/string.c:332-386 | The position and period used by the search are a critical factorization |
| `TwoWaySearch.FillTables` | arceos/ulib/axlibc/c/string.c:327-330 | The byte set and shift tables, and the needle too long for the haystack |
| `TwoWaySearch.SkipByRightHalf` | arceos/ulib/axlibc/c/string.c:422-429 | A mismatch in the right half allows the shift that is made |
| `TwoWaySearch.SkipByPeriod` | arceos/ulib/axlibc/c/string.c:430-436 | A mismatch in the left half allows a shift by the period |
| `TwoWaySearch.SkipByMemory` | arceos/ulib/axlibc/c/string.c:408-415 | The shift that uses the remembered prefix skips no occurrence |
| `TwoWaySearch.SkipByLastByte` | arceos/ulib/axlibc/c/string.c:406-420 | The shift by the last byte of the window skips no occurrence |
| `MaximalSuffix.Compute` | arceos/ulib/axlibc/c/string.c:332-374 | Both passes compute the maximal suffix of the needle for the order or its reverse, and its least period |
| `Words.CriticalFactorization` | arceos/ulib/axlibc/c/string.c:375-378 | The later of the two maximal suffixes begins at a critical position: the least local repetition there is the period of the word |
| `Fmod.Fmod` | arceos/ulib/axlibc/c/math.c:377-447 | For all 64-bit patterns: NaN exactly for y zero or above infinity or x at or above infinity; otherwise a finite result with the sign of x whose magnitude is the exact integer remainder of the magnitudes in units of 2^-1074; x itself for infinite y |
| `Fmod.Normalize` | arceos/ulib/axlibc/c/math.c:401-417 | Both normalizations give a 53-bit significand of the same value, subnormals included |
| `Fmod.Reduce` | arceos/ulib/axlibc/c/math.c:419-434 | The shift-and-subtract loop keeps the significand below twice the divisor and computes the remainder |
| `Fmod.Encode` | arceos/ulib/axlibc/c/math.c:435-447 | Renormalizing and packing lose no bit: the final right shift drops only zeros |
| `Fmod.MagnitudeOrder` | arceos/ulib/axlibc/c/math.c:394-398 | Comparing patterns without sign compares values |
| `Calendar.SecsToTm` | arceos/ulib/axlibc/c/time.c:22-97 | For every 64-bit t: a date and time that exist, whose seconds since the Epoch are t, with the right weekday and day of the year; an error exactly for the times of years that, counted from 1900, do not fit an `int` |
| `Calendar.TimeUnique` | arceos/ulib/axlibc/c/time.c:22-97 | Two valid broken-down times with the same seconds are equal, so the result is the only one |
| `Calendar.FindMonth` | arceos/ulib/axlibc/c/time.c:76 | The month loop stays in its table |
| `Calendar.SplitDays` | arceos/ulib/axlibc/c/time.c:47-74 | The cycles of 400, 100, 4 and 1 years from March 2000 give the year, its leap flag and the day in it |
| `Calendar.YearStartClosed` | arceos/ulib/axlibc/src/mktime.rs:13-15 | The first day of a year, counted year by year with the leap rule, in closed form |
| `Calendar.MkTime` | arceos/ulib/axlibc/src/mktime.rs:19-58 | For any day, hour, minute and second `mktime` is the seconds since the Epoch of the (32-bit wrapped) year; the panic for a month outside the table is exact |
| `Calendar.LeapYear` | arceos/ulib/axlibc/src/mktime.rs:13-15 | The remainders towards zero decide the leap rule for negative years too |
| `Calendar.ThereAndBack` | arceos/ulib/axlibc/src/mktime.rs:19-58 | `mktime` of the fields of t is t if and only if the year itself fits an `int` |
| `Calendar.WrappingYearsAreAccepted` | arceos/ulib/axlibc/c/time.c:32-33 | Every time whose year does not fit an `int`, though its distance from 1900 does, is in the range that is accepted |
| `Calendar.NewYearIsLost` | arceos/ulib/axlibc/src/mktime.rs:19-22 | In each of these years January 1 is accepted, and its wrapped year is another time |
| `Strtol.Strtoll` | arceos/ulib/axlibc/c/stdlib.c:207-277 | For every C string and base: the mathematical value of the text clamped to the range, the error number, and the end index |
| `Strtol.Strtoull` | arceos/ulib/axlibc/c/stdlib.c:279-345 | The same for unsigned numbers: a negated value modulo 2^64, or the largest one on overflow |
| `Strtol.Accumulate` | arceos/ulib/axlibc/c/stdlib.c:242-265 | The loop ends after the longest run of digits, and the cutoff test detects overflow exactly |
| `Strtol.CutoffTest` | arceos/ulib/axlibc/c/stdlib.c:258 | Comparing with cutoff and cutlim is comparing the next value with the limit |
| `Strtol.ReadStart` | arceos/ulib/axlibc/c/stdlib.c:223-240 | White space, sign, prefix and default base |
| `StrtolTexts.ReadAsWritten` | arceos/ulib/axlibc/c/stdlib.c:223-265 | From the characters: blanks (9 to 13 and 32), an optional sign, `0x` for base 0 or 16, digits `0` to `9` and letters up to `z` of either case, and a character that is no digit of the base are read as the number the digits spell, with the end index behind them; in base 0 digits are hexadecimal behind `0x`, octal behind a zero, else decimal |
| `StrtolTexts.EveryStringIsText` | arceos/ulib/axlibc/c/stdlib.c:223-265 | Every C string is such a text, in every base |
| `PrintInteger.PrintInteger` | arceos/ulib/axlibc/c/printf.c:529-558 | The text printed, for every value, base, width, precision and set of flags |
| `PrintInteger.Finalize` | arceos/ulib/axlibc/c/printf.c:460-526 | Padding, prefix and sign in the reversed buffer |
| `PrintInteger.WriteDigits` | arceos/ulib/axlibc/c/printf.c:548-555 | The digits of the value, last one first, at most 32 |
| `PrintInteger.OutRev` | arceos/ulib/axlibc/c/printf.c:433-456 | The buffer reversed and justified |
| `PrintInteger.OutputGadget.PutChar` | arceos/ulib/axlibc/c/printf.c:325-341 | Every character is counted, those that fit are stored |
| `PrintInteger.OutputGadget.Terminate` | arceos/ulib/axlibc/c/printf.c:344-355 | The buffer becomes the longest fitting prefix and a zero |
| `Format.ReadFlags` | arceos/ulib/axlibc/c/printf.c:1047-1076 | The flags are the set of flag characters up to the first other one, in any order and number |
| `Format.Atou` | arceos/ulib/axlibc/c/printf.c:423-430 | The value of the digits modulo 2^32, and the index behind them |
| `Format.Read` | arceos/ulib/axlibc/c/printf.c:1099-1200 | From `%` to the specifier: flags, width and precision with `*`, length, and the early returns where the format ends |
| `Format.WellFormedDirective` | arceos/ulib/axlibc/c/printf.c:1099-1200 | Every directive of the grammar is read as it is written: flags in any order, decimal or `*` width (a negative one sets left justification) and precision (a negative one is 0), each length, and the specifier where it stands |
| `Format.SamePlace` | arceos/ulib/axlibc/c/printf.c:1099-1200 | Where a specifier is does not depend on the arguments |
| `Printf.FormatLoop` | arceos/ulib/axlibc/c/printf.c:1078-1406 | The loop ends, prints what the format asks for, and stays inside the format if and only if no directive runs into its end with flags or digits |
| `Printf.WellFormedFormat` | arceos/ulib/axlibc/c/printf.c:1078-1406 | For every format made of plain characters and directives of the grammar: the loop stays inside and prints what the pieces ask for, one after the other, each with the arguments the ones before it left |
| `Printf.UnfinishedDirective` | arceos/ulib/axlibc/c/printf.c:1400-1403 | `%5` at the end of a format: the final zero is echoed as a specifier and stepped over |
| `Printf.Vsnprintf` | arceos/ulib/axlibc/c/printf.c:1409-1434 | For every format that is complete in this sense and every list of arguments: the result is the length of the unbounded text, and a buffer of any size holds its longest fitting prefix and a zero |
| `Printf.PrintItem` | arceos/ulib/axlibc/c/printf.c:1204-1403 | Characters, strings with precision, null strings and pointers, integers and echoed characters in their fields |
| `Printf.PrintString` | arceos/ulib/axlibc/c/printf.c:1330-1360 | The conversion of a string stays inside an array of any length, with or without a zero in it, if and only if there is a zero or the array is longer than the precision, for a precision of 0 longer than INT_MAX; inside, it shows the bytes up to the zero or the precision in their field |
| `Printf.BoundedLength` | arceos/ulib/axlibc/c/printf.c:407-413 | `strnlen_s_` finds the lesser of the first zero and the bound, and leaves the array exactly if there is no zero and no byte at the bound |
| `Printf.PrecisionIsPassed` | arceos/ulib/axlibc/c/printf.c:1347-1350 | An array of one byte without a zero: the conversions with precision 1 and 0 read a second byte |
| `Printf.IntegersArePassed` | arceos/ulib/axlibc/c/printf.c:1204-1281 | Every integer conversion of every format and argument list gets a number and flags that meet the terms of the round trip: in range, no `#` for decimals, no zero flag beside a precision, no sign for unsigned ones |
| `Printf.PrintThenParse` | arceos/ulib/axlibc/c/printf.c:1409-1434 | A format that prints one integer: `strtoll` or `strtoull` reads the argument back from the text, except exactly in the cases of `Lossy` |
| `PrintStandard.StandardIff` | arceos/ulib/axlibc/c/printf.c:433-558 | For every base, value, width, precision and flags: the conversion prints the text that section 7.21.6.1 of ISO C11 asks for (sign, prefix, least number of digits, field of blanks or zeros) if and only if that text, blanks apart, fits 32 characters and is not a binary zero behind `0b`, or all it loses is a blank for the sign |
| `PrintfTexts.IntegerDirective` | arceos/ulib/axlibc/c/printf.c:1204-1308 | From the characters of a directive and its arguments: `d` and `i` show the argument wrapped around to the signed range of its length (`hh` 8, `h` 16, none 32, others 64 bits), `u o x X b` the argument modulo 2 to the bits in base 10, 8, 16, 16, 2, as the standard has it, if and only if the text is regular in the sense above |
| `PrintfTexts.OtherDirective` | arceos/ulib/axlibc/c/printf.c:1310-1403 | `c` shows the low byte, `s` the bytes up to the precision or `(null)`, with blanks on the left, or on the right with `-`; `p` shows `0x` and 16 digits or `(nil)`; `n` nothing, any other letter itself |
| `PrintfTexts.FormatPrints` | arceos/ulib/axlibc/c/printf.c:1078-1406 | Every well-formed format with regular directives prints its plain characters and what its directives show of the arguments in turn |
| `PrintfTexts.DirectiveReadBack` | arceos/ulib/axlibc/c/printf.c:1409-1434 | A format of one integer directive, in the base of its letter: the text reads back as the argument, wrapped around as above, if and only if what the directive spells loses nothing |
| `PrintParse.ConversionRoundTrip` | arceos/ulib/axlibc/c/printf.c:433-558 | For every base, value, width, precision and flags that reach a conversion (`%d %i %u %o %x %X %b` with and without `#`, and `%p`): the number read back is the value if and only if not `Lossy`, which looks at the request only: a negative decimal with 32 or more digits asked for (the sign is dropped), a prefixed hexadecimal with a precision of 31 (half of the prefix is dropped), a binary above 32 bits, or a prefixed binary below 2^31 with fewer than 32 digits asked for (it reads back as 0) |
| `PrintParse.SignedDecimalRoundTrip` | arceos/ulib/axlibc/c/printf.c:433-558 | Signed decimals come back, for all flags, widths and precisions, if and only if not (negative and 32 or more digits asked for) |
| `PrintParse.OctalRoundTrip` | arceos/ulib/axlibc/c/printf.c:482-513 | `%o` and `%#o` always come back, zero included |
| `PrintParse.HexRoundTrip` | arceos/ulib/axlibc/c/printf.c:489-513 | `%x`, `%#x`, zero included, and `%p`: exactly which come back |
| `PrintParse.BitsRoundTrip` | arceos/ulib/axlibc/c/printf.c:489-513 | `%b` and `%#b`: exactly which come back |
| `PrintParse.FieldWidth` | arceos/ulib/axlibc/c/printf.c:433-526 | A conversion prints at least as many characters as its width if and only if not more zeros are asked for than the buffer of 32 holds |
| `PrintParse.SignLost` | arceos/ulib/axlibc/c/printf.c:515-523 | -5 printed with 32 digits reads back as 5 |
| `PrintParse.HighDigitsLost` | arceos/ulib/axlibc/c/printf.c:548-555 | 2^32 printed in binary reads back as 0 |
| `PrintParse.BinaryPrefixLost` | arceos/ulib/axlibc/c/printf.c:505-512 | 5 printed with `%#b` reads back as 0 |
| `PrintParse.HexMarkAlone` | arceos/ulib/axlibc/c/printf.c:499-512 | 5 printed with `%#.31x` starts with a bare x and reads back as 0 |
| `PrintParse.DigitsValue` | arceos/ulib/axlibc/c/printf.c:548-555 | The buffered digits denote the value modulo base^32 |
| `AddrSpace.ProcessArea` | arceos/modules/axmm/src/aspace.rs:237-273 | The chunks tile the range in order, each within one page at the translated address; the error is exact: out of range, or a touched page is not mapped |
| `AddrSpace.Read` | arceos/modules/axmm/src/aspace.rs:280-284 | On success the buffer holds the bytes of the range |
| `AddrSpace.Write` | arceos/modules/axmm/src/aspace.rs:292-296 | On success, if no two pages share a frame, the range holds the bytes; no byte outside the range changes, on failure either |
| `AddrSpace.ReadBack` | arceos/modules/axmm/src/aspace.rs:280-296 | Reading what was written gives the same bytes |
| `AddrSpace.Clone` | arceos/modules/axmm/src/aspace.rs:347-398 | On success every area is byte-equal in parent and child; the parent never changes; success is decided exactly by what the grown bounce buffer reads |
| `AddrSpace.CloneCanFail` | arceos/modules/axmm/src/aspace.rs:375-378 | Two mapped areas for which cloning fails, because bytes past the second one are read |
| `AddrSpace.CloneReadsTwoPages` | arceos/modules/axmm/src/aspace.rs:375-378 | Behind an area of between one and two pages, cloning an area below two pages succeeds exactly if two pages are mapped there |
| `AddrSpace.GrowingAreasClone` | arceos/modules/axmm/src/aspace.rs:375-378 | If each area is at least as large as the buffer so far, cloning succeeds exactly when all areas are mapped |
| `AddrSpace.CloneThenUse` | arceos/modules/axmm/src/aspace.rs:347-398 | A clone and then any sequence of writes of parent and child: every byte of the child is what the parent had at the moment of the clone, except where the child wrote, and every byte of the parent is what it was, except where the parent wrote |
| `AddrSpace.UseBoth` | arceos/modules/axmm/src/aspace.rs:292-296 | Any sequence of writes through two spaces without a common frame, failing ones included: a byte of either changes only if a write through that space reaches it |
| `AddrSpace.PrivateStep` | arceos/modules/axmm/src/aspace.rs:292-296 | One more write, through either space, keeps this |
| `Pipe.EveryRun` | arceos/api/arceos_posix_api/src/imp/pipe.rs:109-161 | Every run of any number of `read` and `write` calls, interleaved turn by turn: the bytes read in lock order and those in the pipe are the bytes written in lock order; each call has exactly its own; a `write` ends complete; a `read` ends complete, or when the write end is closed and every byte written has been read |
| `Pipe.StepKeeps` | arceos/api/arceos_posix_api/src/imp/pipe.rs:109-161 | Every action keeps the invariant over contents, logs and calls |
| `Pipe.MetRequestWaits` | arceos/api/arceos_posix_api/src/imp/pipe.rs:116-135 | A `read` that has got all it asked for does not return as long as no byte is written and the write end is open, whatever else happens |
| `Pipe.FilledPipeWaits` | arceos/api/arceos_posix_api/src/imp/pipe.rs:144-160 | A `write` that has filled the pipe exactly does not return as long as no byte is read |
| `Pipe.CompleteReturnsIff` | arceos/api/arceos_posix_api/src/imp/pipe.rs:116-160 | After every run, a call that has all its bytes and has not returned returns in its next turn if and only if it then finds a byte or the closed end, for a `write` some room |
| `Pipe.CloseEndsReads` | arceos/api/arceos_posix_api/src/imp/pipe.rs:116-135 | Once nobody writes, the write end can be closed, and a `read` that finds the pipe empty returns what it has |
| `Pipe.OneByteForOne` | arceos/api/arceos_posix_api/src/imp/pipe.rs:116-135 | One byte written and a call that wants one byte: it has the byte and is still in its loop |
| `Pipe.ReadTurn` | arceos/api/arceos_posix_api/src/imp/pipe.rs:116-135 | One locked turn of `read`: bytes move in order; it returns if and only if the pipe is empty and closed, or holds more bytes than are wanted |
| `Pipe.WriteTurn` | arceos/api/arceos_posix_api/src/imp/pipe.rs:144-160 | One locked turn of `write`: bytes are appended in order; it returns if and only if there is more room than needed |
| `Pipe.RingBuffer.WriteByte` | arceos/api/arceos_posix_api/src/imp/pipe.rs:37-44 | Appends a byte; in a full ring the byte replaces everything |
| `Pipe.RingBuffer.ReadByte` | arceos/api/arceos_posix_api/src/imp/pipe.rs:46-54 | Removes the oldest byte; an empty ring hands out a stale byte and then counts 255 |
| `Pipe.RingBuffer.AvailableWrite` | arceos/api/arceos_posix_api/src/imp/pipe.rs:57-75 | Room and contents add up to 256 |
| `MemCopy.Memmove` | arceos/ulib/axlibc/c/string.c:245-262 | For every overlap, anywhere in the 64-bit address space, the destination gets the old source bytes, and nothing else changes |
| `MemCopy.OverlapTest` | arceos/ulib/axlibc/c/string.c:252 | The wrapping unsigned comparison holds exactly for disjoint ranges |
| `MemCopy.Memset` | arceos/ulib/axlibc/c/string.c:46-83 | Exactly the n bytes are set, for every alignment |
| `MemCopy.Memcpy` | arceos/ulib/axlibc/c/string.c:237-243 | Copies disjoint ranges |
| `Disk.Disk.Read` | arceos/modules/axfs/src/fs/fatfs.rs:221-235 | Reads a contiguous range of the flat device, or its part before the first failing block |
| `Disk.Disk.Write` | arceos/modules/axfs/src/fs/fatfs.rs:239-252 | Writes a contiguous range and changes no other byte, or the part before the first block that fails on reading or on writing |
| `Disk.Disk.ReadOne` | arceos/modules/axfs/src/dev.rs:40-67 | Transfers what is left of the block; the position advances by the count; an error moves nothing |
| `Disk.Disk.WriteOne` | arceos/modules/axfs/src/dev.rs:70-94 | The same for writing; neighbouring bytes of the block are kept; fails exactly if the block cannot be written, or is written in part and cannot be read |
| `Disk.Disk.SetPosition` | arceos/modules/axfs/src/dev.rs:34-37 | Block and offset represent the position |
| `Hardlinks.LinkManager.LinkUpdate` | arceos/api/arceos_posix_api/src/imp/path_link.rs:246-255 | Links a source to a target; counts stay equal to the numbers of sources; an old target is removed exactly when it loses its last source and can be removed |
| `Hardlinks.LinkManager.LinkRemove` | arceos/api/arceos_posix_api/src/imp/path_link.rs:259-263 | Removes a link; its target is removed exactly when it was the last and can be removed |
| `Hardlinks.LinkManager.RemoveLink` | arceos/api/arceos_posix_api/src/imp/path_link.rs:214-221 | Removes a link, or a file that is none, and says which |
| `Hardlinks.LinkManager.DecreaseRefCount` | arceos/api/arceos_posix_api/src/imp/path_link.rs:268-284 | The count follows the sources, no zero entry stays, and the result is none exactly when the last source goes and the file cannot be removed |
| `Hardlinks.LinkManager.CreateLink` | arceos/api/arceos_posix_api/src/imp/path_link.rs:197-209 | Errors as coded: the target must exist and be a directory path |
| `Hardlinks.LinkManager.LinkCount` | arceos/api/arceos_posix_api/src/imp/path_link.rs:232-239 | The count of a target is the number of its sources |
| `Children.Process.Wait4Turn` | src/syscall_imp/task/thread.rs:141-168 | ECHILD means no matching child, 0 under WNOHANG means all listed children run, a pid means that child was listed and is reaped, with a status word that has the low byte of the exit code seen in its second byte and zeros below; a turn waits, WNOHANG or not, if and only if a child is asked for by its id and has not exited |
| `Children.StatusWord` | src/task.rs:288-308 | The status word of an exit code: a 32-bit signed number congruent to 256 times the code, so a caller gets the low byte of the code back from the second byte |
| `Children.Process.WaitPid` | src/task.rs:266-327 | The child removed is the one reported, the first exited one or the one asked for; no child is reaped twice; the code reported for an exited child is its exit code if and only if that is stored already or is 0; it waits if and only if the child asked for has not exited |
| `Children.Process.Clone` | src/task.rs:121-123 | Every cloned child is listed or reaped, never both |

## Left out

- Weak memory orders, the inside of spin locks, context-switch assembly, trap entry and boot of single CPUs: the scheduler starts with all CPUs up, and lock sections are atomic.
- The order of ready queues and wait queues on several CPUs: queues are multisets there; first-in first-out order is modelled for the mutex and on one CPU.
- Time slices, priorities and the preemption counter: preemption may happen wherever a task runs.
- Timers on several CPUs, where the ticket test and the wake-up are separate steps.
- The exit of `main`, which powers the machine off, is not a step of the model.
- `set_cpumask` called directly on a task that is already spawned, which moves no task.
- The wrap of the 64-bit timer ticket and of the printf position counter.
- `notify_task` on one CPU, which takes a given waiter out of the middle of its queue: in `Timers` a notify takes the first. In `SmpKernel` a notify takes any waiter.
- A notify from an interrupt that comes while a CPU runs its idle task: in `SmpKernel` only tasks other than the idle one notify.
- MaximalSuffix.Compute: the initial position SIZE_MAX is -1 here, which the code reaches by wrapping.
- TwoWaySearch.FillTables: the packed bit set is 256 booleans.
- PrintParse.SignedDecimalRoundTrip: the magnitude of the least 64-bit number is 2^63, what two's complement negation gives; ISO C leaves that negation undefined.
- Strtol.Strtoll: after a hexadecimal prefix without digits the end index is the start of the text, as coded, not after the zero as section 7.22.1.4 of ISO C11 has it.
- PrintfTexts.FormatPrints: a negative precision argument counts as 0, as coded; ISO C takes it as omitted. `p` with a precision or a sign flag is not covered.
- Children.StatusWord: a null pointer for the status, for which nothing is stored, is not modelled.
- Printf.Vsnprintf: what `%n` stores, the inside of floating-point conversions and buffers above INT_MAX bytes are not modelled; missing arguments, undefined in C, read as zero or empty; after leaving an incomplete format nothing is claimed.
- Calendar.MkTime: the 32-bit addition of the year wraps, as in release builds; debug builds panic.
- AddrSpace.Clone: the growth of the bounce buffer is the doubling of the standard vector; mapping failures for lack of memory, lazily mapped and linear areas are not modelled.
- MemCopy.Memmove: moves fewer than 2^63 bytes, as objects in C are smaller.
- Pipe.EveryRun: the retry loops have no bound, so that a call returns at all is not claimed.
- Children.Process.Wait4Turn: the same holds for the retry loop of `wait4`.
- Children.Process.WaitPid: a child that is asked for and still runs is waited for by `join`, whose result is a parameter; Join says what it can be. For a child that has exited, the test of its state and the load of its exit code are one step, though the child may store the code between them.
- Hardlinks.LinkManager.CreateLink: the test for existence and the update are one step, though the source tests before it takes its lock.
- `inet_pton`, `strcspn`, `strtod`, floating-point printf, `log`, `floor`, `ceil`: rounding, or too simple.
- Sockets, file systems, mount lookup, ELF loading, memory mapping calls, user time accounting: thin or dominated by input and output.
