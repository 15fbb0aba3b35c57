# libcopp core, modelled in Dafny

libcopp is a C++ coroutine library. Its core, as modelled here, is made of these parts:

- **Task layer (libcotask).** A `task` is a coroutine with a status machine that runs
  CREATED → RUNNING → WAITING → DONE / CANCELED / KILLED / TIMEOUT. Tasks carry queues of
  successor tasks. A `task_manager` indexes the tasks by id and kills the ones whose timeout
  checkpoint has passed on `tick`.
- **Coroutine contexts (libcopp).** A context lives at the top of its stack, with a status
  and a set of flags. `create` validates the layout, and `start`/`resume`/`yield` move the
  status. A coroutine manager keys the contexts by integers drawn from a counter.
- **Stacks.** Page-rounded sizes come from the platform traits. A fixed-buffer allocator hands
  out the buffer once, and a stack pool caches freed stacks under limits on count and size.
- **Futures and C++20 promises.** `poll`/`storage` hold a ready value or nothing. `future`
  polls a context. Promise status and flags, caller lists, generator and callable futures, and
  the `some`/`any`/`all` waiting algorithm are modelled here too.
- **Utilities.** These are:
  - the intrusive pointer, with reference-count release;
  - the sequential `atomic_int_type` specialisation;
  - `gsl::span`;
  - the time-and-sequence id allocators.
- **Test-framework text processing.** These are:
  - the command-line option parser: segmenting, binding and dispatching commands, help
    listing;
  - its value conversions, the case-insensitive string traits, and the ready-made actions;
  - the string utilities: `str2int`, hex/octal escapes, `dumphex`;
  - the terminal style encoder;
  - the test manager: event ordering by topological sort, case filtering, the pass/fail
    result.
- **Build tooling.** `print_color.py` has terminal (SGR), HTML, plain and Win32-console back
  ends and environment-driven mode selection. The PHP generators write template-parameter
  lists.

There is one Dafny module per source file. The modules are:

- `Tasks`, `TaskImpl`, `TaskManagers`;
- `CoroutineContext`, `CoroutineContextBase`, `CoroutineContextH`,
  `CoroutineContextContainer`, `CoroutineManager`, `StandardIntKeyAllocator`;
- `StackTraitsPosix`, `StackTraitsWindows`, `StackAllocatorMemory`, `StackPool`;
- `FutureStorage`, `FuturePoll`, `Futures`, `StdCoroutine`, `GeneratorPromise`, `Callables`,
  `SomeAlgorithm`;
- `IntrusivePtr`, `AtomicInt`, `Gsl`, `IdAllocator`;
- `CmdSegment`, `CmdOption`, `CmdList`, `CmdOptionValue`, `CmdString`, `CmdPhoenix`;
- `StringOprs`, `ShellFont`, `TestManager`, `PrintColor`, `TemplateParams`.

These shared modules support them:

- `SizeArith`: `size_t` arithmetic and powers of two;
- `CoppErrors`: the error codes;
- `Optional`: Option and Result values;
- `StackContexts`;
- `Text`: join, split, lower and upper;
- `CString`.

Objects whose fields the source updates in place are classes. Values, and the functions
that compute on them, are datatypes and functions. Each loop of the source is a method,
proved against a specification function.

Several headers exist in two copies that the model maps to the same members:

- `include/libcopp/utils/std/intrusive_ptr.h` repeats `include/libcopp/utils/intrusive_ptr.h`;
- `test/frame/shell_font.cpp` repeats `test/cli/shell_font.cpp`;
- `include/libcopp/future/poller.h` repeats `include/libcopp/future/poll.h`.

The platform context switch (`jump_to`), system calls, clocks, the environment and all
output are parameters or recorded outcomes:

- a coroutine body's effect is an outcome parameter: yielded or finished;
- a clock is a sequence of readings;
- the environment of `print_color.py` is an `Env` value;
- written text is appended to an output object.

## Model

| member | source | states |
|---|---|---|
| TaskImpl.StatusValue | include/libcotask/impl/task_impl.h:28-37 | each status has a value from 0 to 7, and only INVALID has the value 0 |
| TaskImpl.StatusValueInjective | include/libcotask/impl/task_impl.h:28-37 | two statuses have the same value exactly when they are the same status, so any two distinct statuses are ordered one way or the other |
| TaskImpl.StatusOrder | include/libcotask/impl/task_impl.h:28-37 | the order is INVALID < CREATED < RUNNING < WAITING < DONE < CANCELED < KILLED < TIMEOUT |
| TaskImpl.StatusPredicates | src/libcotask/impl/task_impl.cpp:41-49 | the exiting statuses are exactly DONE, CANCELED, KILLED and TIMEOUT; `is_completed` equals `is_exiting`; the faulted statuses are exactly KILLED and TIMEOUT; faulted implies exiting; canceled is exiting but not faulted; timed out implies faulted |
| TaskImpl.DestructibleStatusExcludesLive | src/libcotask/impl/task_impl.cpp:32-33 | the destructor's assertion holds exactly when the task is neither RUNNING nor WAITING |
| TaskImpl.FlagCotaskIsUserFlag | src/libcotask/impl/task_impl.cpp:59 | the task flag is non-zero and lies outside the mask of flags reserved by the coroutine context |
| TaskImpl.ThisTask | src/libcotask/impl/task_impl.cpp:53-64 | a task is found exactly when a coroutine is running and carries the task flag; the task found is the pointer stored at the head of the coroutine's private buffer |
| Tasks.Decide | include/libcotask/task.h:735-751 | a successor that is null or INVALID gets no call; otherwise it gets exactly one call carrying its `priv_data`, and the call is a start exactly when its status is below RUNNING |
| Tasks.DispatchPlanAppend | include/libcotask/task.h:734-752 | the queue is visited in insertion order: the calls for a queue are the calls for its front followed by those for its back |
| Tasks.DispatchPlanSound | include/libcotask/task.h:734-752 | every planned call comes from a queue entry with the same task and data, never targets an INVALID task, and is a start exactly when the task is below RUNNING |
| Tasks.DispatchPlanComplete | include/libcotask/task.h:734-752 | a queue of live successors gets exactly one call per entry |
| Tasks.StartRefusalByCurrent | include/libcotask/task.h:501-515 | unless the expected status is itself exiting or RUNNING, the compare-and-set loop succeeds exactly when the task is neither exiting nor RUNNING, and otherwise returns ALREADY_FINISHED or IS_RUNNING accordingly |
| Tasks.SettledStatusIsRestful | include/libcotask/task.h:530-561 | after a run the task is WAITING or exiting, it is exiting whenever the coroutine finished, and an exiting status left by the body is kept |
| Tasks.StackTooSmallWithoutWrap | include/libcotask/task.h:100-105 | when the sum does not overflow `size_t`, the size check refuses exactly the stacks no larger than the task pointer, private buffer, action and task sizes together |
| Tasks.DriveToCompletion | include/libcotask/task.h:791-803 | the coroutine ends up finished; an unfinished one ends EXITED with the given runner code, and a finished one is left as it was |
| Tasks.Task.constructor | include/libcotask/task.h:64-75 | a new task is CREATED, has no references and nothing queued, and keeps its id, stack size and coroutine |
| Tasks.Task.CasStatus | src/libcotask/impl/task_impl.cpp:70-76 | succeeds and stores the desired status exactly when the current status is the expected one; either way reports the status it found |
| Tasks.Task.AcquireRunning | include/libcotask/task.h:501-515 | the loop's outcome is the refusal function of the expected and current statuses; a refusal changes nothing, otherwise the task becomes RUNNING |
| Tasks.Task.MarkDone | include/libcotask/task.h:530-536 | after a finished run the status becomes DONE unless it is already exiting |
| Tasks.Task.ParkWaiting | include/libcotask/task.h:547-561 | after an unfinished run the status becomes WAITING, unless it is already exiting, which is reported |
| Tasks.Task.CasToCanceled | include/libcotask/task.h:602-612 | refuses exactly when the task is RUNNING; otherwise the status becomes CANCELED |
| Tasks.Task.ForceStatus | include/libcotask/task.h:634-640 | installs the new status whatever the old one was, and reports the old one |
| Tasks.Task.NotifyAction | src/libcotask/impl/task_impl.cpp:81-99 | records `priv_data` as the finish data, the action receives one more notification with that data, and the result is 0 |
| Tasks.Task.ActiveNextTasks | include/libcotask/task.h:716-772 | both queues end empty; the calls made are the dispatch plan of the old successor queue, and the handles resumed are the live handles of the old handle list |
| Tasks.Task.NotifyFinished | include/libcotask/task.h:786-814 | the coroutine ends finished (an unfinished one EXITED with the final code); the action is notified once with `priv_data`; the successors are dispatched; the status and reference count do not change |
| Tasks.Task.Start | include/libcotask/task.h:495-564 | NOT_INITED without a coroutine; the loop's refusal changes nothing; otherwise the result is SUCCESS or NOT_READY by whether the coroutine was ready, and the status settles to DONE, WAITING or the exiting status the body left; a notification (with `priv_data` when finished, the recorded data when killed inside) happens exactly when the task ends up exiting, and then the queue is emptied and the coroutine finished |
| Tasks.Task.RunAcquired | include/libcotask/task.h:517-563 | from RUNNING: the same settling and notification as `start` after its compare-and-set loop |
| Tasks.Task.Resume | include/libcotask/task.h:575-577 | the same refusals as `start`; once it runs, the task ends WAITING or exiting |
| Tasks.Task.Yield | include/libcotask/task.h:580-586 | NOT_INITED without a coroutine; from outside the body, NOT_RUNNING for a ready coroutine and ALREADY_EXIST for a finished one, with the coroutine unchanged |
| Tasks.Task.Cancel | include/libcotask/task.h:599-620 | IS_RUNNING and no change for a running task; otherwise SUCCESS, status CANCELED, one notification with `priv_data`, the queue dispatched in order and the coroutine finished |
| Tasks.Task.Kill | include/libcotask/task.h:632-653 | always SUCCESS with the new status installed; a task that was not running is notified with `priv_data` and its queue dispatched; a running one only records `priv_data` |
| Tasks.Task.Next | include/libcotask/task.h:250-274 | a null successor or the task itself returns this task and changes nothing; behind an exiting or completed task a CREATED successor is started and a WAITING one resumed at once; otherwise the successor is appended to the queue; a valid successor is returned |
| Tasks.Task.Then | include/libcotask/task.h:409 | the same as `next`: refusal returns this task, otherwise the successor is returned and queued behind a live task |
| Tasks.Task.ThenFunctorAsWritten | include/libcotask/task.h:420-427 | without a coroutine the created task is chained but control falls through to read the null coroutine's allocator; with a coroutine the created task is chained and returned |
| Tasks.Task.ThenFunctor | include/libcotask/task.h:429-437 | the created task is always chained and returned (this task when it is null or the task itself) |
| Tasks.ThenFunctorOnTaskWithoutCoroutine | include/libcotask/task.h:420-427 | on a task without a coroutine the as-written overload reaches the null read while the corrected one chains the new task |
| Tasks.Task.AwaitTask | include/libcotask/task.h:357-382 | checks in order: ARGS_ERROR for null, CAN_NOT_WAIT_SELF for itself, TASK_IS_EXITING when the awaited or the awaiting task is exiting, NOT_IN_ACTION outside its own coroutine; registration behind the awaited task happens exactly when every check passes |
| Tasks.Task.GetRetCode | include/libcotask/task.h:477-483 | 0 without a coroutine, otherwise the runner's return code |
| Tasks.Task.GetPrivateBufferSize | include/libcotask/task.h:692-698 | 0 without a coroutine; otherwise the coroutine's private buffer less the task pointer, when that does not wrap |
| Tasks.Task.AwaitSuspend | include/libcotask/task.h:911-915 | the handle is appended to the waiting handles under a fresh position, which is returned |
| Tasks.Task.AwaitResume | include/libcotask/task.h:917-929 | the awaiting entry, if any, is erased, and the task's return code is returned |
| Tasks.PlanFor | include/libcotask/task.h:734-752 | the loop makes exactly the dispatch plan of the queue |
| Tasks.ResumeHandles | include/libcotask/task.h:759-771 | the loop resumes exactly the live handles, in order |
| Tasks.LiveHandles | include/libcotask/task.h:759-771 | every resumed handle is non-null and not done, and every non-null handle not done is resumed |
| Tasks.WithoutSlot | include/libcotask/task.h:919-920 | exactly the entries at other positions remain |
| Tasks.AddRef | include/libcotask/task.h:817-823 | one more reference, in `size_t` |
| Tasks.Release | include/libcotask/task.h:825-845 | one reference less, in `size_t`; the last one destroys the task, and a started but unfinished task is first killed with TIMEOUT, so the destructor's assertion holds; otherwise the status is unchanged |
| Tasks.CreateWithDelegate | include/libcotask/task.h:96-148 | no task exactly when the stack (the default for 0) is too small or the coroutine could not be created; otherwise a fresh CREATED task with one reference, bound to the coroutine, which carries the task flag and is READY |
| Tasks.ThisTaskFindsCreatedTask | include/libcotask/task.h:122-124 | inside the coroutine of a created task, `this_task` finds that task |
| TaskManagers.TickOrder | include/libcotask/task_manager.h:47-70 | `tickspec_t` comparison is a strict total order (irreflexive, transitive, total); `<=` is `<` or `==` and is the negation of the reversed `<` |
| TaskManagers.NodeOrder | include/libcotask/task_manager.h:79-102 | `task_timer_node` ordering by (expiry, task id) is a strict total order |
| TaskManagers.Insert | include/libcotask/task_manager.h:788 | inserting a new checkpoint into the ordered set keeps it ordered, adds exactly that element and grows it by one |
| TaskManagers.Erase | include/libcotask/task_manager.h:796 | erasing keeps the set ordered and removes exactly that element; erasing an absent element changes nothing |
| TaskManagers.SortedTail | include/libcotask/task_manager.h:697 | the first element of an ordered set is below all others, and the rest is ordered |
| TaskManagers.EraseFirst | include/libcotask/task_manager.h:697-713 | erasing the first checkpoint of an ordered set leaves its tail |
| TaskManagers.DropExpired | include/libcotask/task_manager.h:688-701 | what `tick` leaves of the checkpoint set is a suffix of it |
| TaskManagers.DropExpiredKeepsLive | include/libcotask/task_manager.h:688-701 | on an ordered set, `tick` keeps exactly the checkpoints that expire at or after now |
| TaskManagers.IdsOfDistinct | include/libcotask/task_manager.h:772-799 | checkpoints naming distinct tasks name as many tasks as there are checkpoints |
| TaskManagers.ObjectsOfSubtable | include/libcotask/task_manager.h:153 | a sub-table holds only tasks and coroutines of the table |
| TaskManagers.CheckpointsPerTask | include/libcotask/task_manager.h:772-799 | there are never more checkpoints than tasks |
| TaskManagers.DistinctTaskIds | include/libcotask/task_manager.h:772-799 | no two checkpoints name the same task, and every checkpoint names a managed task |
| TaskManagers.TaskManager.constructor | include/libcotask/task_manager.h:189-192 | a new manager has no tasks, no checkpoints, the clock at (0, 0) and no flags |
| TaskManagers.TaskManager.CheckpointCount | include/libcotask/task_manager.h:743 | the number of checkpoints, never more than the number of tasks |
| TaskManagers.TaskManager.TaskCount | include/libcotask/task_manager.h:749 | the number of tasks in the table |
| TaskManagers.TaskManager.FindTask | include/libcotask/task_manager.h:418-432 | nothing during a reset; otherwise a task exactly when the id is in the table, and then the task filed under it |
| TaskManagers.TaskManager.RemoveTimeoutTimer | include/libcotask/task_manager.h:794-799 | the entry's checkpoint, if any, leaves the set and the entry forgets it; nothing else changes |
| TaskManagers.TaskManager.SetTimeoutTimer | include/libcotask/task_manager.h:772-792 | the entry's checkpoint becomes the one `set_timeout_timer` computes: none for a timeout of zero or less in both fields, otherwise last tick time plus the timeout; nothing else changes |
| TaskManagers.TaskManager.ReplaceTimer | include/libcotask/task_manager.h:773-791 | the old checkpoint of the entry is dropped and the new one takes its place |
| TaskManagers.TaskManager.InsertTimer | include/libcotask/task_manager.h:783-791 | a new checkpoint enters the ordered set and the entry records it |
| TaskManagers.TaskManager.AddTask | include/libcotask/task_manager.h:251-304 | ARGS_ERROR for null, IN_RESET during a reset, TASK_IS_EXITING for an exiting task, ALREADY_EXIST for a known id; every error changes nothing; success exactly otherwise, filing the task under its id with the checkpoint the timeout gives and leaving other entries alone |
| TaskManagers.TaskManager.NoCheckpointFor | include/libcotask/task_manager.h:772-799 | an id without a task has no checkpoint |
| TaskManagers.TaskManager.AddTaskWithoutTimeout | include/libcotask/task_manager.h:314 | success under the same conditions as `add_task`, filing the task without a checkpoint |
| TaskManagers.TaskManager.SetTimeout | include/libcotask/task_manager.h:330-348 | IN_RESET during a reset, NOT_FOUND for an unknown id, both changing nothing; otherwise the entry keeps its task and gets the checkpoint of the new timeout |
| TaskManagers.TaskManager.Detach | include/libcotask/task_manager.h:383-395 | the entry and its checkpoint leave the manager, and its task is returned |
| TaskManagers.TaskManager.KillDetached | include/libcotask/task_manager.h:404-405 | a task already out of the table is killed with the given status |
| TaskManagers.TaskManager.RemoveTask | include/libcotask/task_manager.h:371-411 | IN_RESET during a reset; NOT_FOUND for an unknown id or a mismatching confirmation, changing nothing; otherwise the entry and its checkpoint go, a started but unfinished task is killed with KILLED, any other keeps its status; remaining entries and their statuses are untouched |
| TaskManagers.TaskManager.Start | include/libcotask/task_manager.h:447-483 | IN_RESET or NOT_FOUND change nothing; otherwise the task's own `start` result (expecting CREATED) is returned, and the entry stays exactly when the task is not exiting afterwards |
| TaskManagers.TaskManager.Resume | include/libcotask/task_manager.h:495-531 | as `start`, expecting WAITING |
| TaskManagers.TaskManager.Run | include/libcotask/task_manager.h:447-483 | the body shared by `start` and `resume`: the task's result, and the entry removed exactly when the task ends up exiting |
| TaskManagers.TaskManager.Cancel | include/libcotask/task_manager.h:543-581 | IN_RESET or NOT_FOUND change nothing; otherwise the entry leaves the table and the task's `cancel` decides: IS_RUNNING for a running task, else SUCCESS and CANCELED |
| TaskManagers.TaskManager.Kill | include/libcotask/task_manager.h:593-631 | IN_RESET or NOT_FOUND change nothing; otherwise the entry leaves the table, the task gets the given status and the result is SUCCESS |
| TaskManagers.TaskManager.KillWithKilled | include/libcotask/task_manager.h:633 | `kill` with KILLED |
| TaskManagers.TaskManager.Reset | include/libcotask/task_manager.h:199-230 | nothing during a reset; otherwise the table and checkpoints are emptied, flags and clock cleared, and every task not already exiting is killed with KILLED, its successors' calls returned as a plan |
| TaskManagers.TaskManager.ExpireFirst | include/libcotask/task_manager.h:697-728 | one loop round: the first checkpoint leaves the set, its task leaves the table and is killed with TIMEOUT unless exiting; the calls to its successors are returned as a plan, so until that plan runs the statuses of other tasks are unchanged |
| TaskManagers.TaskManager.ExpireDue | include/libcotask/task_manager.h:688-729 | the tick loop removes exactly the checkpoints that have passed and the entries they name, leaves all other entries untouched, and times out exactly the removed tasks that were not exiting, the successors' calls of every kill returned as one plan |
| TaskManagers.TaskManager.ExpireStep | include/libcotask/task_manager.h:697-728 | one loop round keeps the loop invariant, one checkpoint further |
| TaskManagers.TaskManager.ShiftCheckpoints | include/libcotask/task_manager.h:670-679 | the corrected first tick moves every checkpoint, in the set and in the entries, forward by the tick time |
| TaskManagers.TaskManager.SetLastTick | include/libcotask/task_manager.h:731 | the clock becomes now and no task status changes |
| TaskManagers.TaskManager.HoldTick | include/libcotask/task_manager.h:170-176 | the guard sets the IN_TICK bit, which the caller found clear, and leaves IN_RESET as it was |
| TaskManagers.TaskManager.ReleaseTick | include/libcotask/task_manager.h:178-182 | the guard's destructor clears exactly the bit it set, restoring the flags |
| TaskManagers.TaskManager.TickAsWritten | include/libcotask/task_manager.h:643-737 | a time not after the last tick, or a recursive tick, changes nothing and returns 0 or SUCCESS; IN_RESET exactly when the tick proceeds during a reset; otherwise the clock becomes now; the first tick leaves tasks and checkpoints as they were; a later tick removes exactly the expired checkpoints and entries, timing out their live tasks; flags are restored |
| TaskManagers.TaskManager.Guarded | include/libcotask/task_manager.h:654-736 | under the guard: IN_RESET changes nothing; otherwise the clock moves to now and, on the first tick, checkpoints stay (as written) or move forward (corrected), on a later tick the expired ones go |
| TaskManagers.TaskManager.AdvanceBy | include/libcotask/task_manager.h:663-731 | the as-written or the corrected advance of the clock |
| TaskManagers.TaskManager.AdvanceAsWritten | include/libcotask/task_manager.h:663-731 | the first tick only records the time; a later tick removes exactly the expired entries and checkpoints and times out their live tasks |
| TaskManagers.TaskManager.Tick | include/libcotask/task_manager.h:643-737 | as `TickAsWritten`, except that the first tick moves every checkpoint forward by the tick time |
| TaskManagers.TaskManager.Advance | include/libcotask/task_manager.h:663-731 | the corrected first tick shifts all checkpoints forward by now; a later tick removes exactly the expired ones |
| TaskManagers.TimerUpdatedTwice | include/libcotask/task_manager.h:772-792 | setting an entry's checkpoint twice leaves the second: the earlier one is removed first, so a task has at most one |
| TaskManagers.TimerUpdated | include/libcotask/task_manager.h:772-792 | changing one entry's checkpoint keeps the ids, every task, and every other entry |
| TaskManagers.Killing | include/libcotask/task_manager.h:718-727 | killing one task, with its successors' calls held back, changes no other task's status |
| TaskManagers.TimedOutStep | include/libcotask/task_manager.h:697-728 | removing one more entry and killing its task keeps what a tick promises about statuses |
| TaskManagers.NothingTimedOut | include/libcotask/task_manager.h:663-682 | a tick that keeps every entry times nothing out |
| TaskManagers.ShiftKeepsOrder | include/libcotask/task_manager.h:673-676 | moving two checkpoints by the same amount keeps their order |
| TaskManagers.ShiftAll | include/libcotask/task_manager.h:671-677 | every checkpoint moved forward, position by position |
| TaskManagers.ShiftAllSorted | include/libcotask/task_manager.h:671-677 | moving an ordered set keeps it ordered (and only an ordered set), and moving it back restores it |
| TaskManagers.ShiftTable | include/libcotask/task_manager.h:671-677 | moving the entries' checkpoints keeps the ids, the tasks, and which entries have a checkpoint |
| TaskManagers.ShiftKeepsMatch | include/libcotask/task_manager.h:671-677 | moving both the set and the entries keeps them in agreement |
| TaskManagers.InsertGreatest | include/libcotask/task_manager.h:676 | inserting a checkpoint above every element appends it |
| TaskManagers.ShiftedCheckpoints | include/libcotask/task_manager.h:670-677 | the loop builds exactly the moved set, which is ordered |
| TaskManagers.ManagerWithEarlyTimeout | include/libcotask/task_manager.h:251-304 | a task added with a 10-second timeout before any tick gets the checkpoint 10 s |
| TaskManagers.FirstTickTimeoutAsWritten | include/libcotask/task_manager.h:679 | with the self-swap, ticks at 1000 s and 1001 s time that task out |
| TaskManagers.FirstTickTimeoutCorrected | include/libcotask/task_manager.h:670-681 | with the shifted checkpoints, the same ticks leave the task CREATED |
| TaskManagers.SweptStep | include/libcotask/task_manager.h:697-713 | removing the first remaining checkpoint once it has passed, and the entry it names, keeps the loop's invariant one step further |
| TaskManagers.TickRemovesExactlyExpired | include/libcotask/task_manager.h:688-714 | when the loop stops after k checkpoints, it has dropped exactly those, and an entry's checkpoint is among them exactly when it has passed |
| TaskManagers.SplitAtFirstLive | include/libcotask/task_manager.h:697-701 | a checkpoint lies among the first k exactly when it has passed |
| TaskManagers.DropPrefix | include/libcotask/task_manager.h:688-701 | the loop stops after exactly the passed prefix |
| TaskManagers.KillEach | include/libcotask/task_manager.h:223-228 | every task not already exiting is killed with KILLED, an exiting one is left alone; the successors' calls are returned as a plan |
| TaskManagers.KilledBy | include/libcotask/task_manager.h:718 | an exiting task keeps its status, any other takes the kill status |
| CoroutineContext.CreateArgsLayout | src/libcopp/coroutine/coroutine_context.cpp:210-240 | when the sizes do not wrap, arguments that pass the checks place the context object inside the coroutine area, below the private buffer, and leave stack below the coroutine area |
| CoroutineContext.CreateArgsAcceptWrappedPrivateSize | src/libcopp/coroutine/coroutine_context.cpp:223-224 | the checks accept a private buffer size that makes `private_buffer_size + coroutine_size` wrap in `size_t` |
| CoroutineContext.CoroutineContext.constructor | src/libcopp/coroutine/coroutine_context.cpp:194-206 | a new context is INVALID, with no flags, no runner, no buffers, no callee and a return code of 0 |
| CoroutineContext.CoroutineContext.IsFinished | src/libcopp/coroutine/coroutine_context.cpp:394-397 | true exactly when the status is FINISHED or EXITED |
| CoroutineContext.CoroutineContext.IsFinishedMatchesFlag | src/libcopp/coroutine/coroutine_context.cpp:394-397 | in a consistent context, the status test agrees with the FINISHED flag test the source left commented out |
| CoroutineContext.CoroutineContext.SetFlags | src/libcopp/coroutine/coroutine_context.cpp:355-362 | refuses exactly the flags touching the reserved mask, changing nothing; otherwise ORs them in; reserved bits and every other field are unchanged |
| CoroutineContext.CoroutineContext.UnsetFlags | src/libcopp/coroutine/coroutine_context.cpp:364-371 | refuses exactly the flags touching the reserved mask; otherwise clears exactly those bits; reserved bits and every other field are unchanged |
| CoroutineContext.CoroutineContext.SetRunner | src/libcopp/coroutine/coroutine_context.cpp:376-392 | ARGS_ERROR for an empty runner, ALREADY_INITED unless INVALID, both changing nothing; otherwise INVALID becomes READY with the runner installed |
| CoroutineContext.CoroutineContext.Create | src/libcopp/coroutine/coroutine_context.cpp:210-260 | arguments failing a check give ARGS_ERROR and change nothing; otherwise the stack, private buffer size and buffer address (stack pointer less the buffer size) are recorded, the runner is installed when given, and the result is SUCCESS exactly when the machine context could be made, FCONTEXT_MAKE_FAILED otherwise |
| CoroutineContext.CoroutineContext.Yield | src/libcopp/coroutine/coroutine_context.cpp:311-353 | NOT_INITED without a callee; from RUNNING, SUCCESS with READY, or FINISHED once the finished flag is set; NOT_INITED from INVALID, NOT_RUNNING from READY, ALREADY_EXIST from FINISHED or EXITED, each leaving the status |
| CoroutineContext.CoroutineContext.Start | src/libcopp/coroutine/coroutine_context.cpp:262-307 | NOT_INITED without a callee or from INVALID, IS_RUNNING from RUNNING, NOT_READY from FINISHED or EXITED, each changing nothing; from READY, SUCCESS, and the context ends READY when the body yields, or EXITED with the finished flag and the runner's code when it returns |
| CoroutineContext.CoroutineContext.Resume | src/libcopp/coroutine/coroutine_context.cpp:309 | the same as `start` |
| CoroutineContext.StartCode | src/libcopp/coroutine/coroutine_context.cpp:262-307 | `start` succeeds precisely for a READY context with a callee; IS_RUNNING from RUNNING, NOT_READY from FINISHED or EXITED, NOT_INITED without a callee or from INVALID |
| CoroutineContext.StatusAfterStart | src/libcopp/coroutine/coroutine_context.cpp:262-307 | a refused `start` keeps the status; a run ends READY or EXITED, EXITED precisely when the body returned |
| CoroutineContext.ThisCoroutineYield | src/libcopp/coroutine/coroutine_context.cpp:402-409 | NOT_RUNNING outside any coroutine; inside a running one, the context's `yield` succeeds and it stops running |
| CoroutineContext.StartYieldResumeFinish | src/libcopp/coroutine/coroutine_context.cpp:262-309 | a created context starts, yields, resumes to completion, and a further resume is NOT_READY |
| CoroutineContext.SetThenCheck | src/libcopp/coroutine/coroutine_context.cpp:355-373 | after setting a non-empty flag, checking it holds |
| CoroutineContext.UnsetThenCheck | src/libcopp/coroutine/coroutine_context.cpp:364-373 | after unsetting a flag none of its bits is set, and every other bit is kept |
| CoroutineContextH.StatusValue | include/libcopp/coroutine/coroutine_context.h:87-93 | each status has a value from 0 to 4, in declaration order |
| CoroutineContextH.AlignHelper | include/libcopp/coroutine/coroutine_context.h:35-61 | the alignment unit is at least 16, and equals N when N is at least 16 |
| CoroutineContextH.AlignUnitWellFormed | include/libcopp/coroutine/coroutine_context.h:64-69 | the unit is a power of two and a multiple of 16 |
| CoroutineContextH.AlignAddressSize | include/libcopp/coroutine/coroutine_context.h:279-286 | the result is a multiple of the unit within `size_t`; without overflow it is at least the size and less than one unit above it |
| CoroutineContextH.AlignAddressSizeIsLeast | include/libcopp/coroutine/coroutine_context.h:279-286 | without overflow, it is the least multiple of the unit not below the size |
| CoroutineContextH.AlignAddressSizeIdempotent | include/libcopp/coroutine/coroutine_context.h:279-286 | aligning an aligned size changes nothing |
| CoroutineContextH.AlignPrivateDataSize | include/libcopp/coroutine/coroutine_context.h:263-277 | the same rounding: a multiple of the unit, within one unit above the size when it does not overflow |
| CoroutineContextBase.CoroutineContextBase.constructor | src/libcopp/coroutine/coroutine_context_base.cpp:51-57 | a new base context is INVALID with no flags, runner or buffers |
| CoroutineContextBase.CoroutineContextBase.SetFlags | src/libcopp/coroutine/coroutine_context_base.cpp:61-68 | refuses exactly the reserved bits; otherwise ORs the flags in, after which checking them holds; nothing else changes |
| CoroutineContextBase.CoroutineContextBase.UnsetFlags | src/libcopp/coroutine/coroutine_context_base.cpp:70-77 | refuses exactly the reserved bits; otherwise clears exactly those bits, after which checking them fails |
| CoroutineContextBase.CoroutineContextBase.SetRunner | src/libcopp/coroutine/coroutine_context_base.cpp:81-98 | ARGS_ERROR for an empty runner, ALREADY_INITED unless INVALID; otherwise READY with the runner installed |
| CoroutineContextBase.CoroutineContextBase.IsFinished | src/libcopp/coroutine/coroutine_context_base.cpp:100-103 | true exactly when the status has passed RUNNING |
| CoroutineContextBase.SetRunnerOnce | src/libcopp/coroutine/coroutine_context_base.cpp:81-98 | a second `set_runner` on the same context is refused with ALREADY_INITED |
| CoroutineContextContainer.RequestedStackSize | include/libcopp/coroutine/coroutine_context_container.h:73-75 | a stack size of 0 selects the default size, any other is kept |
| CoroutineContextContainer.Container.constructor | include/libcopp/coroutine/coroutine_context_container.h:35-38 | a new container has no references and an INVALID context without a callee |
| CoroutineContextContainer.AddRef | include/libcopp/coroutine/coroutine_context_container.h:169-175 | a null pointer is ignored; otherwise one more reference, in `size_t` |
| CoroutineContextContainer.Release | include/libcopp/coroutine/coroutine_context_container.h:177-193 | a null pointer is ignored; otherwise one reference less (wrapping from 0 to the largest `size_t`); the last one destroys the container and gives its stack back to the allocator |
| CoroutineContextContainer.Create | include/libcopp/coroutine/coroutine_context_container.h:65-116 | a stack too small for the aligned coroutine area and private buffer gives nothing and allocates nothing; a failed allocation gives nothing; a stack obtained but not used is given back; a new container holds one reference, sits below the aligned private buffer, and owns a context over the granted stack that is READY when a runner was given; with sizes that cannot wrap, a granted stack and a made machine context it always succeeds |
| CoroutineContextContainer.ContainerLayoutPassesChecks | include/libcopp/coroutine/coroutine_context_container.h:94-112 | the layout `create` computes always satisfies the argument checks of the context's `create` |
| CoroutineManager.CoroutineNode.constructor | include/libcopp/coroutine/coroutine_manager.h:36 | a node keeps its key and owns a new INVALID context |
| CoroutineManager.ContainerStlMap.constructor | include/libcopp/coroutine/coroutine_manager.h:114-125 | a new map is empty |
| CoroutineManager.ContainerStlMap.Insert | include/libcopp/coroutine/coroutine_manager.h:137-144 | succeeds exactly for a non-null node under a new key, which it then holds; otherwise nothing changes |
| CoroutineManager.ContainerStlMap.Find | include/libcopp/coroutine/coroutine_manager.h:151-157 | null exactly for an absent key, otherwise the node under it |
| CoroutineManager.ContainerStlMap.Remove | include/libcopp/coroutine/coroutine_manager.h:174-176 | the key is gone, and the size drops by one exactly when it was present |
| CoroutineManager.Manager.constructor | include/libcopp/coroutine/coroutine_manager.h:201 | a new manager holds no nodes |
| CoroutineManager.Manager.Create | include/libcopp/coroutine/coroutine_manager.h:203-217 | a fresh node under a key that is neither `npos` nor in use, added to the map; nothing else changes |
| CoroutineManager.Manager.Remove | include/libcopp/coroutine/coroutine_manager.h:219-222 | the key leaves the map |
| CoroutineManager.Manager.GetByKey | include/libcopp/coroutine/coroutine_manager.h:224-226 | null exactly for an unknown key, otherwise the node filed under that key |
| CoroutineManager.Manager.Start | include/libcopp/coroutine/coroutine_manager.h:237-242 | COROUTINE_NOT_FOUND for an unknown key; otherwise the result is the node's own `start` result (NOT_INITED, IS_RUNNING, NOT_READY or SUCCESS by callee and status), the node's context ends in the status `start` leaves it in, and a returning body records its code |
| CoroutineManager.Manager.Resume | include/libcopp/coroutine/coroutine_manager.h:244-249 | COROUTINE_NOT_FOUND for an unknown key; otherwise the node's own `resume` result and new status, the same as for `start` |
| CoroutineManager.DrawFreeKey | include/libcopp/coroutine/coroutine_manager.h:204-206 | while fewer keys are in use than the key type has, the draw loop ends with a key that is neither `npos` nor in use |
| CoroutineManager.FreshDrawNotTried | include/libcopp/coroutine/coroutine_manager.h:204-206 | within one cycle of the counter, each draw gives a key not tried before |
| CoroutineManager.TwoNodesThenRemove | include/libcopp/coroutine/coroutine_manager.h:203-234 | two creations give a size of 2, and removing one leaves 1 |
| StandardIntKeyAllocator.NextKey | include/libcopp/coroutine/core/standard_int_key_allocator.h:27-33 | the next key is never `npos` and stays within the key type |
| StandardIntKeyAllocator.KeyAfter | include/libcopp/coroutine/core/standard_int_key_allocator.h:27-33 | every key handed out after at least one allocation is within the key type and never `npos` |
| StandardIntKeyAllocator.KeyAfterClosedForm | include/libcopp/coroutine/core/standard_int_key_allocator.h:27-33 | the n-th key is `(s + n - 1) % (modulus - 1) + 1`: the keys cycle through 1 .. modulus - 1 |
| StandardIntKeyAllocator.KeysDistinctWithinCycle | include/libcopp/coroutine/core/standard_int_key_allocator.h:27-33 | a key comes back only after modulus - 1 further allocations |
| StandardIntKeyAllocator.KeyCounter.constructor | include/libcopp/coroutine/core/standard_int_key_allocator.h:28 | the counter starts at `npos` |
| StandardIntKeyAllocator.KeyCounter.Allocate | include/libcopp/coroutine/core/standard_int_key_allocator.h:27-33 | the counter moves to the next key, which is returned |
| StandardIntKeyAllocator.KeyCounter.Deallocate | include/libcopp/coroutine/core/standard_int_key_allocator.h:35-36 | nothing is given back: the counter is unchanged |
| StandardIntKeyAllocator.FirstKeys | include/libcopp/coroutine/core/standard_int_key_allocator.h:27-33 | a fresh counter hands out 1, 2, 3 |
| StandardIntKeyAllocator.WrapSkipsNpos | include/libcopp/coroutine/core/standard_int_key_allocator.h:29-31 | on a one-byte key, the key after 255 wraps past `npos` to 1 |
| StackPool.ConfiguredStackSize | include/libcopp/stack/stack_pool.h:77-82 | sizes up to the minimum become the minimum; larger sizes become a whole number of pages, at least the size asked for and less than one page more |
| StackPool.Pool.constructor | include/libcopp/stack/stack_pool.h:63-68 | a new pool has the default stack size, automatic collection on, every counter and limit 0 and no cached stack |
| StackPool.Pool.SetStackSize | include/libcopp/stack/stack_pool.h:77-89 | the configured size becomes the clamped or rounded size; a changed size runs `clear` as written: the cached stacks go back to the origin allocator and the free counters are zeroed, yet the free list still holds them, so the counters describe the free list afterwards precisely when it was empty; an unchanged size keeps the cache; the used counters and limits are untouched |
| StackPool.Pool.Allocate | include/libcopp/stack/stack_pool.h:117-177 | a reached limit gives an empty context and changes nothing; otherwise the most recently freed stack is reused (last in, first out) when it is large enough, and a smaller one is dropped from the list before a fresh stack of the configured size is asked for; a fresh stack counts as used and records its offset from the configured size; a failed request changes no used counter; the free counters keep describing the free list |
| StackPool.Pool.Deallocate | include/libcopp/stack/stack_pool.h:183-224 | a null or empty context changes no counter; otherwise the used counters drop (flooring at 0), a stack of the pool's size goes to the back of the free list and any other one straight back to the origin allocator; then, with automatic collection on, a number of the oldest free stacks go back to the origin allocator, and none while collection is skipped or off |
| StackPool.Pool.Release | include/libcopp/stack/stack_pool.h:186-218 | the part of `deallocate` before collection: the used counters drop, and the stack is cached exactly when its size is the configured size plus the recorded offset; the free counters grow by its size and one |
| StackPool.Pool.Gc | include/libcopp/stack/stack_pool.h:226-290 | nothing is collected while the used stacks outweigh the free ones in size and number, or while the pool is within its minimum size and number; otherwise the oldest free stacks go back to the origin allocator, in order, until the free size and number are at most half of what they were, or until `gc_number` stacks went back when that bound is set; the free counters keep describing the free list |
| StackPool.Pool.ReturnFront | include/libcopp/stack/stack_pool.h:252-281 | one round of the collection loop: the oldest free stack goes back to the origin allocator and its size and one leave the free counters (flooring at 0, the number falling back to the list length) |
| StackPool.Pool.ClearAsWritten | include/libcopp/stack/stack_pool.h:292-306 | as written: every cached stack goes back to the origin allocator and the free counters are zeroed, but the free list still holds them |
| StackPool.Pool.Clear | include/libcopp/stack/stack_pool.h:292-306 | corrected: every cached stack goes back to the origin allocator, the free list is empty and the free counters are zeroed |
| StackPool.PoolWithCachedStack | include/libcopp/stack/stack_pool.h:117-224 | two allocations and a release leave a 64 KiB pool with exactly one cached stack |
| StackPool.ClearAsWrittenThenAllocateReusesReturnedStack | include/libcopp/stack/stack_pool.h:136-166 | after the source's `clear`, the next `allocate` hands out a stack that was already given back to the origin allocator |
| StackPool.ClearThenAllocateTakesFreshStack | include/libcopp/stack/stack_pool.h:136-176 | after the corrected `clear`, the same sequence hands out a stack that was never given back |
| StackPool.FreshStackIsRecognised | include/libcopp/stack/stack_pool.h:169-215 | the offset recorded for a fresh stack makes `deallocate` recognise that stack as one of the pool's size |
| StackAllocatorMemory.ClampedSize | src/libcopp/stack/allocator/stack_allocator_memory.cpp:83-85 | the size asked for, raised to the minimum and lowered to the maximum and the buffer size: within the buffer and the maximum, unchanged when already within all bounds, and at least the minimum when the buffer and maximum allow it |
| StackAllocatorMemory.MemoryAllocator.constructor | src/libcopp/stack/allocator/stack_allocator_memory.cpp:23 | a new allocator has no buffer and is not in use |
| StackAllocatorMemory.MemoryAllocator.Attached | src/libcopp/stack/allocator/stack_allocator_memory.cpp:25-27 | an allocator over a given buffer, not in use |
| StackAllocatorMemory.MemoryAllocator.From | src/libcopp/stack/allocator/stack_allocator_memory.cpp:29-44 | copying or moving takes the other allocator's buffer and leaves it empty, unless the other one is in use, in which case nothing moves |
| StackAllocatorMemory.MemoryAllocator.Assign | src/libcopp/stack/allocator/stack_allocator_memory.cpp:49-61 | assignment exchanges the two allocators' states, unless the other one is in use, in which case neither changes |
| StackAllocatorMemory.MemoryAllocator.Swap | src/libcopp/stack/allocator/stack_allocator_memory.cpp:64-69 | the two allocators exchange buffer, size and in-use mark |
| StackAllocatorMemory.MemoryAllocator.Attach | src/libcopp/stack/allocator/stack_allocator_memory.cpp:71-75 | the allocator now serves the given buffer and is not in use |
| StackAllocatorMemory.MemoryAllocator.Allocate | src/libcopp/stack/allocator/stack_allocator_memory.cpp:77-97 | as written, in a release build where the debug `assert` is compiled out: without a buffer or while in use the context's pointer is null and nothing changes; otherwise the stack has the clamped size rounded to whole pages, its top is the buffer start plus that size, and the allocator is in use |
| StackAllocatorMemory.MemoryAllocator.AllocateWithinBuffer | src/libcopp/stack/allocator/stack_allocator_memory.cpp:77-97 | corrected: as `allocate`, but the rounded size never passes the buffer, so the stack lies within it |
| StackAllocatorMemory.MemoryAllocator.Deallocate | src/libcopp/stack/allocator/stack_allocator_memory.cpp:99-108 | the allocator is no longer in use, its buffer unchanged |
| StackAllocatorMemory.FittedStackSize | src/libcopp/stack/allocator/stack_allocator_memory.cpp:83-88 | a whole number of pages within the buffer, equal to the rounded clamped size whenever that fits |
| StackAllocatorMemory.WholePagesIn | src/libcopp/stack/allocator/stack_allocator_memory.cpp:88 | the largest whole number of pages within the buffer |
| StackAllocatorMemory.FittedStackSizeOnWholePages | src/libcopp/stack/allocator/stack_allocator_memory.cpp:83-88 | on a buffer of whole pages the corrected size is the size the source computes |
| StackAllocatorMemory.UnalignedBufferOverrun | src/libcopp/stack/allocator/stack_allocator_memory.cpp:85-91 | as written, a 10000-byte buffer with 4 KiB pages yields a 12288-byte stack whose top lies past the buffer's end |
| StackAllocatorMemory.UnalignedBufferFitted | src/libcopp/stack/allocator/stack_allocator_memory.cpp:85-91 | corrected, the same request yields an 8192-byte stack within the buffer |
| StackTraitsPosix.MaximumSize | src/libcopp/stack/stack_traits/stack_traits_posix.cpp:64-67 | the largest `size_t` when the stack limit is unbounded, otherwise the hard limit |
| StackTraitsPosix.DefaultSize | src/libcopp/stack/stack_traits/stack_traits_posix.cpp:54-60 | between the minimum and the maximum, at most eight minimum stacks, and exactly eight of them when the limit is unbounded or allows it |
| StackTraitsPosix.RoundToPageSize | src/libcopp/stack/stack_traits/stack_traits_posix.cpp:69-72 | a whole number of pages within `size_t` |
| StackTraitsPosix.RoundToPageSizeIsLeastMultiple | src/libcopp/stack/stack_traits/stack_traits_posix.cpp:69-72 | when the sum cannot wrap, the rounded size is the least multiple of the page size at or above the size |
| StackTraitsPosix.RoundToPageSizeIdempotent | src/libcopp/stack/stack_traits/stack_traits_posix.cpp:69-72 | rounding a rounded size changes nothing |
| StackTraitsPosix.LinuxDefaults | src/libcopp/stack/stack_traits/stack_traits_posix.cpp:54-72 | with 4 KiB pages, an 8 MiB limit and an 8 KiB signal stack, the default is 64 KiB and 10000 rounds to 12288 |
| StackTraitsWindows.MinStackSize | src/libcopp/stack/stack_traits/stack_traits_windows.cpp:43-51 | 8 KiB on x86-64, 4 KiB elsewhere |
| StackTraitsWindows.DefaultSize | src/libcopp/stack/stack_traits/stack_traits_windows.cpp:102-108 | 64 KiB, raised to the minimum when that is larger, and within the maximum |
| StackTraitsWindows.RoundToPageSize | src/libcopp/stack/stack_traits/stack_traits_windows.cpp:120-123 | a whole number of pages within `size_t` |
| StackTraitsWindows.RoundToPageSizeIsLeastMultiple | src/libcopp/stack/stack_traits/stack_traits_windows.cpp:120-123 | when the sum cannot wrap, the least multiple of the page size at or above the size; rounding twice changes nothing |
| SizeArith.AddWrap | include/libcopp/stack/stack_pool.h:159-173 | `size_t` addition: the exact sum when it fits |
| SizeArith.SubWrap | include/libcopp/stack/stack_pool.h:175 | `size_t` subtraction: the exact difference when it is not negative |
| SizeArith.SubWrapThenAddWrap | include/libcopp/stack/stack_pool.h:175-207 | adding back a wrapped difference restores the original value |
| SizeArith.RoundUpPow2 | src/libcopp/stack/stack_traits/stack_traits_posix.cpp:71 | `(x + unit - 1) & ~(unit - 1)` for a power-of-two unit: a multiple of the unit within `size_t` |
| SizeArith.LemmaRoundUpLeastMultiple | src/libcopp/stack/stack_traits/stack_traits_posix.cpp:71 | when the sum cannot wrap, the result is the least multiple of the unit at or above x |
| SizeArith.LemmaRoundUpIdempotent | src/libcopp/stack/stack_traits/stack_traits_posix.cpp:71 | a multiple of the unit rounds to itself |
| FutureStorage.SelectionBounds | include/libcopp/future/storage.h:59-80 | a type a poll keeps inline is always kept inline by a result, and a trivially copyable type of exactly four words shows that the two bounds differ |
| FutureStorage.Data | include/libcopp/future/storage.h:206-207 | a value exactly when the poll is ready |
| FutureStorage.DefaultStorage | include/libcopp/future/storage.h:149-152 | a pending poll of the selected kind; an inline value is zero-filled |
| FutureStorage.ConstructFromPointer | include/libcopp/future/storage.h:158-170 | ready exactly for a non-null pointer; the value is taken and the pointer emptied, except for a `void` poll, which leaves its argument alone |
| FutureStorage.ConstructFromValue | include/libcopp/future/storage.h:172-175 | a small poll, ready with the given value |
| FutureStorage.ConstructFromFlag | include/libcopp/future/storage.h:105-111 | a `void` poll, ready exactly when the argument is true |
| FutureStorage.MoveStorage | include/libcopp/future/storage.h:177-186 | the target takes the source's readiness and value, and the source is left pending (a small source keeps its bytes) |
| FutureStorage.ResetStorage | include/libcopp/future/storage.h:188 | the poll is pending again and a small poll keeps its bytes |
| FutureStorage.SwapStorage | include/libcopp/future/storage.h:189-204 | two storages of the same kind are exchanged completely |
| FutureStorage.Unwrap | include/libcopp/future/storage.h:292-340 | the address of an inline value is never null; a shared pointer's may be |
| FutureStorage.CompactDefault | include/libcopp/future/storage.h:254-305 | a zero-filled inline value or a null pointer |
| FutureStorage.CompactDestroy | include/libcopp/future/storage.h:251-304 | an inline value is left alone; a shared pointer becomes null |
| FutureStorage.CompactFromPointer | include/libcopp/future/storage.h:262-316 | a non-null pointer's value is taken; a null one gives the default; only the shared form takes ownership of the pointer |
| FutureStorage.CompactFromValue | include/libcopp/future/storage.h:273-329 | the stored value is the given one, in either form |
| FutureStorage.CompactMove | include/libcopp/future/storage.h:281-335 | the target holds what the source held and the source is left as a default storage |
| FutureStorage.Result.GetSuccess | include/libcopp/future/storage.h:432-437 | a success value only in success mode |
| FutureStorage.Result.GetError | include/libcopp/future/storage.h:438-441 | an error value only in error mode |
| FutureStorage.Result.constructor | include/libcopp/future/storage.h:443-446 | no mode, both storages default, no value of either kind |
| FutureStorage.Result.MoveFrom | include/libcopp/future/storage.h:449-454 | the new result holds what the other held, and the other is left with no mode and default storages |
| FutureStorage.Result.Reset | include/libcopp/future/storage.h:505-514 | only the live storage is destroyed, and the mode becomes none |
| FutureStorage.Result.ConstructSuccess | include/libcopp/future/storage.h:477-496 | the old live storage is destroyed, and the result is a success holding exactly the value |
| FutureStorage.Result.ConstructError | include/libcopp/future/storage.h:484-503 | the old live storage is destroyed, and the result is an error holding exactly the value |
| FutureStorage.Result.ConstructSuccessFromPointer | include/libcopp/future/storage.h:477-482 | success mode even for a null pointer, which leaves the default value; the pointer is consumed only by a shared storage |
| FutureStorage.Result.ConstructErrorFromPointer | include/libcopp/future/storage.h:484-489 | error mode even for a null pointer; the pointer is consumed only by a shared storage |
| FutureStorage.Result.Swap | include/libcopp/future/storage.h:462-467 | both storages and the mode are exchanged, and validity is kept |
| FutureStorage.Result.MoveAssign | include/libcopp/future/storage.h:456-460 | this result takes the other's mode and value; the other ends with no mode, having destroyed what this one held |
| FutureStorage.CreateSuccess | include/libcopp/future/storage.h:595-600 | a new result in success mode with exactly the value |
| FutureStorage.CreateError | include/libcopp/future/storage.h:602-607 | a new result in error mode with exactly the value |
| FutureStorage.TrivialResult.GetSuccess | include/libcopp/future/storage.h:365-366 | the success member's bytes exactly in success mode |
| FutureStorage.TrivialResult.GetError | include/libcopp/future/storage.h:367-368 | the error member's bytes exactly in error mode |
| FutureStorage.TrivialResult.CreateSuccess | include/libcopp/future/storage.h:386-390 | success mode with the value's bytes at the front of the union |
| FutureStorage.TrivialResult.CreateError | include/libcopp/future/storage.h:392-396 | error mode with the value's bytes at the front of the union |
| FutureStorage.TrivialResult.SwapAsWritten | include/libcopp/future/storage.h:398-406 | as written: the modes are exchanged but only the bytes of this result's own member are |
| FutureStorage.TrivialResult.Swap | include/libcopp/future/storage.h:398-406 | corrected: the whole union and the modes are exchanged, so each result reads the other's value |
| FutureStorage.SwapAsWrittenSameMode | include/libcopp/future/storage.h:398-406 | the swap as written is right whenever both results are in the same mode |
| FutureStorage.SwapAsWrittenLosesWideError | include/libcopp/future/storage.h:398-406 | as written, a 4-byte success swapped with an 8-byte error leaves the first result with an error that is not the one swapped in |
| FutureStorage.SwapKeepsWideError | include/libcopp/future/storage.h:398-406 | corrected, the same pair gives the first result the error intact |
| FuturePoll.Poll.Value | include/libcopp/future/poll.h:35-40 | a value exactly when the poll is ready, none exactly while it is pending |
| FuturePoll.Poll.constructor | include/libcopp/future/poll.h:21 | a new poll of the given kind is pending, with a default storage |
| FuturePoll.Poll.FromPointer | include/libcopp/future/poll.h:51-55 | ready exactly for a non-null pointer, with its value |
| FuturePoll.Poll.FromValue | include/libcopp/future/poll.h:23-26 | a small poll, ready with the given value |
| FuturePoll.Poll.FromFlag | include/libcopp/future/poll.h:57-60 | a `void` poll, ready exactly when the argument is true |
| FuturePoll.Poll.FromPoll | include/libcopp/future/poll.h:28 | the new poll has the other's readiness and value, and the other is left pending |
| FuturePoll.Poll.MoveAssign | include/libcopp/future/poll.h:30-33 | this poll takes the other's readiness and value, and the other is left pending |
| FuturePoll.Poll.AssignPointer | include/libcopp/future/poller.h:37-40 | ready exactly for a non-null pointer, whose value is taken and which is emptied (a `void` poll leaves it alone) |
| FuturePoll.Poll.AssignValue | include/libcopp/future/poller.h:37-40 | a small poll becomes ready with the given value |
| FuturePoll.Poll.Reset | include/libcopp/future/poll.h:45 | the poll is pending again |
| FuturePoll.Poll.Swap | include/libcopp/future/poll.h:46-48 | the two polls exchange storage and readiness |
| FuturePoll.MoveThereAndBack | include/libcopp/future/poll.h:28-33 | moving a ready poll into another and back gives the value back and leaves the middle poll pending |
| Futures.Context.constructor | include/libcopp/future/context.h:31-34 | a new context has no wake function |
| Futures.Context.SetWake | include/libcopp/future/context.h:62 | the wake function is the one given |
| Futures.Context.Wake | include/libcopp/future/context.h:56-60 | with this future's waker installed, a pending future is polled again and the waker stays exactly while it is still pending; a ready one is left alone; other wake functions leave the future untouched |
| Futures.Future.constructor | include/libcopp/future/future.h:103 | a new future owns a pending poll of the given kind |
| Futures.Future.Value | include/libcopp/future/future.h:45-57 | a value exactly when the future is ready |
| Futures.Future.Poll | include/libcopp/future/future.h:27-43 | a ready future is left as it is; otherwise the handler, when the context has one, fills the poll, and afterwards the context's wake function is cleared exactly when the future became ready, while a pending future installs its own waker only where none was set |
| Futures.PollThenWake | include/libcopp/future/future.h:27-100 | a future polled while pending and then woken after its handler produces a value is ready with that value and no waker is left behind |
| StdCoroutine.Delegate | include/libcopp/coroutine/std_coroutine_common.h:104-114 | a delegate keeps the handle, and carries the handle's promise exactly when the handle is not null |
| StdCoroutine.DelegateOrderTotal | include/libcopp/coroutine/std_coroutine_common.h:116-133 | delegates compare by their handles alone: any two are equal or ordered one way, never both ways, and equal ones are not ordered |
| StdCoroutine.InsertCaller | src/libcopp/coroutine/std_coroutine_common.cpp:78-80 | inserting into the caller set adds the handle, keeps every caller already there, and stores the new delegate only under a new handle |
| StdCoroutine.InheritStatus | src/libcopp/coroutine/std_coroutine_common.cpp:130-133 | the promise keeps its status unless a caller was removed with inheritance while the promise had not finished and the caller's status is past kDone, in which case it takes the caller's status |
| StdCoroutine.CallerManager.constructor | src/libcopp/coroutine/std_coroutine_common.cpp:23-31 | no caller: the unique slot holds a null delegate |
| StdCoroutine.CallerManager.AddCaller | src/libcopp/coroutine/std_coroutine_common.cpp:70-102 | a null or finished handle changes nothing; otherwise the handle joins the callers: into the empty unique slot, or by turning a filled slot into a set of both, or into an existing set |
| StdCoroutine.CallerManager.RemoveCaller | src/libcopp/coroutine/std_coroutine_common.cpp:104-128 | the handle leaves the callers, the storage keeps its form, and the result says whether it was there (a null delegate matches the empty unique slot) |
| StdCoroutine.CallerManager.ResumeCallers | src/libcopp/coroutine/std_coroutine_common.cpp:142-178 | the storage is emptied before anything is resumed, keeping its form, and exactly the registered callers that have not finished are resumed |
| StdCoroutine.PromiseBase.constructor | src/libcopp/coroutine/std_coroutine_common.cpp:23-31 | a new promise is kCreated with no flag, no awaited handle and no caller |
| StdCoroutine.PromiseBase.SetStatus | include/libcopp/coroutine/std_coroutine_common.h:220-232 | without an expected status it always stores; with one it stores exactly when the status matches, and otherwise reports the status it found |
| StdCoroutine.PromiseBase.CheckFlag | include/libcopp/coroutine/std_coroutine_common.h:236-242 | a flag outside the flag set never reads as set |
| StdCoroutine.PromiseBase.SetFlag | include/libcopp/coroutine/std_coroutine_common.h:244-250 | a flag outside the flag set is ignored; the flag given takes the value; every other flag keeps its value |
| StdCoroutine.PromiseBase.SetWaitingHandle | src/libcopp/coroutine/std_coroutine_common.cpp:54-56 | the awaited handle becomes the one given |
| StdCoroutine.PromiseBase.AddCaller | src/libcopp/coroutine/std_coroutine_common.cpp:70-102 | a null or finished handle changes nothing; any other joins the callers |
| StdCoroutine.PromiseBase.RemoveCaller | src/libcopp/coroutine/std_coroutine_common.cpp:104-134 | the handle leaves the callers, and the status is inherited from the removed caller as `InheritStatus` says |
| StdCoroutine.PromiseBase.ResumeCallers | src/libcopp/coroutine/std_coroutine_common.cpp:142-178 | no caller is left, and exactly the unfinished ones are resumed |
| StdCoroutine.PromiseBase.FinalAwaitSuspend | include/libcopp/coroutine/std_coroutine_common.h:294-297 | the final-suspend flag is set, no other flag changes, and the unfinished callers are resumed |
| StdCoroutine.PromiseBase.ResumeWaiting | src/libcopp/coroutine/std_coroutine_common.cpp:58-68 | an awaited handle that is set and unfinished is cleared, the current coroutine leaves its callers (possibly passing on its status), and it is resumed; otherwise nothing changes and nothing is resumed |
| StdCoroutine.IntegerErrorTransform | include/libcopp/coroutine/std_coroutine_common.h:386-394 | a negative value that fits in a signed byte, before `static_cast` to the result type (negative for a signed result type) |
| StdCoroutine.ErrorTransformRoundTrip | include/libcopp/coroutine/std_coroutine_common.h:386-394 | the error value gives back the status, except that kInvalid and kCreated share -1 |
| GeneratorPromise.GeneratorContext.constructor | include/libcopp/coroutine/generator_promise.h:136-138 | a new context is pending and has no caller |
| GeneratorPromise.GeneratorContext.Value | include/libcopp/coroutine/generator_promise.h:153-167 | a value exactly when the context is ready, nothing while pending |
| GeneratorPromise.GeneratorContext.ResetValue | include/libcopp/coroutine/generator_promise.h:64 | the context is pending again |
| GeneratorPromise.GeneratorContext.SetValue | include/libcopp/coroutine/generator_promise.h:169-173 | the context is ready with the value, and every unfinished caller is resumed and unregistered |
| GeneratorPromise.GeneratorContext.Destroy | include/libcopp/coroutine/generator_promise.h:145-151 | a pending value context receives the transformed kKilled, a ready or `void` one keeps its data, and every unfinished caller is resumed |
| GeneratorPromise.GeneratorAwaitable.constructor | include/libcopp/coroutine/generator_promise.h:208-212 | a new awaitable on the context, with no caller |
| GeneratorPromise.GeneratorAwaitable.AwaitSuspend | include/libcopp/coroutine/generator_promise.h:225-243 | a caller that has not finished, awaiting a context, is recorded, marked as internally waiting and registered with the context; otherwise it is resumed at once and nothing changes |
| GeneratorPromise.GeneratorAwaitable.DetachStatus | include/libcopp/coroutine/generator_promise.h:246-268 | kInvalid without a context; kDone exactly when the context is ready or the pending context's caller has finished; kKilled for a pending context without a caller |
| GeneratorPromise.GeneratorAwaitable.Detach | include/libcopp/coroutine/generator_promise.h:246-281 | reports `DetachStatus`, forgets the caller, clears only its waiting flag, and unregisters it from the context |
| GeneratorPromise.GeneratorAwaitable.AwaitResume | include/libcopp/coroutine/generator_promise.h:342-364 | the produced value when the context was ready, the transformed detach status otherwise; the caller is unregistered either way |
| GeneratorPromise.GeneratorFuture.constructor | include/libcopp/coroutine/generator_promise.h:383-392 | a new future owns a new pending context without callers |
| GeneratorPromise.GeneratorFuture.GetStatus | include/libcopp/coroutine/generator_promise.h:409-435 | kInvalid exactly without a context, kDone exactly when ready, kRunning exactly when pending |
| GeneratorPromise.GeneratorFuture.CoAwait | include/libcopp/coroutine/generator_promise.h:405-407 | a new awaitable on the same context, with no caller |
| GeneratorPromise.SuspendSetResume | include/libcopp/coroutine/generator_promise.h:225-364 | a caller suspended on a pending generator is resumed by `set_value` and receives the value |
| GeneratorPromise.KilledCallerGetsError | include/libcopp/coroutine/generator_promise.h:246-364 | a caller resumed before any value was produced receives -5, the integer transform of kKilled |
| Callables.CallablePromise.constructor | include/libcopp/coroutine/callable_promise.h:44-63 | a new promise is kCreated with no flag, caller or awaited handle, and nothing returned |
| Callables.CallablePromise.ReturnVoid | include/libcopp/coroutine/callable_promise.h:36-40 | the status becomes kDone unless it is already kDone or later, in which case it is kept |
| Callables.CallablePromise.ReturnValue | include/libcopp/coroutine/callable_promise.h:48-54 | as `return_void`, and the value is stored and marked as returned even when the status was kept |
| Callables.CallablePromise.InitialResume | include/libcopp/coroutine/callable_promise.h:212-217 | a coroutine that has not started moves from kCreated to kRunning; any other status is kept |
| Callables.CallablePromise.Resume | include/libcopp/coroutine/callable_promise.h:90-91 | the body runs to its next suspension and leaves the status it reached; reaching the end marks the frame done, otherwise no flag changes |
| Callables.CallableAwaitable.constructor | include/libcopp/coroutine/callable_promise.h:78 | an awaitable on the callee, with no caller |
| Callables.CallableAwaitable.AwaitReady | include/libcopp/coroutine/callable_promise.h:80-99 | a null or finished callee is ready; a callee still kCreated is run to its first suspension first; the callee is then ready exactly when its status is kDone or later or its frame is done |
| Callables.CallableAwaitable.AwaitSuspend | include/libcopp/coroutine/callable_promise.h:106-115 | a caller that has not finished records the callee as what it waits on and registers as the callee's caller; a finished caller is resumed at once and nothing changes |
| Callables.CallableAwaitable.Detach | include/libcopp/coroutine/callable_promise.h:121-164 | the caller leaves the callee and stops waiting on it; a callee that has not finished is then marked kKilled when there was no caller (or it turned out ready), and otherwise takes the caller's status |
| Callables.CallableAwaitable.AwaitResume | include/libcopp/coroutine/callable_promise.h:185-195 | the caller is detached; when the callee awaits a set, unfinished handle, that handle is forgotten, the callee leaves its callers and the awaited promise inherits the callee's status as `InheritStatus` says, otherwise the awaited handle is kept; the result is the returned value when the callee returned one, otherwise the error transform of the callee's status |
| Callables.FrameHeap.constructor | include/libcopp/coroutine/callable_promise.h:245-249 | the set of coroutine frames not yet destroyed |
| Callables.CallableFuture.constructor | include/libcopp/coroutine/callable_promise.h:230 | a future owning the given handle |
| Callables.CallableFuture.FromFuture | include/libcopp/coroutine/callable_promise.h:233-236 | the new future takes the other's handle and leaves it null |
| Callables.CallableFuture.CoAwait | include/libcopp/coroutine/callable_promise.h:251 | a new awaitable on the same callee, with no caller |
| Callables.CallableFuture.Destroy | include/libcopp/coroutine/callable_promise.h:245-249 | the owned frame, if any, is destroyed and no other |
| Callables.CallableFuture.MoveAssignAsWritten | include/libcopp/coroutine/callable_promise.h:239-243 | as written: takes the other's handle and leaves it null, without destroying the frame owned before |
| Callables.CallableFuture.MoveAssign | include/libcopp/coroutine/callable_promise.h:239-243 | corrected: the frame owned before is destroyed (unless it is the incoming one), then the other's handle is taken and the other left null; self-assignment changes nothing |
| Callables.MoveAssignLeaksFrame | include/libcopp/coroutine/callable_promise.h:239-249 | as written, two futures owning frames 1 and 2, one moved onto the other and both destroyed, leave frame 1 alive |
| Callables.MoveAssignReleasesFrame | include/libcopp/coroutine/callable_promise.h:239-249 | corrected, the same steps destroy both frames |
| Callables.AwaitCallable | include/libcopp/coroutine/callable_promise.h:80-195 | a caller awaiting a callable that has not started is resumed when the callable returns, and receives the returned value |
| Callables.WaitOnCallee | include/libcopp/coroutine/callable_promise.h:80-115 | after `await_ready` and `await_suspend` the callee has run to its first suspension and the caller is its only caller |
| SomeAlgorithm.SplitStep | include/libcopp/coroutine/algorithm_common.h:238-245 | one step of the split: the future at position i goes to the pending list exactly when it is still pending, and to the ready list otherwise |
| SomeAlgorithm.PartitionIsPermutation | include/libcopp/coroutine/algorithm_common.h:238-245 | the pending and ready lists together hold every future given, each as often as it was given |
| SomeAlgorithm.MoveKeepsFutures | include/libcopp/coroutine/algorithm_common.h:123-137 | moving the no-longer-pending futures to the ready list loses and adds none |
| SomeAlgorithm.PartitionMembers | include/libcopp/coroutine/algorithm_common.h:238-245 | the pending list holds exactly the given futures that are still pending, the ready list exactly the others |
| SomeAlgorithm.ReadyBoundAsWritten | include/libcopp/coroutine/algorithm_common.h:252-254 | as written: `ready_count`, lowered to the pending futures plus the size of the caller's output container |
| SomeAlgorithm.ReadyBound | include/libcopp/coroutine/algorithm_common.h:252-254 | corrected: `ready_count`, lowered to the pending futures plus the ones already ready, that is, to the number of futures given |
| SomeAlgorithm.SplitFutures | include/libcopp/coroutine/algorithm_common.h:238-245 | the first loop of `run` splits the futures into the pending ones and the ready ones, each list in input order |
| SomeAlgorithm.ErasePending | include/libcopp/coroutine/algorithm_common.h:124-136 | the loop of `scan_ready` keeps the still-pending futures in order and takes out the others, in order |
| SomeAlgorithm.SomeContext.constructor | include/libcopp/coroutine/algorithm_common.h:235-245 | a new context holds the split of the given futures, no bound, no caller and status kCreated |
| SomeAlgorithm.SomeContext.ScanReady | include/libcopp/coroutine/algorithm_common.h:123-137 | every future that is no longer pending moves, in order, to the end of the ready list and is resumed; the pending ones stay, in order |
| SomeAlgorithm.SomeContext.CountResume | include/libcopp/coroutine/algorithm_common.h:198-206 | one more resume is counted; once the count reaches the ready bound the futures are rescanned, the count restarts at the number ready, and the context becomes kDone exactly when enough futures are ready |
| SomeAlgorithm.SomeContext.MarkReady | include/libcopp/coroutine/algorithm_common.h:201-205 | the count restarts at the number of ready futures, and a running context becomes kDone when that reaches the ready bound |
| SomeAlgorithm.SomeContext.YieldCheck | include/libcopp/coroutine/algorithm_common.h:263-267 | the loop stops exactly when the awaiting coroutine reports kDone or later, whose status the context then takes |
| SomeAlgorithm.SomeContext.ForceResumeAll | include/libcopp/coroutine/algorithm_common.h:108-121 | every pending future is resumed, the caller is forgotten, and an unfinished context takes the caller's finished status or becomes kKilled |
| SomeAlgorithm.SomeContext.Finish | include/libcopp/coroutine/algorithm_common.h:275 | the ready futures are handed to the caller's container, which the context keeps in exchange |
| SomeAlgorithm.BeginAsWritten | include/libcopp/coroutine/algorithm_common.h:235-257 | as written: the futures are split; `run` finishes at once exactly when enough are ready; otherwise it runs with the as-written bound |
| SomeAlgorithm.Begin | include/libcopp/coroutine/algorithm_common.h:235-257 | corrected: the same, with the bound lowered only to the number of futures given |
| SomeAlgorithm.SomeAwaitable.constructor | include/libcopp/coroutine/algorithm_common.h:142 | an awaitable on the context, with no caller |
| SomeAlgorithm.SomeAwaitable.AwaitSuspend | include/libcopp/coroutine/algorithm_common.h:161-182 | without a context or for a finished caller the caller is resumed at once and nothing changes; otherwise the caller is recorded and marked as internally waiting, and the first caller to arrive becomes the context's caller and is suspended on every pending future |
| SomeAlgorithm.SomeAwaitable.AwaitResume | include/libcopp/coroutine/algorithm_common.h:184-207 | the caller's waiting flag is cleared and the caller forgotten; then, with a context, one more resume is counted as `CountResume` says |
| SomeAlgorithm.SplitFourFutures | include/libcopp/coroutine/algorithm_common.h:238-245 | four futures, the last two pending, split into the last two and the first two |
| SomeAlgorithm.SplitTwoFutures | include/libcopp/coroutine/algorithm_common.h:124-136 | two pending futures of which the first became ready split into one of each |
| SomeAlgorithm.AllStopsEarlyAsWritten | include/libcopp/coroutine/algorithm_common.h:247-257 | as written, `all` over four futures with two ready and an empty output container is done after one more becomes ready, with one future still pending |
| SomeAlgorithm.AllWaitsForEveryFuture | include/libcopp/coroutine/algorithm_common.h:247-257 | corrected, the same steps leave `all` running while a future is pending |
| SomeAlgorithm.AllDoneLeavesNothingPending | include/libcopp/coroutine/algorithm_common.h:199-205 | with the corrected bound, `all` can be done only when no future is pending |
| IntrusivePtr.RefCounted.constructor | include/libcopp/utils/intrusive_ptr.h:402 | a new counted object starts with a count of 0 and is not deleted |
| IntrusivePtr.AddRef | include/libcopp/utils/intrusive_ptr.h:405-409 | a non-null pointee gains exactly one reference and is not deleted by it; null is ignored |
| IntrusivePtr.Release | include/libcopp/utils/intrusive_ptr.h:410-420 | a non-null pointee with a positive count loses one reference and is deleted exactly when the count reaches zero; null is ignored |
| IntrusivePtr.Ptr.Empty | include/libcopp/utils/intrusive_ptr.h:55 | the default pointer is null |
| IntrusivePtr.Ptr.FromRaw | include/libcopp/utils/intrusive_ptr.h:57-61 | holds the raw pointer, and a non-null pointee gains one reference exactly when add_ref is requested |
| IntrusivePtr.Ptr.Copy | include/libcopp/utils/intrusive_ptr.h:71-75 | a copy points at the same object, which gains one reference |
| IntrusivePtr.Ptr.Move | include/libcopp/utils/intrusive_ptr.h:96 | takes the pointee, leaves the source null, the count unchanged |
| IntrusivePtr.Ptr.Destroy | include/libcopp/utils/intrusive_ptr.h:77-81 | destruction releases a non-null pointee exactly once |
| IntrusivePtr.Ptr.IsNull | include/libcopp/utils/intrusive_ptr.h:146-148 | operator! is the negation of operator bool |
| IntrusivePtr.Ptr.Swap | include/libcopp/utils/intrusive_ptr.h:150-154 | the two raw pointers are exchanged and no count changes |
| IntrusivePtr.Ptr.Detach | include/libcopp/utils/intrusive_ptr.h:129-133 | hands out the pointee and becomes null without releasing it |
| IntrusivePtr.Ptr.CopyAssign | include/libcopp/utils/intrusive_ptr.h:116-119 | afterwards both share the right-hand pointee, which gains one reference, and the old pointee (when different) is released once |
| IntrusivePtr.Ptr.MoveAssign | include/libcopp/utils/intrusive_ptr.h:98-101 | takes the right-hand pointee without counting it, the source becomes null, the old pointee is released once |
| IntrusivePtr.Ptr.ResetTo | include/libcopp/utils/intrusive_ptr.h:123-125 | points at the new object (counted when add_ref) and releases the old pointee once |
| IntrusivePtr.Ptr.Reset | include/libcopp/utils/intrusive_ptr.h:121 | becomes null and releases the old pointee once |
| IntrusivePtr.NotEqual | include/libcopp/utils/intrusive_ptr.h:192-193 | inequality is exactly the negation of raw-pointer equality |
| IntrusivePtr.EqualNull | include/libcopp/utils/intrusive_ptr.h:271-274 | comparing with nullptr is the same as operator! |
| IntrusivePtr.Less | include/libcopp/utils/std/intrusive_ptr.h:206-209 | orders by address, and a pointer below another is never equal to it |
| IntrusivePtr.Compare | include/libcopp/utils/intrusive_ptr.h:177-179 | the three-way comparison is -1 exactly for Less, 1 exactly for the reverse, 0 for equal pointers |
| IntrusivePtr.ShareAndRelease | include/libcopp/utils/intrusive_ptr.h:71-81 | an object held twice survives the first release and is deleted by the second, with a final count of 0 |
| IntrusivePtr.DetachThenAdopt | include/libcopp/utils/intrusive_ptr.h:57-61 | detaching and re-adopting without add_ref keeps the object alive with count 1 |
| AtomicInt.UnsafeInt.constructor | include/libcopp/utils/atomic_int_type.h:699 | a default value is 0 |
| AtomicInt.UnsafeInt.FromValue | include/libcopp/utils/atomic_int_type.h:700 | holds the desired value |
| AtomicInt.UnsafeInt.Store | include/libcopp/utils/atomic_int_type.h:702-711 | a later load returns the stored value |
| AtomicInt.UnsafeInt.Assign | include/libcopp/utils/atomic_int_type.h:726-729 | stores the value and returns it |
| AtomicInt.UnsafeInt.PreIncrement | include/libcopp/utils/atomic_int_type.h:735 | adds one modulo 2^64 and returns the new value |
| AtomicInt.UnsafeInt.PostIncrement | include/libcopp/utils/atomic_int_type.h:737 | adds one modulo 2^64 and returns the old value |
| AtomicInt.UnsafeInt.PreDecrement | include/libcopp/utils/atomic_int_type.h:739 | subtracts one modulo 2^64 and returns the new value |
| AtomicInt.UnsafeInt.PostDecrement | include/libcopp/utils/atomic_int_type.h:741 | subtracts one modulo 2^64 and returns the old value |
| AtomicInt.UnsafeInt.Exchange | include/libcopp/utils/atomic_int_type.h:744-757 | returns the old value and holds the desired one |
| AtomicInt.UnsafeInt.Cas | include/libcopp/utils/atomic_int_type.h:761-769 | succeeds exactly when the value equals the expected one, then holds the desired value; on failure the value is unchanged and the expected value is updated to it |
| AtomicInt.UnsafeInt.CompareExchangeWeak | include/libcopp/utils/atomic_int_type.h:772-796 | the weak exchange never fails spuriously: the same outcome as Cas |
| AtomicInt.UnsafeInt.CompareExchangeStrong | include/libcopp/utils/atomic_int_type.h:798-822 | the same outcome as Cas |
| AtomicInt.UnsafeInt.FetchAdd | include/libcopp/utils/atomic_int_type.h:824-837 | returns the old value and adds the argument modulo 2^64 |
| AtomicInt.UnsafeInt.FetchSub | include/libcopp/utils/atomic_int_type.h:839-852 | returns the old value and subtracts the argument modulo 2^64 |
| AtomicInt.UnsafeInt.FetchAnd | include/libcopp/utils/atomic_int_type.h:854-867 | returns the old value and keeps its bitwise and with the argument |
| AtomicInt.UnsafeInt.FetchOr | include/libcopp/utils/atomic_int_type.h:869-882 | returns the old value and keeps its bitwise or with the argument |
| AtomicInt.UnsafeInt.FetchXor | include/libcopp/utils/atomic_int_type.h:884-897 | returns the old value and keeps its bitwise xor with the argument |
| AtomicInt.XorUndoesXor | include/libcopp/utils/atomic_int_type.h:884-897 | xor with the same argument twice gives the value back |
| AtomicInt.XorTwiceRestores | include/libcopp/utils/atomic_int_type.h:884-897 | two fetch_xor calls with one argument leave the value as it was |
| AtomicInt.IncrementThenDecrement | include/libcopp/utils/atomic_int_type.h:737-741 | a post-increment then a pre-decrement both return the start value and restore it, even across the 2^64 wrap |
| AtomicInt.CasRetrySucceeds | include/libcopp/utils/atomic_int_type.h:761-769 | a failed exchange hands back the current value, so a retry with it succeeds |
| Gsl.Default | include/libcopp/utils/gsl/span.h:193 | the default dynamic span is null, of size 0 and empty |
| Gsl.FromCount | include/libcopp/utils/gsl/span.h:195 | a span from a pointer and a count begins at the pointer, has that size and ends count elements later |
| Gsl.FromRange | include/libcopp/utils/gsl/span.h:197-199 | a span from first to last (first not after last) begins at first, ends at last and has size last - first |
| Gsl.FromArray | include/libcopp/utils/gsl/span.h:202 | a span over an array of N elements has size N |
| Gsl.FromFixed | include/libcopp/utils/gsl/span.h:219 | converting a fixed-extent span keeps its data, size, end and emptiness |
| Gsl.End | include/libcopp/utils/gsl/span.h:234-236 | end is begin plus size, and equals begin exactly when the span is empty |
| Gsl.Index | include/libcopp/utils/gsl/span.h:229-232 | an index below the size reads the element at begin plus the index |
| Gsl.Elements | include/libcopp/utils/gsl/span.h:229-236 | the elements, in order, one per index below the size |
| Gsl.RangeRoundTrip | include/libcopp/utils/gsl/span.h:197-199 | rebuilding a span from its begin and end gives the same span |
| Gsl.RangeAndCountAgree | include/libcopp/utils/gsl/span.h:195-199 | the range and the pointer-and-count constructors build the same span with the same elements |
| Gsl.FixedDefault | include/libcopp/utils/gsl/span.h:118 | the default constructor of the extent-0 span gives a null, empty span |
| Gsl.FixedFromCount | include/libcopp/utils/gsl/span.h:120-124 | a fixed span is built exactly when the count equals the extent; otherwise the program terminates |
| Gsl.FixedFromRange | include/libcopp/utils/gsl/span.h:126-130 | a fixed span is built exactly when last - first equals the extent, and then ends at last |
| Gsl.FixedFromArray | include/libcopp/utils/gsl/span.h:133 | an array of exactly the extent gives a span of that size |
| Gsl.FixedFromContainer | include/libcopp/utils/gsl/span.h:147-152 | a container is accepted exactly when its size equals the extent |
| Gsl.FixedEnd | include/libcopp/utils/gsl/span.h:172 | end is the data pointer plus the extent |
| Gsl.FixedIndex | include/libcopp/utils/gsl/span.h:165-168 | fixed indexing reads the same element as the converted dynamic span |
| Gsl.FixedConstructorsAgree | include/libcopp/utils/gsl/span.h:120-130 | the range constructor succeeds exactly when the count constructor does on last - first, with the same span |
| IdAllocator.StandardLayout | include/libcotask/core/standard_int_id_allocator.h:38-40 | the sequence field is half the width and the time field the other half |
| IdAllocator.Uint64Layout | src/libcopp/utils/uint64_id_allocator.cpp:20-24 | a 24-bit sequence under a 32-bit time field, inside 64 bits |
| IdAllocator.NoCarryIsIncrement | include/libcotask/core/standard_int_id_allocator.h:60-63 | when the increment does not carry into the time part the next id is the previous plus one |
| IdAllocator.RebaseAbove | include/libcotask/core/standard_int_id_allocator.h:50-58 | a rebase puts the new time in the time part with a zero sequence, above every value of an earlier time |
| IdAllocator.IncrementKeepsTimePart | include/libcotask/core/standard_int_id_allocator.h:46-50 | an increment without a carry keeps the time part |
| IdAllocator.WaitForNewTime | include/libcotask/core/standard_int_id_allocator.h:51-54 | consumes clock readings until one differs from the current time part, and returns it; running out of readings is reported |
| IdAllocator.SteadyAfterReading | include/libcotask/core/standard_int_id_allocator.h:51-54 | a clock that only moves forward still does after any of its readings |
| IdAllocator.AllocateRound | include/libcotask/core/standard_int_id_allocator.h:44-65 | one round returns the increment when no carry is due, and otherwise the rebase on the first new time read |
| IdAllocator.AllocateFrom | include/libcotask/core/standard_int_id_allocator.h:36-68 | never returns 0 while readings last; the result is the increment or a rebase, and under a forward-moving clock it is above the previous value |
| IdAllocator.SteadyRound | include/libcotask/core/standard_int_id_allocator.h:44-65 | under a forward-moving clock one round returns a value above the previous one |
| IdAllocator.SequenceAllocator.constructor | include/libcotask/core/standard_int_id_allocator.h:37 | the shared sequence starts at 255 |
| IdAllocator.SequenceAllocator.Allocate | src/libcopp/utils/uint64_id_allocator.cpp:29-53 | the shared sequence moves to the returned id, which is nonzero, the increment or a rebase, and rises under a forward-moving clock |
| IdAllocator.StandardIntIdAllocator.Allocate | include/libcotask/core/standard_int_id_allocator.h:36-68 | never returns npos while readings last and returns rising ids under a forward-moving clock |
| IdAllocator.StandardIntIdAllocator.Deallocate | include/libcotask/core/standard_int_id_allocator.h:70 | deallocation changes nothing |
| IdAllocator.DrawIds | include/libcotask/core/standard_int_id_allocator.h:36-68 | successive ids are nonzero and strictly increasing, hence distinct |
| IdAllocator.Uint64IdAllocator.constructor | src/libcopp/utils/uint64_id_allocator.cpp:102 | the per-thread cache starts with base 0 and inner sequence 0 |
| IdAllocator.Uint64IdAllocator.Allocate | src/libcopp/utils/uint64_id_allocator.cpp:108-127 | refreshes the base when it is 0 or 32 ids were used, then returns base times 32 plus the inner sequence before its increment |
| IdAllocator.Uint64IdAllocator.Deallocate | src/libcopp/utils/uint64_id_allocator.cpp:129 | deallocation changes nothing |
| CmdSegment.TransValue | test/cli/cmd_option.h:309-321 | an escaped character stands for itself except 0 a b f r n t v, which stand for their control characters |
| CmdSegment.SkipSplitBounds | test/cli/cmd_option.h:230 | the leading-separator skip stays inside the text, passes only separators and stops on the terminator or a non-separator |
| CmdSegment.WordEndBounds | test/cli/cmd_option.h:232-236 | the unquoted run holds no terminator, separator or quote and stops at the first of them |
| CmdSegment.SegmentProgress | test/cli/cmd_option.h:225-261 | corrected: the corrected get_segment never steps past the terminator, stops on no separator, and consumes at least one character of a non-empty rest |
| CmdSegment.SegmentAsWrittenAgrees | test/cli/cmd_option.h:237-255 | the source's get_segment cuts the same word as the corrected one, and resumes at the same position except after an unclosed quote, where the corrected one stops on the terminator and the source's steps over it |
| CmdSegment.SegmentAsWrittenProgress | test/cli/cmd_option.h:225-261 | as written, get_segment resumes at most one past the end of the text, and beyond its start whenever there was text to read |
| CmdSegment.PlainWord | test/cli/cmd_option.h:230-236 | outside quotes the word is the unquoted run copied verbatim, with no separator, quote or terminator in it |
| CmdSegment.QuoteBodyOfQuotedAt | test/cli/cmd_option.h:240-251 | reading a quoted section written with escapes gives back the original text and stops on its closing quote |
| CmdSegment.QuoteIsQuotedAt | test/cli/cmd_option.h:240-251 | text written with escapes and a closing quote stands as a quoted section wherever it is placed |
| CmdSegment.SegmentOfQuotedText | test/cli/cmd_option.h:237-255 | a word that is one quoted section ends at its closing quote |
| CmdSegment.QuotedRoundTrip | test/cli/cmd_option.h:225-261 | quoting any terminator-free text with escapes and reading it with get_segment gives the text back and consumes the whole input |
| CmdSegment.QuoteBodyUnclosed | test/cli/cmd_option.h:240-251 | an unclosed quoted section without escapes reads the rest of the text and stops at the terminator |
| CmdSegment.UnclosedQuoteOverrun | test/cli/cmd_option.h:253 | as written, get_segment on an unclosed quote returns a position one past the terminator |
| CmdSegment.UnclosedQuoteStops | test/cli/cmd_option.h:237-255 | the corrected get_segment on the same input reads the rest of the text and stops at the terminator |
| CmdSegment.ReadQuoted | test/cli/cmd_option.h:240-251 | the quoted-section loop appends the section's unescaped text and stops at the closing quote or the terminator |
| CmdSegment.SkipSeparators | test/cli/cmd_option.h:259 | the separator loop stops at the first non-separator |
| CmdSegment.GetSegment | test/cli/cmd_option.h:225-261 | as written: the pointer-walking get_segment computes the word and resume position of `SegmentAsWritten`, stepping once more after a quoted section even at the terminator |
| CmdSegment.SkipCmdSplitBounds | test/cli/cmd_option.h:273 | the command-separator skip passes only separators and stays inside the text |
| CmdSegment.NameEndBounds | test/cli/cmd_option.h:276-279 | a command name holds no separator or terminator and stops at the first of them |
| CmdSegment.WithoutCmdSplitAppend | test/cli/cmd_option.h:305-306 | removing command separators distributes over concatenation |
| CmdSegment.NamesWellFormed | test/cli/cmd_option.h:268-285 | every name split_cmd collects is non-empty and free of space, comma and semicolon |
| CmdSegment.NamesCoverText | test/cli/cmd_option.h:268-285 | the names split_cmd collects, put together, are the text with its command separators removed |
| CmdSegment.NamesStep | test/cli/cmd_option.h:270-282 | one round of split_cmd yields the name after the separators, if any, and continues after it |
| CmdSegment.SkipCmdSeparators | test/cli/cmd_option.h:273 | the loop stops at the first non-separator |
| CmdSegment.ReadName | test/cli/cmd_option.h:276-279 | the loop collects exactly the name up to the next separator |
| CmdSegment.SplitCmd | test/cli/cmd_option.h:268-285 | the loop computes exactly the specification Names, hence non-empty separator-free names covering the text |
| CmdOption.WithRoot | test/cli/cmd_option.h:93-95 | a top-level call finds the root entry on the command stack; a nested call finds the stack as it was |
| CmdOption.DispatchRules | test/cli/cmd_option.h:89-115 | a command runs exactly when it is bound, or when it is not @OnDefault and @OnError is bound; a bound command gets its own callback and the parameters unchanged, an unknown one goes to @OnError with "@ErrorMsg=Command Invalid" appended |
| CmdOption.DispatchStack | test/cli/cmd_option.h:93-113 | the called function finds its own name and callback on top of the command stack, above the root entry for a top-level call |
| CmdOption.LiteralTexts | test/cli/cmd_option.h:94-104 | the root name and the error parameter hold no NUL, so reading them as C strings changes nothing |
| CmdOption.PlanFromCount | test/cli/cmd_option.h:381-416 | with several commands start makes one call per command argument plus the first one |
| CmdOption.PlanFromCmds | test/cli/cmd_option.h:391-415 | every call after the first runs an argument that names a bound command |
| CmdOption.ManyCallsBound | test/cli/cmd_option.h:381-416 | with several commands the first call is @OnDefault, the count of calls is one plus the number of command arguments, and every later call runs a bound command |
| CmdOption.PlanFromParams | test/cli/cmd_option.h:391-394 | the parameters of all the calls, in call order, are exactly the arguments that are not commands, in their order, each converted once; so there are as many as there are non-command arguments |
| CmdOption.Unmarked | test/cli/cmd_option.h:391-394 | the arguments that are not commands, in order: as many as the arguments less the commands |
| CmdOption.PlanFromAdvance | test/cli/cmd_option.h:413-415 | the calls made so far followed by the plan from the next command are the whole plan |
| CmdOption.SinglePlanShape | test/cli/cmd_option.h:396-409 | a single command makes one or two calls (@OnError for leading arguments, then the command with all the rest) and passes on every argument but the command name; with no command it is one @OnError call with everything |
| CmdOption.CollectParams | test/cli/cmd_option.h:391-394 | the argument loop stops at the next command and collects every argument before it |
| CmdOption.CollectRest | test/cli/cmd_option.h:407 | a single command receives every remaining argument |
| CmdOption.AddPathKeeps | test/cli/cmd_option.h:153-169 | adding a command path keeps one help entry per bound object and adds exactly one path |
| CmdOption.FindEntryMisses | test/cli/cmd_option.h:134-139 | when the search reaches the end no entry belongs to the object |
| CmdOption.ListKeeps | test/cli/cmd_option.h:126-171 | list_help_msg keeps one entry per bound object and, on a level without children, adds one path per listed name, skipping empty names and names starting with @ |
| CmdOption.FindEntryOf | test/cli/cmd_option.h:134-139 | the search loop finds the first entry of the object, or the end |
| CmdOption.ListHelpMsg | test/cli/cmd_option.h:126-171 | the loop computes exactly the specification ListFrom |
| CmdOption.JoinPaths | test/cli/cmd_option.h:181-192 | the stringstream loop joins the paths with ", " |
| CmdOption.Dump | test/cli/cmd_option.h:173-213 | every entry gets its joined paths, the command column is a multiple of 4, at least 4, strictly wider than every joined list and no wider than needed, and one line is written per entry |
| CmdOption.DumpLines | test/cli/cmd_option.h:200-210 | one line per entry, each the prefix, the commands padded to the column and the description |
| CmdOption.DumpLineColumn | test/cli/cmd_option.h:203-209 | each line holds the prefix and the commands, spaces up to the column, then the description and a newline |
| CmdOption.Bind.constructor | test/cli/cmd_option.h:291-294 | a new binder has nothing bound and help commands in bold yellow |
| CmdOption.Bind.RunCmd | test/cli/cmd_option.h:89-115 | run_cmd makes exactly the call Dispatch describes and leaves the parameters and command stack that call sees; with no call only the root entry is added |
| CmdOption.Bind.Start | test/cli/cmd_option.h:381-416 | start makes exactly the run_cmd calls of the specification Plan, in order |
| CmdOption.Bind.StartText | test/cli/cmd_option.h:464-477 | a command line is cut with get_segment as written, and start makes the Plan calls on the segments |
| CmdOption.Bind.BindCmdAsWritten | test/cli/cmd_option.h:576-591 | as written, every name of split_cmd runs the new callback, other names keep theirs, and the children map is untouched |
| CmdOption.Bind.BindCmd | test/cli/cmd_option.h:584-588 | corrected: every name of split_cmd runs the new callback and is no longer listed as a child; nothing else changes |
| CmdOption.Bind.BindChildCmd | test/cli/cmd_option.h:601-611 | every name of split_cmd runs the child dispatcher and is listed as a child; nothing else changes |
| CmdOption.Bind.UnbindCmd | test/cli/cmd_option.h:492-496 | the name leaves both the callback and the children maps |
| CmdOption.Bind.UnbindAllCmd | test/cli/cmd_option.h:501-504 | both maps become empty |
| CmdOption.Bind.GetBindedCmd | test/cli/cmd_option.h:348-352 | an object is returned exactly when the name, read as a C string, is bound |
| CmdOption.SegmentsStep | test/cli/cmd_option.h:469-472 | the command line is cut into the first word of get_segment as written followed by the segments of the rest, which start further on |
| CmdOption.StaleChildScenario | test/cli/cmd_option.h:584-588 | rebinding a child's name with bind_cmd as written leaves it listed as a child while it runs the new callback; the corrected binding drops it from the children |
| CmdList.SepEnd | test/cli/cmd_option_list.cpp:45-47 | the key scan stays inside the text and stops on the terminator, a ':' or a '=' |
| CmdList.SepEndOfKey | test/cli/cmd_option_list.cpp:45-47 | on "key:value" or "key=value" with a separator-free key the scan stops right after the key |
| CmdList.EntryOfKey | test/cli/cmd_option_list.cpp:45-56 | a parameter "key:value" or "key=value" maps the key to the first get_segment word after the separator |
| CmdList.SepEndFindsNone | test/cli/cmd_option_list.cpp:45-52 | the scan reaches the terminator exactly when the C string holds neither ':' nor '=' |
| CmdList.EntryNone | test/cli/cmd_option_list.cpp:48-52 | a parameter is skipped exactly when it holds neither ':' nor '=' |
| CmdList.BuildMapLastWins | test/cli/cmd_option_list.cpp:39-57 | a key maps to the value of its last parameter |
| CmdList.BuildMapKeys | test/cli/cmd_option_list.cpp:39-57 | every key in the map comes from some parameter |
| CmdList.ScanKey | test/cli/cmd_option_list.cpp:45-47 | the pointer loop computes the specification SepEnd |
| CmdList.ParseEntry | test/cli/cmd_option_list.cpp:40-56 | one round of the map-building loop computes the specification Entry |
| CmdList.MapOf | test/cli/cmd_option_list.cpp:37-57 | the map-building loop computes the specification BuildMap |
| CmdList.List.constructor | test/cli/cmd_option_list.cpp:18 | a new list is empty, with no map, no command stack and a null extra parameter |
| CmdList.List.FromArgs | test/cli/cmd_option_list.cpp:20-29 | one parameter per argument, in order, each read as a C string |
| CmdList.List.InitKeyValueMap | test/cli/cmd_option_list.cpp:31-58 | the map is built from the parameters once and kept until reset; nothing else changes |
| CmdList.List.Add | test/cli/cmd_option_list.cpp:60 | appends one parameter and changes nothing else |
| CmdList.List.Clear | test/cli/cmd_option_list.cpp:62-67 | empties the parameters, the map and the command stack and nulls the extra parameter |
| CmdList.List.LoadCmdArray | test/cli/cmd_option_list.cpp:69 | replaces the command stack and changes nothing else |
| CmdList.List.AppendCmd | test/cli/cmd_option_list.cpp:71-73 | pushes one command entry |
| CmdList.List.PopCmd | test/cli/cmd_option_list.cpp:75 | removes the last command entry and changes nothing else |
| CmdList.List.Get | test/cli/cmd_option_list.cpp:85-92 | builds the map if needed and returns the key's value, or null when absent |
| CmdList.List.GetOr | test/cli/cmd_option_list.cpp:79-83 | the key's value, or the default when the key is absent |
| CmdList.List.ResetKeyValueMap | test/cli/cmd_option_list.cpp:103 | drops the map so that the next lookup rebuilds it |
| CmdList.List.SetExtParam | test/cli/cmd_option_list.cpp:105 | sets the extra parameter and changes nothing else |
| CmdList.StaleMapScenario | test/cli/cmd_option_list.cpp:35 | a parameter added after a lookup is not seen until the map is reset, then it is |
| CmdOptionValue.CStringTextMeaning | test/cli/cmd_option_value.cpp:27 | the text read as a C string is the longest NUL-free prefix, ending at the first NUL |
| CmdOptionValue.FromCString | test/cli/cmd_option_value.cpp:27 | a NUL-free text is stored as it is |
| CmdOptionValue.FromRange | test/cli/cmd_option_value.cpp:28 | a value built from a range holds exactly end - begin characters |
| CmdOptionValue.ToIntBits | test/cli/cmd_option_value.h:55-64 | the integer conversions yield a value of the target width, 0 for the empty text |
| CmdOptionValue.ToInt8 | test/cli/cmd_option_value.cpp:62-64 | the 8-bit conversions yield a byte |
| CmdOptionValue.ToIntNarrows | test/cli/cmd_option_value.h:55-64 | parsing into a wide type then keeping the low bits is the same as parsing into the narrow type |
| CmdOptionValue.ToInt8IsEightBitParse | test/cli/cmd_option_value.cpp:62-64 | casting the 32-bit conversion down to 8 bits gives the same byte as parsing into 8 bits directly |
| CmdOptionValue.Lower | test/cli/cmd_option_value.cpp:18-24 | each character is lowered one by one and the length is kept |
| CmdOptionValue.LowerIdempotent | test/cli/cmd_option_value.cpp:18-24 | lowering twice is lowering once |
| CmdOptionValue.LogicBoolMeaning | test/cli/cmd_option_value.cpp:78-92 | to_logic_bool is false exactly for the empty text and, ignoring case, no, false, disabled, disable and 0; two texts equal up to case agree |
| CmdOptionValue.LogicBoolFalseWords | test/cli/cmd_option_value.cpp:82-89 | FALSE, No and the empty text are false switches |
| CmdOptionValue.LogicBoolTrueWords | test/cli/cmd_option_value.cpp:91 | Yes, 00 and off are true switches, since only the listed words are false |
| CmdOptionValue.LogicBoolStricterThanBool | test/cli/cmd_option_value.h:66 | a true switch is a true to_bool, and "no" shows the converse fails |
| CmdOptionValue.FindFirst | test/cli/cmd_option_value.cpp:106 | find returns the first delimiter at or after the start, and none means there is none |
| CmdOptionValue.CountPieces | test/cli/cmd_option_value.cpp:95-100 | the reserve count is the number of delimiters plus one |
| CmdOptionValue.Split | test/cli/cmd_option_value.cpp:94-115 | split appends exactly the specification pieces to the output and reserves one more than the delimiter count |
| CmdOptionValue.PiecesFreeOfDelim | test/cli/cmd_option_value.cpp:103-114 | no piece holds the delimiter |
| CmdOptionValue.JoinPieces | test/cli/cmd_option_value.cpp:94-115 | on a NUL-free text not ending with the delimiter, the pieces rejoined with the delimiter give back the text |
| CmdOptionValue.PiecesCount | test/cli/cmd_option_value.cpp:95-114 | there are at most as many pieces as delimiters plus one |
| CmdOptionValue.SplitEnds | test/cli/cmd_option_value.cpp:103-114 | a leading delimiter yields an empty first piece and a trailing delimiter adds no piece |
| CmdOptionValue.PiecesAt | test/cli/cmd_option_value.cpp:106-112 | a delimiter ahead cuts one piece before it and continues after it |
| CmdString.TraitsOrder | test/cli/cmd_option_string.h:20-21 | eq ignores case and is an equivalence; lt is a strict order; exactly one of lt, eq and the reverse lt holds |
| CmdString.CompareFrom | test/cli/cmd_option_string.h:23-34 | the comparison result is -1, 0 or 1 |
| CmdString.Compare | test/cli/cmd_option_string.h:23-34 | the loop computes the specification comparison over the first n characters |
| CmdString.CompareZeroIffEqual | test/cli/cmd_option_string.h:23-34 | compare is 0 exactly when the n characters are equal ignoring case |
| CmdString.CompareAntisymmetric | test/cli/cmd_option_string.h:23-34 | swapping the operands negates the result |
| CmdString.CompareSelf | test/cli/cmd_option_string.h:23-34 | a string compares equal to itself and to its lowercase form over any n |
| CmdString.Find | test/cli/cmd_option_string.h:36-39 | find returns the first position within n matching ignoring case, or null when none does |
| CmdPhoenix.Converted | test/cli/cmd_option_phoenix.h:52-56 | one converted value per parameter, in order |
| CmdPhoenix.Reversed | test/cli/cmd_option_phoenix.h:72-76 | the sequence back to front |
| CmdPhoenix.ReversedTwice | test/cli/cmd_option_phoenix.h:72-76 | reversing twice gives the sequence back |
| CmdPhoenix.Assign | test/cli/cmd_option_phoenix.h:32-36 | the variable becomes the first parameter converted, and is unchanged with no parameter |
| CmdPhoenix.PushBack | test/cli/cmd_option_phoenix.h:52-56 | every parameter, converted, is appended in order after the old contents |
| CmdPhoenix.PushFront | test/cli/cmd_option_phoenix.h:72-76 | the parameters, converted, end up in reverse order before the old contents |
| CmdPhoenix.Insert | test/cli/cmd_option_phoenix.h:92-96 | the set gains exactly the converted parameters |
| CmdPhoenix.SetConst | test/cli/cmd_option_phoenix.h:113 | the variable becomes the stored constant whatever the parameters |
| CmdPhoenix.AssignLogicBool | test/cli/cmd_option_phoenix.h:130-136 | the variable becomes false with no parameter, else the switch meaning of the first |
| CmdPhoenix.OppositeOrders | test/cli/cmd_option_phoenix.h:52-76 | push_back and push_front of the same parameters give them in opposite orders |
| StringOprs.ToLower | test/common/string_oprs.h:70-76 | only A to Z change, each to its lowercase letter |
| StringOprs.ToUpper | test/common/string_oprs.h:85-91 | only a to z change, each to its uppercase letter |
| StringOprs.CaseRoundTrip | test/common/string_oprs.h:70-91 | upper and lower case undo each other on letters, both are idempotent, and their results hold no letter of the other case |
| StringOprs.Negate | test/common/string_oprs.h:142-144 | the two's complement is the additive inverse modulo 2^bits |
| StringOprs.ToInt | test/common/string_oprs.h:100-145 | str2int yields a value of the target width, 0 for a null or empty string |
| StringOprs.ReadDigits | test/common/string_oprs.h:117-140 | each digit loop computes the specification DigitsFrom |
| StringOprs.Str2Int | test/common/string_oprs.h:100-145 | the pointer-walking str2int computes the specification ToInt |
| StringOprs.NegationToggles | test/common/string_oprs.h:107-111 | one more leading minus sign negates the result modulo 2^bits |
| StringOprs.DigitsFromNumeral | test/common/string_oprs.h:117-140 | a digit loop reads exactly the run of digits at its start, as their positional value |
| StringOprs.ReadsHexNumeral | test/common/string_oprs.h:117-129 | after 0x or 0X the hexadecimal run is read up to the first non-hex character |
| StringOprs.ReadsOctNumeral | test/common/string_oprs.h:130-134 | after a backslash the octal run is read up to the first character outside 0 to 7 |
| StringOprs.ReadsDecNumeral | test/common/string_oprs.h:135-139 | a decimal run is read up to the first non-digit, unless it is a 0x prefix |
| StringOprs.DecimalValue | test/common/string_oprs.h:136-139 | the value of the decimal numeral of n is n modulo the width |
| StringOprs.DecimalRoundTrip | test/common/string_oprs.h:100-145 | str2int reads back a decimal numeral as its value modulo 2^bits, and negated after a minus sign |
| StringOprs.HexDigitChar | test/common/string_oprs.h:170-176 | each character hex writes is a hexadecimal digit worth the nibble |
| StringOprs.Hex | test/common/string_oprs.h:166-177 | hex writes exactly two hexadecimal digits |
| StringOprs.Oct | test/common/string_oprs.h:186-190 | oct writes exactly three octal digits |
| StringOprs.HexValue | test/common/string_oprs.h:166-177 | the two digits of hex are worth the byte, high nibble first |
| StringOprs.HexRoundTrip | test/common/string_oprs.h:117-177 | reading back, after 0x, what hex writes for a byte gives the byte |
| StringOprs.OctValue | test/common/string_oprs.h:186-190 | the three digits of oct are worth a byte value |
| StringOprs.OctRoundTrip | test/common/string_oprs.h:130-190 | reading back, after a backslash, what oct writes for a byte gives the byte |
| StringOprs.Item | test/common/string_oprs.h:204-210 | corrected: a byte read as unsigned becomes one printable character or a four-character escape |
| StringOprs.ItemAsWritten | test/common/string_oprs.h:186-190 | as written: the same with the byte read as a signed char, one character or a four-character escape |
| StringOprs.SignedChar | test/common/string_oprs.h:201 | a byte read through `const char *` lies in -128..127 and keeps its value precisely when below 0x80 |
| StringOprs.ItemAgreesBelow0x80 | test/common/string_oprs.h:204-210 | below 0x80 the signed and unsigned readings write the same item |
| StringOprs.ItemRoundTrip | test/common/string_oprs.h:207-210 | an escaped byte reads back as that byte, and its first octal digit is at most 3 |
| StringOprs.SignedEscapeOf0x80 | test/common/string_oprs.h:186-190 | with a signed char the byte 0x80 is escaped as \600 instead of \200 |
| StringOprs.SignedItemOverflows | test/common/string_oprs.h:186-190 | the escape \600 reads back as 384, not the byte 0x80 |
| StringOprs.SerialFrom | test/common/string_oprs.h:200-217 | as written, bytes read as signed char: the buffer form never writes more than the room it has |
| StringOprs.SerialAll | test/common/string_oprs.h:226-238 | as written, bytes read as signed char: the stream form writes at least one character per byte |
| StringOprs.SerialAllPrintable | test/common/string_oprs.h:226-238 | every character serialization writes is printable |
| StringOprs.SerialFromIsPrefix | test/common/string_oprs.h:200-217 | the buffer form writes a prefix of the stream form, all of it when the buffer holds four characters per byte |
| StringOprs.SerialStep | test/common/string_oprs.h:203-213 | an item is written when it fits, and the loop stops at the first that does not |
| StringOprs.WriteAt | test/common/string_oprs.h:208-210 | writes the text at the position and leaves the rest of the buffer alone |
| StringOprs.PutItem | test/common/string_oprs.h:204-213 | one round writes the as-written item of the signed char and advances past it precisely when it fits, and otherwise changes nothing |
| StringOprs.Serialization | test/common/string_oprs.h:200-217 | the buffer form writes precisely `SerialFrom` (bytes read as signed char) at the front of the buffer, reports its length in os, and leaves the rest |
| StringOprs.SerialAllStep | test/common/string_oprs.h:229-237 | one round of the stream form puts a printable byte or writes a backslash and three octal digits |
| StringOprs.SerializationStream | test/common/string_oprs.h:226-238 | the stream form appends the as-written item of every byte, read as signed char, in order |
| StringOprs.HexAll | test/common/string_oprs.h:248-254 | dumphex writes two characters per byte |
| StringOprs.HexAllSnoc | test/common/string_oprs.h:251-253 | one more byte appends its two hex digits |
| StringOprs.HexAllAt | test/common/string_oprs.h:252 | byte i is written at positions 2i and 2i+1 |
| StringOprs.DumpHex | test/common/string_oprs.h:248-254 | exactly two characters per byte are written at the front of the buffer and the rest is left alone |
| StringOprs.DumpHexReadsBack | test/common/string_oprs.h:248-254 | each pair dumphex writes reads back, after 0x, as its byte |
| ShellFont.LowestBit | test/cli/shell_font.cpp:59-68 | the colour scan stops between its start and 8 |
| ShellFont.SpecialsInOrder | test/cli/shell_font.cpp:41-56 | the attributes come in the order bold 1, underline 4, flash 5, dark 2 |
| ShellFont.JoinSnoc | test/cli/shell_font.cpp:41-80 | each new parameter is preceded by ';' unless it is the first |
| ShellFont.FirstSetBit | test/cli/shell_font.cpp:64-66 | the loop over a colour byte returns the index of its lowest set bit |
| ShellFont.PutPart | test/cli/shell_font.cpp:45-47 | one step appends the parameter to the ';'-joined list after ESC '[' |
| ShellFont.PutAttr | test/cli/shell_font.cpp:41-56 | an attribute test adds its parameter exactly when its bit is set |
| ShellFont.PutColor | test/cli/shell_font.cpp:59-80 | a colour test adds the base digit and the lowest set bit exactly when the colour byte is not 0 |
| ShellFont.SpecialsCode | test/cli/shell_font.cpp:34-56 | the attribute part is ESC '[' and the set attributes joined by ';' |
| ShellFont.GetStyleCode | test/cli/shell_font.cpp:34-84 | the step-by-step builder computes exactly the specification StyleCode |
| ShellFont.LowestBitMeaning | test/cli/shell_font.cpp:64-66 | the lowest set bit of a non-zero byte is below 8, is set, and no bit below it is |
| ShellFont.ByteBits | test/cli/shell_font.cpp:59-60 | a colour byte is non-zero exactly when one of its eight bits is set |
| ShellFont.LastSemi | test/cli/shell_font.cpp:41-80 | the position found holds a ';' or is -1 |
| ShellFont.SplitJoin | test/cli/shell_font.cpp:41-80 | a terminal splitting the parameters at ';' gets back exactly the parameters written |
| ShellFont.ApplyAllAppend | test/cli/shell_font.cpp:34-84 | applying two lists of parameters applies one after the other |
| ShellFont.AttrApplies | test/cli/shell_font.cpp:41-56 | a set attribute's parameter is applied and an unset one adds nothing |
| ShellFont.ColorPartApplies | test/cli/shell_font.cpp:59-80 | the parameter of a non-zero colour byte sets the foreground or background to its lowest set bit |
| ShellFont.SpecialsApply | test/cli/shell_font.cpp:41-56 | the attribute parameters turn on exactly the attributes set in the flag |
| ShellFont.PartsApply | test/cli/shell_font.cpp:34-84 | the parameters of the code set exactly the style the flag can show |
| ShellFont.StyleCodeDecodes | test/cli/shell_font.cpp:34-84 | a terminal decoding the code gets back the flag's attributes and lowest foreground and background colours |
| ShellFont.SameCodeSameStyle | test/cli/shell_font.cpp:34-84 | two flags with the same code show the same style |
| ShellFont.YellowBoldCode | test/cli/shell_font.cpp:34-84 | bold yellow, the help style of the command binder, renders as ESC "[1;33m" |
| ShellFont.LowestColorWins | test/cli/shell_font.cpp:59-68 | red and green together render as red alone, ESC "[31m" |
| ShellFont.NullStyleCode | test/cli/shell_font.cpp:34-84 | no style renders as the empty rendition ESC "[m" |
| ShellFont.LowerInPlace | test/cli/shell_font.cpp:162 | the in-place transform lowers every ASCII capital of the terminal name |
| ShellFont.CheckTermColorStatus | test/cli/shell_font.cpp:92-166 | the step-by-step check computes the specification TermColorStatus |
| ShellFont.LoweredForgetsCase | test/cli/shell_font.cpp:22-28 | lowering is idempotent and forgets how the text was cased |
| ShellFont.TermStatusMeaning | test/cli/shell_font.cpp:92-166 | the status is 1 or -1, an unset TERM counts as the empty name, and the case of the name does not matter |
| ShellFont.StyledRecovers | test/cli/shell_font.cpp:175-176 | without colour support or style the input is unchanged; otherwise it is the style code, the input and the close code, and the code decodes to the flag's style |
| ShellFont.TermCache.constructor | test/cli/shell_font.cpp:169 | the cached terminal status starts unknown |
| ShellFont.TermCache.GenerateString | test/cli/shell_font.cpp:168-177 | the terminal is checked once, on the first call, and the result is the styled input for the cached status |
| ShellFont.Stream.constructor | test/frame/shell_font.h:179-184 | a new stream holds no writes |
| ShellFont.StreamOpr.constructor | test/cli/shell_font.cpp:219-229 | a new handle is on the given stream with no style pending |
| ShellFont.StreamOpr.Copy | test/cli/shell_font.cpp:239 | a copy is on the same stream with no style pending |
| ShellFont.StreamOpr.Assign | test/cli/shell_font.cpp:241-250 | assignment takes the other handle's stream and drops the pending style |
| ShellFont.StreamOpr.Close | test/cli/shell_font.cpp:294-326 | a pending style is written as its code and cleared; without a stream or a pending style nothing is written |
| ShellFont.StreamOpr.Reset | test/cli/shell_font.cpp:328-344 | closes, then writes the close code; without a stream nothing happens |
| ShellFont.StreamOpr.Open | test/cli/shell_font.cpp:284-292 | the null style resets the stream; any other style is or-ed into the pending flag and nothing is written |
| ShellFont.StreamOpr.Write | test/frame/shell_font.h:179-184 | writing a value first writes the pending style, then the value |
| ShellFont.StreamOpr.WriteNull | test/cli/shell_font.cpp:253-257 | writing nullptr first writes the pending style, then the text "nullptr" |
| ShellFont.StreamOpr.Destroy | test/cli/shell_font.cpp:231-237 | a handle on a stream resets it when it goes away |
| ShellFont.FlattenThree | test/frame/shell_font.h:179-184 | three writes leave their texts one after the other |
| ShellFont.StreamStyled | test/cli/shell_font.cpp:260-344 | a style, then an input, then the handle going away writes the same text GenerateString returns on a colour terminal |
| ShellFont.StreamReset | test/cli/shell_font.cpp:284-292 | streaming the null style writes the close code before the input, and the handle's end writes it again |
| TestManager.Zeros | test/frame/test_manager.cpp:193-197 | the nodes with zero dependency count, each exactly once and in index order, and no other node |
| TestManager.Ready | test/frame/test_manager.cpp:193-197 | the first pass of `topological_sort` emits exactly the zero-count nodes in index order |
| TestManager.ReleaseStep | test/frame/test_manager.cpp:202-208 | releasing one dependent decrements its count, appends it exactly when the count reaches zero, and keeps the sort invariant (count = dependencies not yet processed) |
| TestManager.DecrementCounts | test/frame/test_manager.cpp:202-203 | every dependent in the list still holds a positive count, and after one decrement each count equals its pending dependencies plus the dependents still to release |
| TestManager.EmitAfter | test/frame/test_manager.cpp:205-207 | a node appended when all its dependencies are already emitted keeps "every node after its dependencies" |
| TestManager.Release | test/frame/test_manager.cpp:200-209 | processing node i's `depend_by` list only appends to the output and restores the sort invariant |
| TestManager.ReadyState | test/frame/test_manager.cpp:193-197 | the zero-count nodes are a valid start of the sort |
| TestManager.AdvanceState | test/frame/test_manager.cpp:199-200 | moving to the next emitted node starts the release of its `depend_by` list |
| TestManager.FinalState | test/frame/test_manager.cpp:199-210 | at the end every count is the number of unemitted dependencies, and every node whose dependencies are all emitted is emitted |
| TestManager.Drain | test/frame/test_manager.cpp:199-210 | the outer loop runs until it reaches the end of the growing output, which only grows |
| TestManager.Link | test/frame/test_manager.cpp:227-241 | a link to a known name adds one `depend_by` edge and one count; a link to an unknown name adds nothing |
| TestManager.NameObjects | test/frame/test_manager.cpp:217-222 | each name's node holds the object of the last event registered under that name |
| TestManager.LinkAll | test/frame/test_manager.cpp:224-242 | the graph has an edge u→v exactly when some event named v asks to run after u, and the counts match the edges |
| TestManager.NameIndex.Build | test/frame/test_manager.cpp:216-242 | the index of names built by the two passes: last object per name, exactly the requested edges between known names |
| TestManager.NameIndex.TopologicalSort | test/frame/test_manager.cpp:188-211 | output starts with the zero-count nodes, holds each node at most once and after all its dependencies, is closed (no node left with all dependencies emitted), and a node's count is zero exactly when it is emitted |
| TestManager.EmittedByRank | test/frame/test_manager.cpp:188-211 | in an acyclic graph (one with a rank that grows along edges) a closed output holds every node |
| TestManager.AcyclicAllEmitted | test/frame/test_manager.cpp:188-211 | for an acyclic graph every node is emitted |
| TestManager.PathEmittedEarlier | test/frame/test_manager.cpp:188-211 | along a dependency path, the start is emitted before the end |
| TestManager.CycleNeverEmitted | test/frame/test_manager.cpp:188-211 | a node on a cycle is never emitted |
| TestManager.NamesOf | test/frame/test_manager.cpp:247-253 | the names of the emitted nodes, position by position |
| TestManager.NamesFollowNodes | test/frame/test_manager.cpp:244-253 | the run order of names is duplicate-free, drawn from the registered names, runs every event after the events it names, and leaves out only events waiting on a left-out event |
| TestManager.NamesOfDistinct | test/frame/test_manager.cpp:247-253 | distinct nodes give distinct registered names |
| TestManager.NamesAfterLinks | test/frame/test_manager.cpp:244-253 | every on-start event runs after every known event it asks to follow |
| TestManager.NamesLeftOutWait | test/frame/test_manager.cpp:244-253 | an event that does not run waits on an event that does not run |
| TestManager.RunsByRank | test/frame/test_manager.cpp:244-253 | with acyclic links a given registered event runs |
| TestManager.EventsAcyclicAllRun | test/frame/test_manager.cpp:244-253 | with acyclic links every registered event runs |
| TestManager.BackwardsRunsBefore | test/frame/test_manager.cpp:292-299 | the reversed order runs every on-exit event before the events it names |
| TestManager.LessIrreflexive | test/frame/test_manager.h:27 | the ordering of the group map's string keys is irreflexive |
| TestManager.LessTotal | test/frame/test_manager.h:27 | the key ordering is total and asymmetric |
| TestManager.LessTransitive | test/frame/test_manager.h:27 | the key ordering is transitive |
| TestManager.CasesOfAbsent | test/frame/test_manager.cpp:151 | a group name not in the map has no cases |
| TestManager.CasesOfAt | test/frame/test_manager.cpp:151 | in an ordered map each entry's cases are those found under its name |
| TestManager.FindGroup | test/frame/test_manager.cpp:151 | the lookup position: every key before it is smaller than the name, the key at it is not |
| TestManager.AppendedToEntry | test/frame/test_manager.cpp:151 | appending to an existing group adds the case at the end of that group only and keeps the map ordered |
| TestManager.InsertedAscending | test/frame/test_manager.cpp:151 | inserting a new group at its lookup position keeps the keys ordered |
| TestManager.InsertedCases | test/frame/test_manager.cpp:151 | a new group holds just the appended case and no other group changes |
| TestManager.SelectedIn | test/frame/test_manager.cpp:339-355 | the cases of a group that pass the filter are at most the cases looked at |
| TestManager.Passes | test/frame/test_manager.cpp:364-365 | the successes never exceed the cases run |
| TestManager.Tally | test/frame/test_manager.cpp:364-374 | every case run counts as exactly one success or one failure, and there are no failures exactly when every case run reported none |
| TestManager.GroupPart | test/frame/test_manager.cpp:420-423 | the text before the first '.', when there is one: the name is that text, a '.', and the rest |
| TestManager.GroupPartOf | test/frame/test_manager.cpp:420-423 | a dotted name gives back its (dot-free) group |
| TestManager.NotEnteredRunsNothing | test/frame/test_manager.cpp:326-329 | a group neither named nor holding a named case runs nothing |
| TestManager.AllOfGroup | test/frame/test_manager.cpp:340 | with an empty case list every case of a group runs, in order |
| TestManager.NoNamesRunAll | test/frame/test_manager.cpp:315 | with an empty case list every case of every group runs, groups in key order |
| TestManager.NamedCaseOnly | test/frame/test_manager.cpp:340-349 | naming `group.case` runs exactly that case |
| TestManager.NamedGroupOnly | test/frame/test_manager.cpp:318-320 | naming a group runs exactly the cases of that group |
| TestManager.PassesAppend | test/frame/test_manager.cpp:364-374 | success and failure counts add up over concatenated runs |
| TestManager.SelectedStep | test/frame/test_manager.cpp:339-355 | one more case looked at adds it exactly when the filter lets it through |
| TestManager.PassesSnoc | test/frame/test_manager.cpp:364-374 | one more case run adds one success if it reported no failure, one failure otherwise |
| TestManager.RunGroup | test/frame/test_manager.cpp:339-377 | the loop over one group runs exactly the selected cases and counts their successes and failures |
| TestManager.Collect | test/frame/test_manager.cpp:247-253 | the on-start loop runs the emitted nodes' objects in emitted order |
| TestManager.CollectBackwards | test/frame/test_manager.cpp:292-299 | the on-exit loop runs the emitted nodes' objects in reverse order |
| TestManager.Manager.constructor | test/frame/test_manager.cpp:143-146 | no groups, no events, no filters, both counters zero |
| TestManager.Manager.AppendTestCase | test/frame/test_manager.cpp:150-152 | the case is appended to its group's list (created when absent); every other group and all other state stay as they were |
| TestManager.Manager.AppendEventOnStart | test/frame/test_manager.cpp:154-156 | the event is appended to the on-start list; nothing else changes |
| TestManager.Manager.AppendEventOnExit | test/frame/test_manager.cpp:158-160 | the event is appended to the on-exit list; nothing else changes |
| TestManager.Manager.SetCases | test/frame/test_manager.cpp:414-425 | run_cases becomes exactly the given names and run_groups exactly the group parts of the dotted ones, replacing the old filters |
| TestManager.Manager.Run | test/frame/test_manager.cpp:304-410 | runs exactly the selected cases, sets success/failed to their counts, and returns 0 without failures and -failed otherwise |
| TestManager.Manager.RunEventOnStart | test/frame/test_manager.cpp:213-256 | returns 0, runs each known event at most once, after every event it names, leaving out only events waiting on left-out ones, each with its last registered object |
| TestManager.Manager.RunEventOnExit | test/frame/test_manager.cpp:258-302 | returns 0, runs each known event at most once, before every event it names, leaving out only events waiting on left-out ones |
| TestManager.Strcmp | test/frame/test_manager.cpp:111-113 | a three-way result, -1, 0 or 1 |
| TestManager.StrcmpMeaning | test/frame/test_manager.cpp:111-113 | `strcmp` is 0 exactly when the texts up to the first NUL agree, and swapping the arguments negates it |
| TestManager.ParamCompareOrder | test/frame/test_manager.cpp:115-124 | `pick_param_str_t` compares equal exactly when the C texts agree, and less one way exactly when greater the other way |
| PrintColor.ColourNumbering | project/cmake/print_color.py:14-21 | the colour constants number colours by blue, green and red as bits 1, 2 and 4, while the ECMA-48 colour index numbers them by red, green and blue |
| PrintColor.TermCodeIsSgr | project/cmake/print_color.py:119-139 | every terminal code is the decimal numeral of the SGR parameter of section 8.3.117 of ECMA-48 for the same colour (30-37 foreground, 40-47 background, 1 bold) |
| PrintColor.NameLetters | project/cmake/print_color.py:163-183 | colour names hold no '"' and no '<' |
| PrintColor.DeclPlain | project/cmake/print_color.py:163-183 | a declaration built from such a prefix and a colour name holds no '"' and no '<' |
| PrintColor.HtmlDeclPlain | project/cmake/print_color.py:163-183 | no CSS declaration of the table can close the style attribute or open a tag |
| PrintColor.Win32AttrShowsColour | project/cmake/print_color.py:58-78 | a foreground code sets the colour's blue/green/red bits (with intensity except black and white), a background code the same bits four places up, bold the background intensity, and only the two black codes give 0 |
| PrintColor.Repeat | project/cmake/print_color.py:310-311 | n copies of the value |
| PrintColor.Output.constructor | project/cmake/print_color.py:80-84 | an output stream with nothing written, in the given console attribute |
| PrintColor.Output.Write | project/cmake/print_color.py:98 | the text is appended, each character in the current attribute; the attribute is unchanged |
| PrintColor.TermCodes | project/cmake/print_color.py:142-144 | the code of each option, in order |
| PrintColor.GatherStyle | project/cmake/print_color.py:142-144 | the loop collects the table entry of each option in order |
| PrintColor.TermWrite | project/cmake/print_color.py:141-159 | the terminal back end appends the terminal text and leaves the attribute alone |
| PrintColor.TermCodeDigits | project/cmake/print_color.py:119-139 | a code holds no ';' and no 'm' |
| PrintColor.JoinAvoids | project/cmake/print_color.py:147 | joining words that lack a character, with another separator, gives a text lacking it |
| PrintColor.TermTextMeaning | project/cmake/print_color.py:146-149 | with no option the text is written unchanged; otherwise it is ESC "[" + the codes joined by ';' + "m" + text + ESC "[0m", and splitting the parameter string at ';' gives back exactly the SGR parameters of the options |
| PrintColor.ReplaceAppend | project/cmake/print_color.py:191 | replacing a character distributes over concatenation |
| PrintColor.ReplaceOther | project/cmake/print_color.py:191 | replacing a character that is absent changes nothing |
| PrintColor.ReplaceOne | project/cmake/print_color.py:191 | on one character, replacement is that character's substitute or itself |
| PrintColor.EscapeAppend | project/cmake/print_color.py:191 | HTML escaping distributes over concatenation |
| PrintColor.EscapeOne | project/cmake/print_color.py:191 | one character escapes to its entity (the replacements in turn do not re-escape each other's output) |
| PrintColor.EscapeByChar | project/cmake/print_color.py:191 | the three replacements in a row escape every character on its own |
| PrintColor.UnescapeCons | project/cmake/print_color.py:191 | an escaped character followed by more text reads back as that character followed by the rest |
| PrintColor.UnescapeEach | project/cmake/print_color.py:191 | reading back a text escaped character by character gives the text |
| PrintColor.EscapeEachPlain | project/cmake/print_color.py:191 | escaped text holds no '<' or '>', and no '"' unless the text had one |
| PrintColor.EscapeRoundTrip | project/cmake/print_color.py:191 | escaping can be undone exactly, and the escaped text holds no '<' or '>' |
| PrintColor.HtmlDecls | project/cmake/print_color.py:186-188 | the CSS declaration of each option, in order |
| PrintColor.HtmlWrite | project/cmake/print_color.py:185-203 | the HTML back end appends the HTML text and leaves the attribute alone |
| PrintColor.HtmlTextMeaning | project/cmake/print_color.py:190-193 | with no option the escaped text alone; otherwise one span whose style attribute holds the declarations joined by single spaces (no '"' or '<' inside) around the escaped text, which reads back as the text |
| PrintColor.NoneWrite | project/cmake/print_color.py:205-211 | the none back end appends the text unchanged whatever the options |
| PrintColor.GatherWin32Style | project/cmake/print_color.py:94-96 | the loop ORs the attribute bits of every option, starting from 0 |
| PrintColor.Win32StyleUnion | project/cmake/print_color.py:94-96 | the style of two option lists is the OR of their styles, so order and repetition do not matter |
| PrintColor.Win32StylePlain | project/cmake/print_color.py:97 | the style is 0 exactly when every option is one of the two black codes |
| PrintColor.Win32Write | project/cmake/print_color.py:93-115 | the console back end appends the text; with style 0 in the current attribute, otherwise in the style, after which the attribute is the one `get_cmd_color` reports |
| PrintColor.AutoModeNeverSettles | project/cmake/print_color.py:216-219 | with CPRINTF_MODE itself "auto" or empty, the automatic mode calls itself again forever: no fuel is enough to select a back end |
| PrintColor.LiteralNames | project/cmake/print_color.py:225 | the literal names the automatic choice passes are already lower case and are not "auto" |
| PrintColor.StepKeepsChoice | project/cmake/print_color.py:214-257 | one step of `cprintf_set_mode` either selects the corrected choice or recurses on a name with the same corrected choice |
| PrintColor.SelectEngineAgrees | project/cmake/print_color.py:214-257 | whenever the source's recursion selects a back end it is the corrected choice, and it always selects it within three calls unless CPRINTF_MODE is itself automatic |
| PrintColor.SelectEngineMeaning | project/cmake/print_color.py:239-257 | an explicit name decides regardless of the environment, and the choice ignores letter case |
| PrintColor.ConsoleOnlyOnWindows | project/cmake/print_color.py:220-245 | the console back end is selected only by its name or on Windows |
| PrintColor.UnpackText | project/cmake/print_color.py:259-268 | with no arguments the format is returned unchanged |
| PrintColor.Printer.constructor | project/cmake/print_color.py:280 | loading the script selects the automatic back end |
| PrintColor.Printer.SetMode | project/cmake/print_color.py:214-257 | the selected back end is the (corrected) choice for the name and environment |
| PrintColor.Printer.Print | project/cmake/print_color.py:270-278 | the unpacked text goes out through the selected back end |
| PrintColor.LookUp | project/cmake/print_color.py:14-32 | a found code has exactly that attribute name; not found means no code from there on has it |
| PrintColor.StyleByName | project/cmake/print_color.py:307-308 | `key in print_style.__dict__`: a found code has that attribute name, and not found means no code has it |
| PrintColor.KnownStyles | project/cmake/print_color.py:303-308 | the known names never outnumber the names given |
| PrintColor.AppendKnown | project/cmake/print_color.py:306-308 | the loop appends the codes of exactly the known names, in order |
| PrintColor.AppendBold | project/cmake/print_color.py:310-311 | the loop appends one bold per `-B` |
| PrintColor.CollectOptions | project/cmake/print_color.py:303-311 | the options are the known `-c` colours, then the known `-b` colours, then one bold per `-B` |
| PrintColor.ColourKey | project/cmake/print_color.py:303-307 | "FC_"/"BC_" plus the raised name finds a code exactly when the name is a colour name in some case, and the code is on the asked side |
| PrintColor.KnownStylesSnoc | project/cmake/print_color.py:306-308 | one more name adds its code when it is known and nothing otherwise |
| PrintColor.KnownStylesRange | project/cmake/print_color.py:303-308 | `-c` names give foreground codes and `-b` names background codes |
| PrintColor.KnownStylesAll | project/cmake/print_color.py:303-308 | a list keeps all its names exactly when every one is a colour name |
| PrintColor.ColourNamesSnoc | project/cmake/print_color.py:303-308 | every name is a colour name exactly when every earlier one is and the last one is |
| TemplateParams.GenComment | include/libcotask/core/util.php:4-11 | the loop builds exactly the comment text of `n` lines |
| TemplateParams.CommentLines | include/libcotask/core/util.php:4-11 | the comment is `n` lines, line i being "<indent> * @param arg<i> <msg> parameter <i>", each ended by a line feed |
| TemplateParams.CommentStep | include/libcotask/core/util.php:6-8 | one more parameter appends one documentation line |
| TemplateParams.Lines | include/libcotask/core/util.php:7 | the n documentation lines, line i about parameter i |
| TemplateParams.NumHasNoEol | include/libcotask/core/util.php:7 | a numeral holds no line feed |
| TemplateParams.LineTextHasNoEol | include/libcotask/core/util.php:7 | a documentation line holds no line feed when its prefixes hold none |
| TemplateParams.TypenameStep | include/libcotask/core/util.php:15-20 | the first parameter is written with the prefix, each later one after ", ", and the text is never empty again |
| TemplateParams.TypenameSnoc | include/libcotask/core/util.php:15-20 | one more parameter adds a comma and its "typename TARG<i>" item |
| TemplateParams.GenTypename | include/libcotask/core/util.php:13-23 | the loop builds the typename list, which is empty exactly when there are no parameters |
| TemplateParams.TypenameItems | include/libcotask/core/util.php:13-23 | split at commas the list is exactly the n items, the first carrying the prefix |
| TemplateParams.NumHasNoComma | include/libcotask/core/util.php:17-19 | a numeral holds no comma |
| TemplateParams.TypeParamStep | include/libcotask/core/util.php:27-32 | the first parameter is written with both prefixes, each later one after "," and the qualifier |
| TemplateParams.TypeParamSnoc | include/libcotask/core/util.php:27-32 | one more parameter adds a comma and its "<vol> TARG<i> arg<i>" item |
| TemplateParams.GenTypeParam | include/libcotask/core/util.php:25-34 | the loop builds the parameter list, empty exactly when there are no parameters |
| TemplateParams.TypeParamItems | include/libcotask/core/util.php:25-34 | split at commas the list is exactly the n declarations |
| TemplateParams.UseParamStep | include/libcotask/core/util.php:38-43 | the first argument is written with both prefixes, each later one after "," and the qualifier |
| TemplateParams.UseParamSnoc | include/libcotask/core/util.php:38-43 | one more parameter adds a comma and its "<vol> arg<i>" item |
| TemplateParams.GenUseParam | include/libcotask/core/util.php:36-45 | the loop builds the argument list, empty exactly when there are no parameters |
| TemplateParams.UseParamItems | include/libcotask/core/util.php:36-45 | split at commas the list is exactly the n arguments |
| TemplateParams.SingleDigitIndices | include/libcotask/core/util.php:2 | below the maximum of 10 parameters every index is one decimal digit |
| Text.JoinSnoc | project/cmake/print_color.py:147 | one more word puts a separator before it unless it is the first |
| Text.Split | project/cmake/print_color.py:147 | the pieces between separators: never fewer than one |
| Text.SplitJoin | project/cmake/print_color.py:147 | splitting a join of separator-free words gives the words back |
| Text.Lower | project/cmake/print_color.py:215 | each character lowered by the ASCII rule, length kept |
| Text.Upper | project/cmake/print_color.py:303 | each character raised by the ASCII rule, length kept |
| Text.LowerUpper | project/cmake/print_color.py:215 | lowering forgets the case (raising first makes no difference) and is idempotent |

## Left out

- The platform context switch (`jump_to`, fcontext and Windows fibers). It is an abstract step whose outcome (yielded or finished) is a parameter.
- Concurrency. Atomics and compare-and-set loops are single-threaded here: a compare-and-set fails only when the status it expected was a stale hint, and the one retry uses the status it read. Thread-local storage (the per-thread `this_task`/`this_coroutine` slots, the id allocators' per-thread caches) is one object.
- `mmap`/`VirtualAlloc`/`malloc` and the other allocation system calls. The allocator's answer is a parameter; the pool records what it gives back.
- Floating point. `get_expire_time` and the timing output of `test_manager::run` are not modelled, and neither is `to<T>` through a string stream for `double`, `float` and other stream-read types.
- Output text and colours that carry no state. This covers the progress lines of the test manager and the warning for an unknown event name (the skip itself is modelled), the colours of `dump`, and `-v/--version`.
- `eval` of backslash escapes (`-e`) in `print_color.py`. It is Python evaluation.
- `str.format`. It is the parameter `format` of `PrintColor.UnpackText`.
- The byte-encoding fallback of `cprintf_unpack_text` and the choice of stdout or stderr. Both streams behave alike and are one output object.
- The ctypes console handles and `SetConsoleTextAttribute`. The console attribute is a field of the output object. After a coloured write it becomes the value `get_cmd_color` reports, which is what the source restores.
- Python's `str.lower`/`str.upper` and PHP's `"$i"` beyond ASCII. Only ASCII case is modelled, and numerals are decimal.
- `PHP_EOL` is the Unix line feed.
- The Win32 console branch of `shell_font`'s `shell_stream`. It is not part of this model; the terminal branch is.
- The iteration order of `std::map`/`std::unordered_map` in `test/cli` and of `UTIL_UNIT_TEST_MACRO_AUTO_MAP` in `test/frame`. It is a parameter (a key sequence) where the source's result depends on it. `std::sort` in `dump` is left out: the listing is taken as given in sorted order.
- GeneratorPromise.GeneratorAwaitable.AwaitResume requires a context. An awaitable built without one, which the source answers with the error transform of `kInvalid`, is covered only by `Detach`, whose status is `kInvalid` there.
- GeneratorPromise.GeneratorAwaitable.AwaitResume returns the error transform of `kDone` when the detach status is `kDone` only because the caller itself finished while the context holds no value. The source reads `*data()` of that empty context there, which is undefined; the model gives the transform instead.
- CmdString.CompareFrom reads characters as unsigned code points. The source compares `char` values, which are signed on x86, so bytes of 0x80 or more sort below ASCII there, and `toupper` of a negative `char` is undefined.
- CmdString.Compare reads characters as unsigned code points, as `CmdString.CompareFrom` does.
- The user callbacks of the generator's `await_suspend`/`await_resume`, and a user waker in `Futures.Context.Wake`. These are recorded calls, not run.
- The generator destructor's frame bookkeeping and `has_multiple_callers`. The latter is declared but not defined, and only picks copy or move.
- `yield_value` of `pick_promise_status_awaitable`. It only reads the status field, which the promise status functions model.
- The stack pool's trivial setters and getters (`set_max_stack_size`, `get_limit`, …) and `cmd_option`'s `get_cmd_names`, `size` and style setters. These only store or return a field.
- The boost.test branch of `test_manager::run` and the `run_tests` command-line front end.
- CoroutineManager.Manager.Create requires fewer than `modulus - 1` live nodes. When every key is in use the source loops forever, so the model demands a free key among the next draws.
- IdAllocator.SequenceAllocator.Allocate returns 0 when the clock readings run out. The source waits for the clock for ever.
- IdAllocator.StandardIntIdAllocator.Allocate returns 0 when the clock readings run out, for the same reason.
- IdAllocator.Uint64IdAllocator.Allocate returns 0 when the clock readings run out, for the same reason.
- IntrusivePtr.AddRef counts with an unbounded `nat`. Overflow of the reference count is not modelled.
- CmdOption.ListHelpMsg follows child dispatchers for at most `fuel` levels. The source recurses without a bound and would not end on a cycle of dispatchers.
- CmdOptionValue.ToIntBits reads `int` and `unsigned int` as 32 bits and `long long` as 64 bits. For a signed target, `str2int` multiplies, shifts and negates in signed arithmetic, where overflow is undefined; the model, like StringOprs.ToInt and StringOprs.Str2Int, wraps modulo 2^bits there.
- `char` is taken to be a signed 8-bit type, as on x86, wherever the test frame reads text bytes through `char` (`serialization`). Where `char` is unsigned the source writes the corrected `StringOprs.Item` instead.
- StdCoroutine.IntegerErrorTransform gives the value before the `static_cast` to the coroutine's result type. An unsigned result type receives the wrapped-around residue of that value instead, which is not modelled.
- Running a task's successors between two kills. `kill` starts or resumes every CREATED or WAITING successor at once (`active_next_tasks`), so in the source a successor that is also managed can run, and even reach DONE, before `reset` or `tick` comes to it. Here each kill returns those calls in its `Dispatch` plan instead, and a managed successor keeps its status until the caller carries out the plan. The members below state the statuses before that plan runs.
- TaskManagers.Killing: a managed successor of the killed task is not started or resumed, so no other status changes; in the source it may run.
- TaskManagers.KillEach: a successor started by an earlier kill does not run before its own turn, so it ends KILLED; in the source it may have finished first and be skipped as exiting.
- TaskManagers.TaskManager.Reset: the statuses it states are those of `KillEach`, with the successors' calls left in the returned plan.
- TaskManagers.TaskManager.ExpireFirst: the other statuses are unchanged only because the killed task's successor calls are returned, not run.
- TaskManagers.TaskManager.ExpireDue: the timed-out statuses assume that no successor of a killed task runs during the loop; their calls are returned as one plan.
- TaskManagers.TaskManager.TickAsWritten: the timed-out statuses are those of `ExpireDue`, before the returned plan runs.
- TaskManagers.TaskManager.Tick: the same as `TickAsWritten`.
- TaskManagers.TaskManager.AdvanceAsWritten: the later-tick statuses are those of `ExpireDue`, before the returned plan runs.
- TaskManagers.TaskManager.Advance: the same as `AdvanceAsWritten`.
- Reading past the terminator of a C string, which `get_segment` as written does after an unclosed quote, is modelled as reading another NUL. In the source it reads whatever memory follows, which is undefined.
- The character tables of `cmd_option` (`map_value_`, `trans_value_`) are taken as filled by their static initialiser. The model reads them as fixed predicates.
- The atomic integer: a scenario chaining `fetch_add` and `fetch_sub` on 64-bit values is not stated. The single-operation contracts and the xor and increment round trips are.

## Findings

| source | as written | input that shows it | evidently intended | confidence | as-written member | corrected member |
|---|---|---|---|---|---|---|
| include/libcopp/stack/stack_pool.h:292-306 | `clear` gives every cached stack back to the origin allocator and zeroes the free counters, but does not empty `free_list_` | a pool with one freed stack is cleared, then allocated from: `allocate` hands out the stack already given back | `clear` also empties the free list, so the next `allocate` asks the allocator for a fresh stack | not executed | StackPool.ClearAsWrittenThenAllocateReusesReturnedStack | StackPool.ClearThenAllocateTakesFreshStack |
| src/libcopp/stack/allocator/stack_allocator_memory.cpp:85-91 | the requested size is rounded up to whole pages, and the result is checked against the attached buffer only by a debug `assert`; release builds overrun | a 10000-byte buffer, 4 KiB pages, a 10000-byte request: the context reports 12288 bytes, ending 2288 bytes past the buffer | the rounded size never passes the buffer | not executed | StackAllocatorMemory.UnalignedBufferOverrun | StackAllocatorMemory.UnalignedBufferFitted |
| include/libcotask/task.h:420-427 | the rvalue `then(functor)` overload lacks a `return` in the branch for a task without a coroutine, so control falls through to a read of the null coroutine | a task created without a coroutine, chained with `then(functor)` | that branch returns the task it chained | not executed | Tasks.ThenFunctorOnTaskWithoutCoroutine | Tasks.Task.ThenFunctor |
| include/libcotask/task_manager.h:679 | the first tick shifts every checkpoint into a new set and then swaps the timer set with itself, so the shifted set is discarded | a task with a 10 s timeout, then ticks at 1000 s and 1001 s: the second tick times it out | the first tick keeps the shifted checkpoints (swap with the new set) | not executed | TaskManagers.FirstTickTimeoutAsWritten | TaskManagers.FirstTickTimeoutCorrected |
| include/libcopp/future/storage.h:398-406 | the trivial result's `swap` exchanges the modes but copies only the bytes of the left result's own union member | a 4-byte success swapped with an 8-byte error: the left result becomes an error whose upper four bytes are leftovers | the whole storage is exchanged | not executed | FutureStorage.SwapAsWrittenLosesWideError | FutureStorage.SwapKeepsWideError |
| include/libcopp/coroutine/callable_promise.h:239-243 | move assignment takes the other future's handle without destroying the frame it owned before | futures owning frames 1 and 2, `a = std::move(b)`, both destroyed: frame 1 stays alive with no owner | the old frame is destroyed first | not executed | Callables.MoveAssignLeaksFrame | Callables.MoveAssignReleasesFrame |
| include/libcopp/coroutine/algorithm_common.h:252-254 | the number of futures to wait for is clamped by the size of the caller's output container, not by the number pending | `all` over four futures, two ready, empty output: the first one that finishes ends the wait while the fourth is pending | the bound counts the futures still pending | not executed | SomeAlgorithm.AllStopsEarlyAsWritten | SomeAlgorithm.AllWaitsForEveryFuture |
| test/cli/cmd_option.h:253 | after a quoted segment the pointer is advanced once more, even when the loop stopped at the terminator of an unclosed quote | the text `"abc` (quote never closed): the returned position is one past the terminator | advance only past a closing quote | not executed | CmdSegment.UnclosedQuoteOverrun | CmdSegment.UnclosedQuoteStops |
| test/common/string_oprs.h:186-190 | `oct` shifts a possibly signed `char`, so a byte of 0x80 or more is sign-extended | the byte 0x80 is written `\600`, which `str2int` reads as 384 | `\200`, the byte's own three octal digits | not executed | StringOprs.SignedItemOverflows | StringOprs.ItemRoundTrip |
| test/cli/cmd_option.h:584-588 | `bind_cmd` stores the callback under each name but leaves the name in `callback_children_` | a name bound to a child dispatcher, then rebound to a plain callback: the help listing still treats it as the child | binding a name removes it from the children map, as `unbind_cmd` does | not executed | CmdOption.StaleChildScenario | CmdOption.Bind.BindCmd |
| project/cmake/print_color.py:216-219 | in automatic mode `cprintf_set_mode` calls itself with `CPRINTF_MODE` without checking that value | `CPRINTF_MODE=auto` (or empty): the call recurses until the interpreter's depth limit | an automatic value of `CPRINTF_MODE` falls through to the platform detection | not executed | PrintColor.AutoModeNeverSettles | PrintColor.SelectEngineAgrees |
