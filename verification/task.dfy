/** `cotask::task` (task.h, with the members it inherits from task_impl.cpp): a task owns one
    coroutine, moves through the task status machine by compare-and-set, notifies its action
    when it finishes and then hands over to the tasks queued behind it.

    The coroutine body is not code here: every call that runs it takes a `Body` saying how the
    run ends, whether the body kills its own task meanwhile, and the code the runner returns when
    a finish notification drives the coroutine to completion. Successors are not run from inside
    a task: the start or resume calls `active_next_tasks` makes are returned, in order, as a
    `Dispatch` plan. */
module Tasks {
  import opened CoppErrors
  import opened SizeArith
  import opened Optional
  import opened TaskImpl
  import CH = CoroutineContextH
  import CC = CoroutineContext

  /** `sizeof(impl::task_impl *)`. */
  const SIZEOF_TASK_POINTER: nat := 8

  /** One entry of `next_list_`: a successor and the `priv_data` to give it. */
  datatype NextEntry = NextEntry(task: Task?, privData: int)

  /** A call `active_next_tasks` makes on a successor. */
  datatype Dispatch = StartWith(task: Task, privData: int) | ResumeWith(task: Task, privData: int)

  /** What the coroutine body does to its own task before control comes back: nothing, or
      `kill(to, privData)` from inside, which only records the status and the data. */
  datatype BodyEffect = Untouched | KilledInside(to: TaskStatus, privData: int)

  /** The coroutine body as far as one call that runs it can see. */
  datatype Body = Body(outcome: CC.RunOutcome, effect: BodyEffect, finalCode: int)

  /** One entry of `next_std_handles_`: a C++20 coroutine handle waiting for the task, under a
      list position (`slot`) that stays valid until the entry is erased. */
  datatype StdWaiter = StdWaiter(slot: nat, handle: nat)

  /** What `active_next_tasks` does with one successor: nothing for a null or INVALID task, a
      start for one that has not run yet, a resume otherwise. */
  function Decide(e: NextEntry): (r: seq<Dispatch>)
    reads (if e.task == null then {} else {e.task})`status
    ensures |r| <= 1
    ensures r == [] <==> e.task == null || e.task.status == Invalid
    ensures r != [] ==> r[0].task == e.task && r[0].privData == e.privData
    ensures r != [] ==> (r[0].StartWith? <==> Below(e.task.status, Running))
  {
    if e.task == null || e.task.status == Invalid then []
    else if Below(e.task.status, Running) then [StartWith(e.task, e.privData)]
    else [ResumeWith(e.task, e.privData)]
  }

  /** The calls `active_next_tasks` makes for a queue, in queue order. */
  function DispatchPlan(entries: seq<NextEntry>): (r: seq<Dispatch>)
    reads (set i | 0 <= i < |entries| && entries[i].task != null :: entries[i].task)`status
    ensures |r| <= |entries|
  {
    if entries == [] then []
    else DispatchPlan(entries[..|entries| - 1]) + Decide(entries[|entries| - 1])
  }

  /** The plan for a queue is the plan for its front followed by the plan for its back: the
      queue is visited in insertion order. */
  lemma {:induction false} DispatchPlanAppend(a: seq<NextEntry>, b: seq<NextEntry>)
    ensures DispatchPlan(a + b) == DispatchPlan(a) + DispatchPlan(b)
    decreases |b|
  {
    if b == [] {
      assert a + b == a;
    } else {
      var b' := b[..|b| - 1];
      assert (a + b)[..|a + b| - 1] == a + b';
      assert (a + b)[|a + b| - 1] == b[|b| - 1];
      DispatchPlanAppend(a, b');
    }
  }

  /** Every call in the plan comes from a queue entry with a live successor, and starts exactly
      the successors that have not run yet. */
  lemma {:induction false} DispatchPlanSound(entries: seq<NextEntry>, d: Dispatch)
    requires d in DispatchPlan(entries)
    ensures NextEntry(d.task, d.privData) in entries
    ensures d.task.status != Invalid
    ensures d.StartWith? <==> Below(d.task.status, Running)
    decreases |entries|
  {
    var front := entries[..|entries| - 1];
    var last := entries[|entries| - 1];
    if d in DispatchPlan(front) {
      DispatchPlanSound(front, d);
      assert forall e :: e in front ==> e in entries;
    } else {
      assert d in Decide(last);
    }
  }

  /** A queue of live successors is dispatched in full: one call per entry. */
  lemma {:induction false} DispatchPlanComplete(entries: seq<NextEntry>)
    requires forall i :: 0 <= i < |entries| ==> entries[i].task != null && entries[i].task.status != Invalid
    ensures |DispatchPlan(entries)| == |entries|
    decreases |entries|
  {
    if entries != [] {
      DispatchPlanComplete(entries[..|entries| - 1]);
    }
  }

  /** The error with which the compare-and-set loop of `start` gives up, or `None` when it moves
      the task to RUNNING; `expected` is the status the caller expects, `current` the status
      the task has. */
  function StartRefusal(expected: TaskStatus, current: TaskStatus): (r: Option<int>)
    ensures r.Some? ==> r.value == COPP_EC_ALREADY_FINISHED || r.value == COPP_EC_IS_RUNNING
  {
    if IsExiting(expected) then Some(COPP_EC_ALREADY_FINISHED)
    else if expected == Running then Some(COPP_EC_IS_RUNNING)
    else if current == expected then None
    else if IsExiting(current) then Some(COPP_EC_ALREADY_FINISHED)
    else if current == Running then Some(COPP_EC_IS_RUNNING)
    else None
  }

  /** The expected status is only a hint: unless it is itself exiting or RUNNING, `start`
      succeeds exactly when the task is neither exiting nor running, and otherwise names which
      of the two it is. */
  lemma StartRefusalByCurrent(expected: TaskStatus, current: TaskStatus)
    requires !IsExiting(expected) && expected != Running
    ensures StartRefusal(expected, current).None? <==> !IsExiting(current) && current != Running
    ensures IsExiting(current) ==> StartRefusal(expected, current) == Some(COPP_EC_ALREADY_FINISHED)
    ensures current == Running ==> StartRefusal(expected, current) == Some(COPP_EC_IS_RUNNING)
  {
  }

  /** The status `start` leaves once control is back, from the status the body left
      (`returned`) and whether the coroutine has finished: a finished coroutine makes the task
      DONE unless it is already exiting, an unfinished one parks it in WAITING unless it was
      canceled or killed meanwhile. */
  function SettledStatus(returned: TaskStatus, finished: bool): TaskStatus
  {
    if IsExiting(returned) then returned else if finished then Done else Waiting
  }

  /** After `start` has run the coroutine the task is never left CREATED or RUNNING: it waits,
      or it is exiting, and it is exiting whenever the coroutine finished. */
  lemma SettledStatusIsRestful(returned: TaskStatus, finished: bool)
    ensures SettledStatus(returned, finished) == Waiting || IsExiting(SettledStatus(returned, finished))
    ensures finished ==> IsExiting(SettledStatus(returned, finished))
    ensures IsExiting(returned) ==> SettledStatus(returned, finished) == returned
  {
  }

  /** The size check of `create_with_delegate`: the stack must exceed the task pointer, the
      private buffer and the aligned action and task objects, summed in `size_t`. */
  predicate StackTooSmall(stackSize: nat, privateSize: nat, actionSize: nat, taskSize: nat)
  {
    stackSize <= AddWrap(AddWrap(AddWrap(SIZEOF_TASK_POINTER, privateSize), actionSize), taskSize)
  }

  /** Without wrap-around the check is the plain comparison with the sum. */
  lemma StackTooSmallWithoutWrap(stackSize: nat, privateSize: nat, actionSize: nat, taskSize: nat)
    requires SIZEOF_TASK_POINTER + privateSize + actionSize + taskSize <= SIZE_MAX
    ensures StackTooSmall(stackSize, privateSize, actionSize, taskSize)
            <==> stackSize <= SIZEOF_TASK_POINTER + privateSize + actionSize + taskSize
  {
  }

  /** Drives a coroutine that has not finished to completion, as the finish notification does:
      it resumes until the coroutine is finished, and the runner returns `code`. */
  method DriveToCompletion(co: CC.CoroutineContext, code: int)
    requires co.Valid() && co.callee != 0
    requires co.status in {CH.Ready, CH.Finished, CH.Exited}
    modifies co
    ensures co.Valid() && co.IsFinished() && co.callee == old(co.callee)
    ensures old(co.IsFinished()) ==> co.status == old(co.status) && co.runnerRetCode == old(co.runnerRetCode)
    ensures !old(co.IsFinished()) ==> co.status == CH.Exited && co.runnerRetCode == code
  {
    while !co.IsFinished()
      invariant co.Valid() && co.callee == old(co.callee)
      invariant co.status in {CH.Ready, CH.Finished, CH.Exited}
      invariant old(co.IsFinished()) ==> co.status == old(co.status) && co.runnerRetCode == old(co.runnerRetCode)
      invariant !old(co.IsFinished()) && co.IsFinished() ==> co.status == CH.Exited && co.runnerRetCode == code
      decreases if co.IsFinished() then 0 else 1
    {
      var _ := co.Resume(CC.Returned(code));
    }
  }

  class Task {
    const id: nat
    /** The stack size the task was created with. */
    const stackSize: nat
    /** `coroutine_obj_`: null for a task without a coroutine. */
    const co: CC.CoroutineContext?
    var status: TaskStatus
    var finishPrivData: int
    var nextList: seq<NextEntry>
    var nextStdHandles: seq<StdWaiter>
    /** The next unused list position for `nextStdHandles`. */
    var nextSlot: nat
    var refCount: nat
    var destroyed: bool
    /** The `priv_data` of every finish notification the action received, in order. */
    var notifications: seq<int>

    /** The coroutine is consistent, was created, and is not running: a task is only observed
        from outside its own body. */
    predicate Valid()
      reads co
    {
      co != null ==> co.Valid() && co.callee != 0 && co.status in {CH.Ready, CH.Finished, CH.Exited}
    }

    /** `task(stack_sz)` followed by `task_impl()`: a new task is CREATED, unreferenced and has
        nothing queued. */
    constructor(id: nat, stackSize: nat, co: CC.CoroutineContext?)
      requires co != null ==> co.Valid() && co.callee != 0 && co.status in {CH.Ready, CH.Finished, CH.Exited}
      ensures Valid()
      ensures this.id == id && this.stackSize == stackSize && this.co == co
      ensures status == Created && finishPrivData == 0 && refCount == 0 && !destroyed
      ensures nextList == [] && nextStdHandles == [] && nextSlot == 0 && notifications == []
    {
      this.id := id;
      this.stackSize := stackSize;
      this.co := co;
      status := Created;
      finishPrivData := 0;
      nextList := [];
      nextStdHandles := [];
      nextSlot := 0;
      refCount := 0;
      destroyed := false;
      notifications := [];
    }

    /** `is_exiting`. */
    predicate IsExitingTask()
      reads this
    {
      IsExiting(status)
    }

    /** `task::is_completed`: the coroutine has finished; false without a coroutine. */
    predicate IsCompletedTask()
      reads this, co
    {
      co != null && co.IsFinished()
    }

    /** `_cas_status`: stores `desired` exactly when the status is `expected`; either way
        `current` is the status found. */
    method CasStatus(expected: TaskStatus, desired: TaskStatus) returns (ok: bool, current: TaskStatus)
      modifies this`status
      ensures ok <==> old(status) == expected
      ensures current == old(status)
      ensures status == if ok then desired else old(status)
    {
      current := status;
      if status == expected {
        status := desired;
        return true, current;
      }
      return false, current;
    }

    /** The compare-and-set loop at the head of `start`: gives up with ALREADY_FINISHED or
        IS_RUNNING, or moves the task to RUNNING. */
    method AcquireRunning(expected: TaskStatus) returns (refusal: Option<int>)
      modifies this`status
      ensures refusal == StartRefusal(expected, old(status))
      ensures refusal.Some? ==> status == old(status)
      ensures refusal.None? ==> status == Running
    {
      var from := expected;
      while true
        invariant status == old(status)
        invariant from != expected ==> from == old(status) && !IsExiting(expected) && expected != Running
        decreases if from == status then 0 else 1
      {
        if IsExiting(from) {
          return Some(COPP_EC_ALREADY_FINISHED);
        }
        if from == Running {
          return Some(COPP_EC_IS_RUNNING);
        }
        var ok;
        ok, from := CasStatus(from, Running);
        if ok {
          return None;
        }
      }
    }

    /** The loop after a run whose coroutine finished: the status becomes DONE unless it is
        already exiting. */
    method MarkDone()
      modifies this`status
      ensures status == SettledStatus(old(status), true)
    {
      var from := Running;
      while Below(from, Done)
        invariant status == old(status)
        invariant from == Running || from == status
        decreases if from == status then 0 else 1
      {
        var ok;
        ok, from := CasStatus(from, Done);
        if ok {
          return;
        }
      }
    }

    /** The loop after a run whose coroutine yielded: the status becomes WAITING, unless the task
        was canceled or killed meanwhile, which `exiting` reports. */
    method ParkWaiting() returns (exiting: bool)
      modifies this`status
      ensures exiting <==> IsExiting(old(status))
      ensures status == SettledStatus(old(status), false)
    {
      var from := Running;
      while true
        invariant status == old(status)
        invariant from == Running || from == status
        decreases if from == status then 0 else 1
      {
        if IsExiting(from) {
          return true;
        }
        var ok;
        ok, from := CasStatus(from, Waiting);
        if ok {
          return false;
        }
      }
    }

    /** The compare-and-set of `cancel`: gives up on a running task, otherwise installs
        CANCELED. With a single thread the exchange from the status just read succeeds at the
        first attempt. */
    method CasToCanceled() returns (running: bool)
      modifies this`status
      ensures running <==> old(status) == Running
      ensures status == if running then old(status) else Canceled
    {
      var from := status;
      if from == Running {
        return true;
      }
      var ok, found := CasStatus(from, Canceled);
      return false;
    }

    /** The compare-and-set of `kill`: installs `to` whatever the status was, and reports the
        status it replaced. */
    method ForceStatus(to: TaskStatus) returns (from: TaskStatus)
      modifies this`status
      ensures from == old(status) && status == to
    {
      var ok;
      ok, from := CasStatus(status, to);
    }

    /** `task_impl::_notify_finished`: records `priv`, then the action's `on_finished` receives
        the task, and the task's own `on_finished` answers 0. */
    method NotifyAction(priv: int) returns (r: int)
      modifies this`finishPrivData, this`notifications
      ensures finishPrivData == priv && notifications == old(notifications) + [priv]
      ensures r == COPP_EC_SUCCESS
    {
      finishPrivData := priv;
      notifications := notifications + [priv];
      r := 0;
    }

    /** `active_next_tasks`: takes the whole queue, leaving it empty, and plans one call per
        live successor in queue order; then resumes every waiting C++20 handle that is non-null
        and not `done`, each of which erases its own entry when it resumes. */
    method ActiveNextTasks(done: set<nat>) returns (plan: seq<Dispatch>, resumed: seq<nat>)
      modifies this`nextList, this`nextStdHandles
      ensures nextList == [] && nextStdHandles == []
      ensures plan == DispatchPlan(old(nextList))
      ensures resumed == LiveHandles(old(nextStdHandles), done)
    {
      var list, handles := nextList, nextStdHandles;
      nextList, nextStdHandles := [], [];
      resumed := ResumeHandles(handles, done);
      plan := PlanFor(list);
    }

    /** `task::_notify_finished`: drives an unfinished coroutine to completion, notifies the
        action, then activates the successors. */
    method NotifyFinished(priv: int, finalCode: int, done: set<nat>)
      returns (r: int, plan: seq<Dispatch>, resumed: seq<nat>)
      requires Valid()
      modifies this`finishPrivData, this`notifications, this`nextList, this`nextStdHandles, co
      ensures Valid()
      ensures co != null ==> co.IsFinished()
      ensures co != null && !old(co.IsFinished()) ==> co.status == CH.Exited && co.runnerRetCode == finalCode
      ensures co != null && old(co.IsFinished()) ==> co.status == old(co.status) && co.runnerRetCode == old(co.runnerRetCode)
      ensures r == COPP_EC_SUCCESS
      ensures finishPrivData == priv && notifications == old(notifications) + [priv]
      ensures nextList == [] && nextStdHandles == []
      ensures plan == DispatchPlan(old(nextList)) && resumed == LiveHandles(old(nextStdHandles), done)
      ensures status == old(status) && refCount == old(refCount) && destroyed == old(destroyed)
      ensures nextSlot == old(nextSlot)
    {
      if co != null && !co.IsFinished() {
        DriveToCompletion(co, finalCode);
      }
      r := NotifyAction(priv);
      plan, resumed := ActiveNextTasks(done);
    }

    /** `start(priv_data, expected_status)`: refuses without a coroutine, or through the
        compare-and-set loop; otherwise the task is RUNNING while the coroutine runs, and once
        control is back it settles to DONE, WAITING or the exiting status the body left, with a
        finish notification whenever it ends up exiting. */
    method Start(priv: int, expected: TaskStatus, body: Body, done: set<nat>)
      returns (r: int, plan: seq<Dispatch>, resumed: seq<nat>)
      requires Valid()
      modifies this, co
      ensures Valid()
      ensures co == null ==> r == COPP_EC_NOT_INITED && status == old(status) && plan == [] && resumed == []
      ensures co != null && StartRefusal(expected, old(status)).Some? ==>
        r == StartRefusal(expected, old(status)).value && status == old(status)
        && notifications == old(notifications) && nextList == old(nextList) && plan == [] && resumed == []
      ensures co != null && StartRefusal(expected, old(status)).None? ==>
        var ran := old(co.status) == CH.Ready;
        var returned := if ran && body.effect.KilledInside? then body.effect.to else Running;
        var privAfterRun := if ran && body.effect.KilledInside? then body.effect.privData else old(finishPrivData);
        var finished := old(co.IsFinished()) || (ran && body.outcome.Returned?);
        (ran ==> r == COPP_EC_SUCCESS)
        && (!ran ==> r == COPP_EC_NOT_READY)
        && status == SettledStatus(returned, finished)
        && (finished || IsExiting(returned) <==> nextList == [] && |notifications| == |old(notifications)| + 1)
        && (finished ==> notifications == old(notifications) + [priv])
        && (!finished && IsExiting(returned) ==> notifications == old(notifications) + [privAfterRun])
        && (!finished && !IsExiting(returned) ==> notifications == old(notifications) && nextList == old(nextList))
        && (finished || IsExiting(returned) ==> co.IsFinished())
      ensures refCount == old(refCount) && destroyed == old(destroyed)
    {
      plan, resumed := [], [];
      if co == null {
        return COPP_EC_NOT_INITED, plan, resumed;
      }
      var refusal := AcquireRunning(expected);
      if refusal.Some? {
        return refusal.value, plan, resumed;
      }
      r, plan, resumed := RunAcquired(priv, body, done);
    }

    /** The part of `start` after the task became RUNNING: the coroutine runs, then the task
        settles and, when it ends up exiting, notifies. */
    method RunAcquired(priv: int, body: Body, done: set<nat>)
      returns (r: int, plan: seq<Dispatch>, resumed: seq<nat>)
      requires Valid() && co != null && status == Running
      modifies this, co
      ensures Valid()
      ensures
        var ran := old(co.status) == CH.Ready;
        var returned := if ran && body.effect.KilledInside? then body.effect.to else Running;
        var privAfterRun := if ran && body.effect.KilledInside? then body.effect.privData else old(finishPrivData);
        var finished := old(co.IsFinished()) || (ran && body.outcome.Returned?);
        (ran ==> r == COPP_EC_SUCCESS)
        && (!ran ==> r == COPP_EC_NOT_READY)
        && status == SettledStatus(returned, finished)
        && (finished || IsExiting(returned) <==> nextList == [] && |notifications| == |old(notifications)| + 1)
        && (finished ==> notifications == old(notifications) + [priv])
        && (!finished && IsExiting(returned) ==> notifications == old(notifications) + [privAfterRun])
        && (!finished && !IsExiting(returned) ==> notifications == old(notifications) && nextList == old(nextList))
        && (finished || IsExiting(returned) ==> co.IsFinished())
      ensures refCount == old(refCount) && destroyed == old(destroyed)
    {
      plan, resumed := [], [];
      var ret := co.Start(body.outcome);
      if ret == COPP_EC_SUCCESS && body.effect.KilledInside? {
        status := body.effect.to;
        finishPrivData := body.effect.privData;
      }
      if IsCompletedTask() {
        MarkDone();
        finishPrivData := priv;
        var notified;
        notified, plan, resumed := NotifyFinished(priv, body.finalCode, done);
        return ret, plan, resumed;
      }
      var exiting := ParkWaiting();
      if exiting {
        var notified;
        notified, plan, resumed := NotifyFinished(finishPrivData, body.finalCode, done);
      }
      return ret, plan, resumed;
    }

    /** `resume(priv_data, expected_status)`: `start` expecting WAITING. */
    method Resume(priv: int, expected: TaskStatus, body: Body, done: set<nat>)
      returns (r: int, plan: seq<Dispatch>, resumed: seq<nat>)
      requires Valid()
      modifies this, co
      ensures Valid()
      ensures co == null ==> r == COPP_EC_NOT_INITED && status == old(status)
      ensures co != null && StartRefusal(expected, old(status)).Some? ==>
        r == StartRefusal(expected, old(status)).value && status == old(status)
      ensures co != null && StartRefusal(expected, old(status)).None? ==>
        status == Waiting || IsExiting(status)
    {
      r, plan, resumed := Start(priv, expected, body, done);
      if co != null && StartRefusal(expected, old(status)).None? {
        ghost var ran := old(co.status) == CH.Ready;
        ghost var returned := if ran && body.effect.KilledInside? then body.effect.to else Running;
        SettledStatusIsRestful(returned, old(co.IsFinished()) || (ran && body.outcome.Returned?));
      }
    }

    /** `yield`: NOT_INITED without a coroutine; otherwise the coroutine's `yield`, which from
        outside the body (the coroutine is not RUNNING) reports the coroutine's status. */
    method Yield() returns (r: int)
      requires Valid()
      modifies co
      ensures Valid()
      ensures co == null ==> r == COPP_EC_NOT_INITED
      ensures co != null && old(co.status) == CH.Ready ==> r == COPP_EC_NOT_RUNNING
      ensures co != null && old(co.status) != CH.Ready ==> r == COPP_EC_ALREADY_EXIST
      ensures co != null ==> co.status == old(co.status)
    {
      if co == null {
        return COPP_EC_NOT_INITED;
      }
      r := co.Yield();
    }

    /** `cancel`: IS_RUNNING for a running task; otherwise the task is CANCELED, whatever it was
        before, and the finish notification runs. */
    method Cancel(priv: int, finalCode: int, done: set<nat>)
      returns (r: int, plan: seq<Dispatch>, resumed: seq<nat>)
      requires Valid()
      modifies this, co
      ensures Valid()
      ensures old(status) == Running ==>
        r == COPP_EC_IS_RUNNING && status == Running
        && notifications == old(notifications) && plan == [] && resumed == []
      ensures old(status) != Running ==>
        r == COPP_EC_SUCCESS && status == Canceled
        && notifications == old(notifications) + [priv] && nextList == []
        && plan == DispatchPlan(old(nextList)) && (co != null ==> co.IsFinished())
      ensures refCount == old(refCount) && destroyed == old(destroyed)
    {
      plan, resumed := [], [];
      var running := CasToCanceled();
      if running {
        return COPP_EC_IS_RUNNING, plan, resumed;
      }
      var notified;
      notified, plan, resumed := NotifyFinished(priv, finalCode, done);
      return COPP_EC_SUCCESS, plan, resumed;
    }

    /** `kill(status, priv_data)`: always installs `to`; a task that was not running is notified
        at once, a running one only keeps `priv` for the notification `start` makes. */
    method Kill(to: TaskStatus, priv: int, finalCode: int, done: set<nat>)
      returns (r: int, plan: seq<Dispatch>, resumed: seq<nat>)
      requires Valid()
      modifies this, co
      ensures Valid()
      ensures r == COPP_EC_SUCCESS && status == to
      ensures old(status) != Running ==>
        notifications == old(notifications) + [priv] && finishPrivData == priv && nextList == []
        && plan == DispatchPlan(old(nextList)) && (co != null ==> co.IsFinished())
      ensures old(status) == Running ==>
        notifications == old(notifications) && finishPrivData == priv && nextList == old(nextList)
        && plan == [] && resumed == []
      ensures refCount == old(refCount) && destroyed == old(destroyed)
    {
      plan, resumed := [], [];
      var from := ForceStatus(to);
      if from != Running {
        var notified;
        notified, plan, resumed := NotifyFinished(priv, finalCode, done);
      } else {
        finishPrivData := priv;
      }
      return COPP_EC_SUCCESS, plan, resumed;
    }

    /** `next(next_task, priv_data)`: a null successor or the task itself is refused (the task
        is returned); behind an exiting or completed task a CREATED successor is started and a
        WAITING one resumed at once; otherwise the successor is queued. */
    method Next(nextTask: Task?, priv: int) returns (r: Task?, plan: seq<Dispatch>)
      modifies this`nextList
      ensures nextTask == null || nextTask == this ==> r == this && plan == [] && nextList == old(nextList)
      ensures nextTask != null && nextTask != this ==> r == nextTask
      ensures nextTask != null && nextTask != this && (IsExitingTask() || IsCompletedTask()) ==>
        nextList == old(nextList)
        && plan == (if nextTask.status == Created then [StartWith(nextTask, priv)]
                    else if nextTask.status == Waiting then [ResumeWith(nextTask, priv)] else [])
      ensures nextTask != null && nextTask != this && !(IsExitingTask() || IsCompletedTask()) ==>
        nextList == old(nextList) + [NextEntry(nextTask, priv)] && plan == []
    {
      plan := [];
      if nextTask == this || nextTask == null {
        return this, plan;
      }
      if IsExitingTask() || IsCompletedTask() {
        if nextTask.status == Created {
          plan := [StartWith(nextTask, priv)];
        } else if nextTask.status == Waiting {
          plan := [ResumeWith(nextTask, priv)];
        }
        return nextTask, plan;
      }
      nextList := nextList + [NextEntry(nextTask, priv)];
      return nextTask, plan;
    }

    /** `then(next_task, priv_data)`: the same as `next`. */
    method Then(nextTask: Task?, priv: int) returns (r: Task?, plan: seq<Dispatch>)
      modifies this`nextList
      ensures nextTask == null || nextTask == this ==> r == this && nextList == old(nextList)
      ensures nextTask != null && nextTask != this ==> r == nextTask
      ensures nextTask != null && nextTask != this && !(IsExitingTask() || IsCompletedTask()) ==>
        nextList == old(nextList) + [NextEntry(nextTask, priv)]
    {
      r, plan := Next(nextTask, priv);
    }

    /** `then(functor, priv_data)` as written for compilers with rvalue references, given the
        task `create` makes from the functor (`created`): without a coroutine it chains that
        task, but does not return, and goes on to read the allocator of the null coroutine. */
    method ThenFunctorAsWritten(created: Task?, priv: int) returns (r: ThenResult)
      modifies this`nextList
      ensures co == null ==> r == NullCoroutineDereference
      ensures co == null && created != null && created != this && !(IsExitingTask() || IsCompletedTask()) ==>
        nextList == old(nextList) + [NextEntry(created, priv)]
      ensures co != null ==> r.Chained? && r.task == (if created == null || created == this then this else created)
    {
      if co == null {
        var chained, plan := Next(created, priv);
        return NullCoroutineDereference;
      }
      var chained, plan := Next(created, priv);
      return Chained(chained, plan);
    }

    /** `then(functor, priv_data)` with the `return` the other two overloads have: the task
        `create` makes is chained whether or not this task has a coroutine. */
    method ThenFunctor(created: Task?, priv: int) returns (r: ThenResult)
      modifies this`nextList
      ensures r.Chained? && r.task == (if created == null || created == this then this else created)
      ensures created != null && created != this && !(IsExitingTask() || IsCompletedTask()) ==>
        nextList == old(nextList) + [NextEntry(created, priv)] && r.plan == []
    {
      var chained, plan := Next(created, priv);
      return Chained(chained, plan);
    }

    /** `await_task(wait_task)`, up to the point where the task suspends: the checks in source
        order, then registration of this task behind `waitTask`. `current` is the running
        coroutine and `bufferHead` the task its private buffer names. */
    method AwaitTask(waitTask: Task?, current: CC.CoroutineContext?, bufferHead: Task?)
      returns (r: int, registered: bool)
      modifies (if waitTask == null then {} else {waitTask})`nextList
      ensures waitTask == null ==> r == COPP_EC_ARGS_ERROR && !registered
      ensures waitTask == this ==> r == COPP_EC_TASK_CAN_NOT_WAIT_SELF && !registered
      ensures waitTask != null && waitTask != this && (waitTask.IsExitingTask() || waitTask.IsCompletedTask()) ==>
        r == COPP_EC_TASK_IS_EXITING && !registered
      ensures (waitTask != null && waitTask != this && !(waitTask.IsExitingTask() || waitTask.IsCompletedTask())
               && IsExitingTask()) ==>
          r == COPP_EC_TASK_IS_EXITING && !registered
      ensures (waitTask != null && waitTask != this && !(waitTask.IsExitingTask() || waitTask.IsCompletedTask())
               && !IsExitingTask() && ThisTask(current, bufferHead) != Option<Task?>.Some(this)) ==>
          r == COPP_EC_TASK_NOT_IN_ACTION && !registered
      ensures registered <==>
        (waitTask != null && waitTask != this
         && !(waitTask.IsExitingTask() || waitTask.IsCompletedTask()) && !IsExitingTask()
         && ThisTask(current, bufferHead) == Option<Task?>.Some(this))
      ensures registered ==> r == COPP_EC_SUCCESS && waitTask.nextList == old(waitTask.nextList) + [NextEntry(this, 0)]
      ensures !registered && waitTask != null ==> waitTask.nextList == old(waitTask.nextList)
    {
      registered := false;
      if waitTask == null {
        return COPP_EC_ARGS_ERROR, false;
      }
      if waitTask == this {
        return COPP_EC_TASK_CAN_NOT_WAIT_SELF, false;
      }
      if waitTask.IsExitingTask() || waitTask.IsCompletedTask() {
        return COPP_EC_TASK_IS_EXITING, false;
      }
      if IsExitingTask() {
        return COPP_EC_TASK_IS_EXITING, false;
      }
      if ThisTask(current, bufferHead) != Option<Task?>.Some(this) {
        return COPP_EC_TASK_NOT_IN_ACTION, false;
      }
      var added, _ := waitTask.Next(this, 0);
      if added != this {
        // `next` returns its argument whenever that is neither null nor the waited task
        assert false;
        return COPP_EC_TASK_ADD_NEXT_FAILED, false;
      }
      return COPP_EC_SUCCESS, true;
    }

    /** `get_ret_code`: 0 without a coroutine, otherwise what the runner returned. */
    function GetRetCode(): (r: int)
      reads this, co
      ensures co == null ==> r == 0
      ensures co != null ==> r == co.runnerRetCode
    {
      if co == null then 0 else co.runnerRetCode
    }

    /** `get_private_buffer_size`: the coroutine's private buffer less the task pointer at its
        head, in `size_t`; 0 without a coroutine. */
    function GetPrivateBufferSize(): (r: nat)
      reads this, co
      ensures r <= SIZE_MAX
      ensures co == null ==> r == 0
      ensures co != null && SIZEOF_TASK_POINTER <= co.privateBufferSize <= SIZE_MAX ==>
        r + SIZEOF_TASK_POINTER == co.privateBufferSize
    {
      if co == null then 0 else SubWrap(co.privateBufferSize, SIZEOF_TASK_POINTER)
    }

    /** `use_count`. */
    function UseCount(): nat
      reads this
    {
      refCount
    }

    /** `await_ready` of the task awaitable: no task to wait for, or its coroutine finished. */
    static predicate AwaitReady(t: Task?)
      reads t, if t != null then {t.co} else {}
    {
      t == null || t.IsCompletedTask()
    }

    /** `await_suspend`: appends the handle to the waiting handles and returns its position. */
    method AwaitSuspend(handle: nat) returns (slot: nat)
      modifies this`nextStdHandles, this`nextSlot
      ensures slot == old(nextSlot) && nextSlot == old(nextSlot) + 1
      ensures nextStdHandles == old(nextStdHandles) + [StdWaiter(slot, handle)]
    {
      slot := nextSlot;
      nextStdHandles := nextStdHandles + [StdWaiter(slot, handle)];
      nextSlot := nextSlot + 1;
    }

    /** `await_resume`: erases the awaiting handle's entry, if any, and answers the task's
        return code. */
    method AwaitResume(slot: Option<nat>) returns (r: int)
      modifies this`nextStdHandles
      ensures slot.None? ==> nextStdHandles == old(nextStdHandles)
      ensures slot.Some? ==> nextStdHandles == WithoutSlot(old(nextStdHandles), slot.value)
      ensures r == GetRetCode()
    {
      if slot.Some? {
        nextStdHandles := WithoutSlot(nextStdHandles, slot.value);
      }
      r := GetRetCode();
    }
  }

  /** What `then(functor)` ends in: the task it returns and the calls it made at once, or a
      read through a null coroutine. */
  datatype ThenResult = Chained(task: Task?, plan: seq<Dispatch>) | NullCoroutineDereference

  /** A task created without a coroutine reaches the null read through `then(functor)` as
      written, while the corrected overload chains the new task behind it. */
  method ThenFunctorOnTaskWithoutCoroutine() returns (asWritten: ThenResult, corrected: ThenResult)
    ensures asWritten == NullCoroutineDereference
    ensures corrected.Chained? && corrected.task != null && corrected.task.id == 2
  {
    var first := new Task(1, 0, null);
    var created := new Task(2, 0, null);
    asWritten := first.ThenFunctorAsWritten(created, 0);
    var second := new Task(3, 0, null);
    corrected := second.ThenFunctor(created, 0);
  }

  /** The loop of `active_next_tasks` over the queue it took. */
  method PlanFor(list: seq<NextEntry>) returns (plan: seq<Dispatch>)
    ensures plan == DispatchPlan(list)
  {
    plan := [];
    for i := 0 to |list|
      invariant plan == DispatchPlan(list[..i])
    {
      assert list[..i + 1][..i] == list[..i];
      plan := plan + Decide(list[i]);
    }
    assert list[..|list|] == list;
  }

  /** The loop of `active_next_tasks` over the waiting C++20 handles: a null or finished handle
      is dropped, every other one is resumed. */
  method ResumeHandles(handles: seq<StdWaiter>, done: set<nat>) returns (resumed: seq<nat>)
    ensures resumed == LiveHandles(handles, done)
  {
    resumed := [];
    for i := 0 to |handles|
      invariant resumed == LiveHandles(handles[..i], done)
    {
      assert handles[..i + 1][..i] == handles[..i];
      if handles[i].handle != 0 && handles[i].handle !in done {
        resumed := resumed + [handles[i].handle];
      }
    }
    assert handles[..|handles|] == handles;
  }

  /** The handles `active_next_tasks` resumes: the non-null ones not yet done, in order. */
  function LiveHandles(waiters: seq<StdWaiter>, done: set<nat>): (r: seq<nat>)
    ensures |r| <= |waiters|
    ensures forall h :: h in r ==> h != 0 && h !in done
    ensures forall i :: 0 <= i < |waiters| && waiters[i].handle != 0 && waiters[i].handle !in done ==>
      waiters[i].handle in r
  {
    if waiters == [] then []
    else
      var w := waiters[|waiters| - 1];
      LiveHandles(waiters[..|waiters| - 1], done) + (if w.handle != 0 && w.handle !in done then [w.handle] else [])
  }

  /** The waiting handles without the entry at `slot`. */
  function WithoutSlot(waiters: seq<StdWaiter>, slot: nat): (r: seq<StdWaiter>)
    ensures forall w :: w in r <==> w in waiters && w.slot != slot
    ensures |r| <= |waiters|
  {
    if waiters == [] then []
    else if waiters[0].slot == slot then WithoutSlot(waiters[1..], slot)
    else [waiters[0]] + WithoutSlot(waiters[1..], slot)
  }

  /** `intrusive_ptr_add_ref`: one more reference, in `size_t`. */
  method AddRef(p: Task?)
    modifies (if p == null then {} else {p})`refCount
    ensures p != null ==> p.refCount == AddWrap(old(p.refCount), 1)
  {
    if p != null {
      p.refCount := AddWrap(p.refCount, 1);
    }
  }

  /** `intrusive_ptr_release`: one reference less, in `size_t`; the last one destroys the
      task, whose destructor kills a task that has started but not finished with TIMEOUT, so
      that the base destructor finds an exiting or not yet started task. */
  method Release(p: Task?, finalCode: int, done: set<nat>) returns (plan: seq<Dispatch>)
    requires p != null ==> p.Valid() && p.refCount <= SIZE_MAX
    modifies p, if p != null then {p.co} else {}
    ensures p != null ==> p.Valid() && p.refCount == SubWrap(old(p.refCount), 1)
    ensures p != null && old(p.refCount) != 1 ==>
      p.destroyed == old(p.destroyed) && p.status == old(p.status) && plan == []
    ensures p != null && old(p.refCount) == 1 ==> p.destroyed && DestructibleStatus(p.status)
    ensures p != null && old(p.refCount) == 1 && Below(Created, old(p.status)) && Below(old(p.status), Done) ==>
      p.status == Timeout
    ensures p != null && old(p.refCount) == 1 && !(Below(Created, old(p.status)) && Below(old(p.status), Done)) ==>
      p.status == old(p.status)
  {
    plan := [];
    if p == null {
      return;
    }
    p.refCount := SubWrap(p.refCount, 1);
    if p.refCount == 0 {
      if Below(Created, p.status) && Below(p.status, Done) {
        var killed, resumed;
        killed, plan, resumed := p.Kill(Timeout, 0, finalCode, done);
      }
      p.destroyed := true;
    }
  }

  /** `create_with_delegate`: a stack size of 0 selects the default; a stack too small for the
      task pointer, the private buffer and the aligned action and task objects gives no task,
      as does a coroutine that could not be created (`coroutine` is what `coroutine_t::create`
      returned, with the runner not yet installed). Otherwise the task is bound to the
      coroutine, the coroutine is marked as a task's, the runner is installed and the caller
      holds the one reference. */
  method CreateWithDelegate(id: nat, stackSize: nat, defaultSize: nat, privateSize: nat,
                            actionSize: nat, taskSize: nat, coroutine: CC.CoroutineContext?)
    returns (t: Task?)
    requires coroutine != null ==> coroutine.Valid() && coroutine.callee != 0 && coroutine.status == CH.Invalid
    modifies coroutine
    ensures var sz := if stackSize == 0 then defaultSize else stackSize;
      t == null <==> StackTooSmall(sz, privateSize, CH.AlignAddressSize(actionSize), CH.AlignAddressSize(taskSize))
                     || coroutine == null
    ensures t != null ==>
      fresh(t) && t.Valid() && t.co == coroutine && t.id == id
      && t.stackSize == (if stackSize == 0 then defaultSize else stackSize)
      && t.status == Created && t.refCount == 1 && t.nextList == [] && t.notifications == []
      && coroutine.CheckFlags(FLAG_COTASK) && coroutine.status == CH.Ready
  {
    var sz := if stackSize == 0 then defaultSize else stackSize;
    var action := CH.AlignAddressSize(actionSize);
    var task := CH.AlignAddressSize(taskSize);
    if StackTooSmall(sz, privateSize, action, task) {
      return null;
    }
    if coroutine == null {
      return null;
    }
    var ok := coroutine.SetFlags(FLAG_COTASK);
    FlagCotaskIsUserFlag();
    assert ok;
    var installed := coroutine.SetRunner(true);
    t := new Task(id, sz, coroutine);
    t.refCount := 1;
  }

  /** Inside the coroutine of a task made by `create_with_delegate`, `this_task` finds that
      task. */
  lemma ThisTaskFindsCreatedTask(t: Task)
    requires t.co != null && t.co.CheckFlags(FLAG_COTASK)
    ensures ThisTask(t.co, t) == Some(t)
  {
  }
}
