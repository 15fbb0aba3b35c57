/** `task_impl` (task_impl.h, task_impl.cpp): the task status enumeration, the status
    predicates every task answers, and the lookup of the task that owns the running coroutine. */
module TaskImpl {
  import opened Optional
  import CoroutineContextH
  import CoroutineContext

  /** `EN_TASK_STATUS`, in declaration order. */
  datatype TaskStatus = Invalid | Created | Running | Waiting | Done | Canceled | Killed | Timeout

  /** The integer value each enumerator has in the source. */
  function StatusValue(s: TaskStatus): (v: nat)
    ensures v <= 7
    ensures s == Invalid <==> v == 0
  {
    match s
    case Invalid => 0
    case Created => 1
    case Running => 2
    case Waiting => 3
    case Done => 4
    case Canceled => 5
    case Killed => 6
    case Timeout => 7
  }

  /** `a < b` on the enumeration. */
  predicate Below(a: TaskStatus, b: TaskStatus)
  {
    StatusValue(a) < StatusValue(b)
  }

  /** Distinct enumerators have distinct values, so the order is total and strict. */
  lemma StatusValueInjective(a: TaskStatus, b: TaskStatus)
    ensures StatusValue(a) == StatusValue(b) <==> a == b
    ensures a != b ==> Below(a, b) || Below(b, a)
  {
  }

  /** The declaration order INVALID < CREATED < RUNNING < WAITING < DONE < CANCELED < KILLED <
      TIMEOUT. */
  lemma StatusOrder()
    ensures Below(Invalid, Created) && Below(Created, Running) && Below(Running, Waiting)
    ensures Below(Waiting, Done) && Below(Done, Canceled) && Below(Canceled, Killed)
    ensures Below(Killed, Timeout)
  {
  }

  /** `is_exiting`: the status has reached DONE. */
  predicate IsExiting(s: TaskStatus)
  {
    StatusValue(Done) <= StatusValue(s)
  }

  /** `task_impl::is_completed`: the same as `is_exiting` (the coroutine task overrides it). */
  predicate IsCompleted(s: TaskStatus)
  {
    IsExiting(s)
  }

  /** `is_faulted`: the status has reached KILLED. */
  predicate IsFaulted(s: TaskStatus)
  {
    StatusValue(Killed) <= StatusValue(s)
  }

  /** `is_canceled`. */
  predicate IsCanceled(s: TaskStatus)
  {
    s == Canceled
  }

  /** `is_timeout`. */
  predicate IsTimeout(s: TaskStatus)
  {
    s == Timeout
  }

  /** The four exiting statuses are exactly DONE, CANCELED, KILLED and TIMEOUT; the faulted ones
      are KILLED and TIMEOUT; a canceled or timed-out task is exiting, and only a timed-out one
      is both faulted and of a single named kind. */
  lemma StatusPredicates(s: TaskStatus)
    ensures IsExiting(s) <==> s in {Done, Canceled, Killed, Timeout}
    ensures IsCompleted(s) <==> IsExiting(s)
    ensures IsFaulted(s) <==> s in {Killed, Timeout}
    ensures IsFaulted(s) ==> IsExiting(s)
    ensures IsCanceled(s) ==> IsExiting(s) && !IsFaulted(s)
    ensures IsTimeout(s) ==> IsFaulted(s)
  {
  }

  /** The destructor's assertion: a task may be destroyed before it ran or once it is exiting,
      never while RUNNING or WAITING. */
  predicate DestructibleStatus(s: TaskStatus)
  {
    StatusValue(s) <= StatusValue(Created) || StatusValue(Done) <= StatusValue(s)
  }

  lemma DestructibleStatusExcludesLive(s: TaskStatus)
    ensures DestructibleStatus(s) <==> s != Running && s != Waiting
  {
  }

  /** `ext_coroutine_flag_t::EN_ECFT_COTASK`: the coroutine flag marking a task's coroutine. Its
      declaration is not part of this model; it is given the lowest bit outside the reserved
      mask, as `set_flags` requires. */
  const FLAG_COTASK: bv32 := 0x100

  lemma FlagCotaskIsUserFlag()
    ensures FLAG_COTASK & CoroutineContextH.FLAG_MASK == 0 && FLAG_COTASK != 0
  {
  }

  /** `this_task`: no task outside a coroutine, none inside a coroutine that is not a task's,
      otherwise the task whose pointer heads the coroutine's private buffer
      (`bufferHead`). */
  function ThisTask<T>(current: CoroutineContext.CoroutineContext?, bufferHead: T): (r: Option<T>)
    reads current
    ensures r.Some? <==> current != null && current.CheckFlags(FLAG_COTASK)
    ensures r.Some? ==> r.value == bufferHead
  {
    if current == null then None
    else if !current.CheckFlags(FLAG_COTASK) then None
    else Some(bufferHead)
  }
}
