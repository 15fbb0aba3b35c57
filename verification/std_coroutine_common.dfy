/** The bookkeeping every C++20 coroutine promise of the library shares
    (coroutine/std_coroutine_common.h and its .cpp): the promise status, the flag bits, the
    handle the promise is waiting on, and the callers waiting on it.

    A coroutine handle is an abstract id, `0` being the null handle. Whether the frame behind a
    handle has finished (`handle.done()`) is passed in as the set `done`. Resuming a handle runs
    code outside this model, so an operation that resumes handles hands them back instead. */
module StdCoroutine {
  import opened Optional

  /** `promise_status`, in its declared order. */
  newtype PromiseStatus = s: int | 0 <= s <= 6

  const Invalid: PromiseStatus := 0
  const Created: PromiseStatus := 1
  const Running: PromiseStatus := 2
  const Done: PromiseStatus := 3
  const Cancel: PromiseStatus := 4
  const Killed: PromiseStatus := 5
  const Timeout: PromiseStatus := 6

  /** `promise_flag`: the bit indices of the flag set, and `kMax`, its width. */
  const Destroying: nat := 0
  const FinalSuspend: nat := 1
  const InternalWaiting: nat := 2
  const FlagMax: nat := 3

  type Handle = nat

  const NullHandle: Handle := 0

  /** `handle_delegate`: a type-erased handle and the promise behind it. */
  datatype HandleDelegate = HandleDelegate(handle: Handle, promise: PromiseBase?)
  {
    /** `operator bool`. */
    predicate IsSet() {
      handle != NullHandle
    }

    /** What both constructors establish: the promise is null exactly when the handle is. */
    predicate Valid() {
      (handle == NullHandle) <==> (promise == null)
    }
  }

  const NullDelegate: HandleDelegate := HandleDelegate(NullHandle, null)

  /** The constructor (and the assignment) from a typed coroutine handle. */
  function Delegate(h: Handle, p: PromiseBase): (d: HandleDelegate)
    ensures d.Valid() && d.handle == h
    ensures d.IsSet() ==> d.promise == p
  {
    HandleDelegate(h, if h == NullHandle then null else p)
  }

  /** `operator==` of delegates: the handles alone decide. */
  predicate SameDelegate(l: HandleDelegate, r: HandleDelegate) {
    l.handle == r.handle
  }

  /** `operator<` of delegates. */
  predicate DelegateBefore(l: HandleDelegate, r: HandleDelegate) {
    l.handle < r.handle
  }

  /** Delegates are ordered totally by their handles, whatever promise they carry. */
  lemma DelegateOrderTotal(l: HandleDelegate, r: HandleDelegate)
    ensures SameDelegate(l, r) || DelegateBefore(l, r) || DelegateBefore(r, l)
    ensures !(DelegateBefore(l, r) && DelegateBefore(r, l))
    ensures SameDelegate(l, r) ==> !DelegateBefore(l, r) && !DelegateBefore(r, l)
  {
  }

  /** `callers_` in its `std::variant` layout: one delegate slot, possibly empty, or the set of
      callers, which hashes and compares delegates by handle and is kept here keyed by handle. */
  datatype Callers = Unique(caller: HandleDelegate) | Multi(members: map<Handle, HandleDelegate>)

  /** The handles registered as callers. */
  function CallerHandles(c: Callers): set<Handle> {
    match c
    case Unique(d) => if d.IsSet() then {d.handle} else {}
    case Multi(m) => m.Keys
  }

  predicate CallersValid(c: Callers) {
    match c
    case Unique(d) => d.Valid()
    case Multi(m) => forall h :: h in m ==> h != NullHandle && m[h].handle == h && m[h].Valid()
  }

  /** `unordered_set::insert`: a delegate whose handle is already present leaves the set as it
      was. */
  function InsertCaller(m: map<Handle, HandleDelegate>, d: HandleDelegate): (r: map<Handle, HandleDelegate>)
    ensures r.Keys == m.Keys + {d.handle}
    ensures forall h :: h in m ==> r[h] == m[h]
    ensures d.handle !in m ==> r[d.handle] == d
  {
    if d.handle in m then m else m[d.handle := d]
  }

  /** What `remove_caller` leaves in the status of the promise a caller leaves: a promise that has
      not finished takes over the caller's status when inheritance is asked for and the caller
      ended in an error state (after `kDone`). */
  function InheritStatus(own: PromiseStatus, removed: bool, inherit: bool, from: Option<PromiseStatus>): (r: PromiseStatus)
    ensures r == own || (removed && inherit && own < Done && Done < r)
    ensures own >= Done ==> r == own
    ensures from.Some? && removed && inherit && own < Done && Done < from.value ==> r == from.value
  {
    if removed && inherit && from.Some? && own < Done && from.value > Done then from.value else own
  }

  /** The caller storage of a promise (`promise_caller_manager`); its operations are the ones the
      .cpp gives `promise_base_type`. */
  class CallerManager {
    var callers: Callers

    predicate Valid()
      reads this`callers
    {
      CallersValid(callers)
    }

    constructor()
      ensures Valid() && callers == Unique(NullDelegate)
    {
      callers := Unique(NullDelegate);
    }

    /** `add_caller`: a null or finished handle is ignored; the first caller takes the unique
        slot, and a second one turns the storage into a set holding both. */
    method AddCaller(d: HandleDelegate, done: set<Handle>)
      requires Valid() && d.Valid()
      modifies this`callers
      ensures Valid()
      ensures !d.IsSet() || d.handle in done ==> callers == old(callers)
      ensures d.IsSet() && d.handle !in done ==>
        CallerHandles(callers) == CallerHandles(old(callers)) + {d.handle}
      ensures d.IsSet() && d.handle !in done && old(callers).Unique? ==>
        callers == if old(callers).caller.IsSet() then Multi(InsertCaller(map[old(callers).caller.handle := old(callers).caller], d)) else Unique(d)
      ensures old(callers).Multi? ==> callers.Multi?
    {
      if !d.IsSet() || d.handle in done {
        return;
      }
      match callers
      case Multi(m) =>
        callers := Multi(InsertCaller(m, d));
      case Unique(u) =>
        if !u.IsSet() {
          callers := Unique(d);
        } else {
          callers := Multi(InsertCaller(map[u.handle := u], d));
        }
    }

    /** The removal half of `remove_caller`: erases the caller with the same handle; the result
        says whether one was found (an empty unique slot matches the null handle). */
    method RemoveCaller(d: HandleDelegate) returns (removed: bool)
      requires Valid() && d.Valid()
      modifies this`callers
      ensures Valid()
      ensures CallerHandles(callers) == CallerHandles(old(callers)) - {d.handle}
      ensures removed <==> d.handle in CallerHandles(old(callers)) || (old(callers) == Unique(NullDelegate) && !d.IsSet())
      ensures callers.Multi? == old(callers).Multi?
    {
      match callers
      case Multi(m) =>
        removed := d.handle in m;
        callers := Multi(m - {d.handle});
      case Unique(u) =>
        removed := u.handle == d.handle;
        if removed {
          callers := Unique(NullDelegate);
        }
    }

    /** `resume_callers`: empties the storage (keeping its layout), then resumes every caller
        whose frame has not finished. */
    method ResumeCallers(done: set<Handle>) returns (resumed: set<Handle>)
      requires Valid()
      modifies this`callers
      ensures Valid()
      ensures resumed == CallerHandles(old(callers)) - done
      ensures CallerHandles(callers) == {} && callers.Multi? == old(callers).Multi?
    {
      match callers
      case Unique(u) =>
        callers := Unique(NullDelegate);
        resumed := if u.IsSet() && u.handle !in done then {u.handle} else {};
      case Multi(m) =>
        callers := Multi(map[]);
        resumed := m.Keys - done;
    }
  }

  /** `promise_base_type`. */
  class PromiseBase {
    var status: PromiseStatus
    var flags: set<nat>
    var currentWaiting: HandleDelegate
    const manager: CallerManager

    predicate Valid()
      reads this, manager
    {
      (forall f :: f in flags ==> f < FlagMax) && currentWaiting.Valid() && manager.Valid()
    }

    /** A new promise is `kCreated`, with no flag, nothing awaited and no caller. */
    constructor()
      ensures Valid() && fresh(manager)
      ensures status == Created && flags == {} && currentWaiting == NullDelegate
      ensures manager.callers == Unique(NullDelegate)
    {
      status := Created;
      flags := {};
      currentWaiting := NullDelegate;
      manager := new CallerManager();
    }

    /** `set_status`: without an expected status it always stores; with one it is a
        compare-and-set that, on a mismatch, reports the status it found instead. */
    method SetStatus(value: PromiseStatus, expected: Option<PromiseStatus>) returns (ok: bool, observed: Option<PromiseStatus>)
      modifies this`status
      ensures ok <==> expected.None? || expected == Some(old(status))
      ensures status == if ok then value else old(status)
      ensures observed == if ok then expected else Some(old(status))
    {
      if expected.None? {
        status := value;
        return true, expected;
      }
      if status == expected.value {
        status := value;
        return true, expected;
      }
      return false, Some(status);
    }

    /** `check_flag`: a flag outside the flag set always reads false. */
    predicate CheckFlag(f: nat)
      reads this`flags
      ensures CheckFlag(f) ==> f < FlagMax
    {
      f < FlagMax && f in flags
    }

    /** `set_flag`: a flag outside the flag set is ignored; every other flag keeps its value. */
    method SetFlag(f: nat, v: bool)
      requires Valid()
      modifies this`flags
      ensures Valid()
      ensures f >= FlagMax ==> flags == old(flags)
      ensures f < FlagMax ==> CheckFlag(f) == v
      ensures forall g :: g != f ==> CheckFlag(g) == old(CheckFlag(g))
    {
      if f >= FlagMax {
        return;
      }
      flags := if v then flags + {f} else flags - {f};
    }

    /** `set_waiting_handle`. */
    method SetWaitingHandle(d: HandleDelegate)
      modifies this`currentWaiting
      ensures currentWaiting == d
    {
      currentWaiting := d;
    }

    /** `add_caller`. */
    method AddCaller(d: HandleDelegate, done: set<Handle>)
      requires Valid() && d.Valid()
      modifies manager`callers
      ensures Valid()
      ensures !d.IsSet() || d.handle in done ==> manager.callers == old(manager.callers)
      ensures d.IsSet() && d.handle !in done ==>
        CallerHandles(manager.callers) == CallerHandles(old(manager.callers)) + {d.handle}
    {
      manager.AddCaller(d, done);
    }

    /** `remove_caller(delegate, inherit_status)`: the caller leaves, and this promise inherits
        its error status as `InheritStatus` says. */
    method RemoveCaller(d: HandleDelegate, inherit: bool)
      requires Valid() && d.Valid()
      modifies manager`callers, this`status
      ensures Valid()
      ensures CallerHandles(manager.callers) == CallerHandles(old(manager.callers)) - {d.handle}
      ensures status == InheritStatus(old(status), d.handle in CallerHandles(old(manager.callers)), inherit,
                                      if d.promise == null then None else Some(old(d.promise.status)))
    {
      var removed := manager.RemoveCaller(d);
      if removed && inherit && d.promise != null && status < Done && d.promise.status > Done {
        status := d.promise.status;
      }
    }

    /** `resume_callers`. */
    method ResumeCallers(done: set<Handle>) returns (resumed: set<Handle>)
      requires Valid()
      modifies manager`callers
      ensures Valid()
      ensures resumed == CallerHandles(old(manager.callers)) - done
      ensures CallerHandles(manager.callers) == {}
    {
      resumed := manager.ResumeCallers(done);
    }

    /** `final_awaitable::await_suspend`: marks the final suspension, then wakes the callers. */
    method FinalAwaitSuspend(done: set<Handle>) returns (resumed: set<Handle>)
      requires Valid()
      modifies this`flags, manager`callers
      ensures Valid() && CheckFlag(FinalSuspend)
      ensures forall g :: g != FinalSuspend ==> CheckFlag(g) == old(CheckFlag(g))
      ensures resumed == CallerHandles(old(manager.callers)) - done
      ensures CallerHandles(manager.callers) == {}
    {
      SetFlag(FinalSuspend, true);
      resumed := ResumeCallers(done);
    }

    /** `resume_waiting(current, inherit)`: if the awaited handle is set and not finished, it is
        forgotten, `current` is removed from the awaited promise's callers (which may inherit the
        status of `current`), and the awaited handle is resumed. */
    method ResumeWaiting(current: HandleDelegate, inherit: bool, done: set<Handle>) returns (resumed: Handle)
      requires Valid() && current.Valid()
      requires currentWaiting.IsSet() ==> currentWaiting.promise.Valid()
      modifies this`currentWaiting
      modifies if currentWaiting.promise != null then {currentWaiting.promise, currentWaiting.promise.manager} else {}
      ensures var w := old(currentWaiting);
        if w.IsSet() && w.handle !in done then
          resumed == w.handle && currentWaiting == NullDelegate && w.promise.Valid()
          && CallerHandles(w.promise.manager.callers) == CallerHandles(old(w.promise.manager.callers)) - {current.handle}
          && w.promise.status == InheritStatus(old(w.promise.status), current.handle in CallerHandles(old(w.promise.manager.callers)),
                                               inherit, if current.promise == null then None else Some(old(current.promise.status)))
        else
          resumed == NullHandle && currentWaiting == w
    {
      var w := currentWaiting;
      resumed := NullHandle;
      if w.IsSet() && w.handle !in done {
        currentWaiting := NullDelegate;
        w.promise.RemoveCaller(current, inherit);
        resumed := w.handle;
      }
    }
  }

  /** `std_coroutine_integer_error_transform`: the value an integer-returning coroutine yields in
      place of a result, before the cast to its result type: negative in every case, so a
      signed result type receives a negative value, while an unsigned one receives its
      wrapped-around residue. */
  function IntegerErrorTransform(s: PromiseStatus): (r: int)
    ensures -128 <= r <= -1
  {
    if s <= Created then -1 else -(s as int)
  }

  /** The status an error value of the integer transform stands for. */
  function StatusOfError(e: int): PromiseStatus
    requires -6 <= e <= -1
  {
    (-e) as PromiseStatus
  }

  /** The integer transform loses only the difference between `kInvalid` and `kCreated`. */
  lemma ErrorTransformRoundTrip(s: PromiseStatus)
    ensures -6 <= IntegerErrorTransform(s)
    ensures s != Invalid ==> StatusOfError(IntegerErrorTransform(s)) == s
    ensures s == Invalid ==> StatusOfError(IntegerErrorTransform(s)) == Created
  {
  }
}
