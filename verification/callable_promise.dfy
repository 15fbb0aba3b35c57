/** Callables of the C++20 coroutine layer (coroutine/callable_promise.h): the promise of a
    coroutine returning `callable_future<T>`, the awaitable a caller suspends on, and the future
    that owns the coroutine frame.

    A callee's frame is done exactly when it is suspended at its final suspend point, which is
    where `final_awaitable` sets `kFinalSuspend`; `FrameDone` reads that flag. Resuming a callee
    that has not started runs its body, which is user code: what it leaves (its status, and
    whether it reached its final suspend point) is passed in. The value type's error transform
    is the function `transform`; a `void` callable is the case `T = ()`. */
module Callables {
  import opened Optional
  import opened StdCoroutine

  /** `callable_future<T>::promise_type`. */
  class CallablePromise<T> {
    const base: PromiseBase
    var data: T
    var hasReturn: bool

    constructor(zero: T)
      ensures fresh(base) && fresh(base.manager) && base.Valid()
      ensures base.status == Created && base.flags == {} && base.currentWaiting == NullDelegate
      ensures CallerHandles(base.manager.callers) == {}
      ensures data == zero && !hasReturn
    {
      base := new PromiseBase();
      data := zero;
      hasReturn := false;
    }

    /** `handle.done()` for the handle of this promise. */
    predicate FrameDone()
      reads base`flags
    {
      base.CheckFlag(FinalSuspend)
    }

    /** `return_void`: `kDone`, unless the coroutine already finished (or was killed). */
    method ReturnVoid()
      modifies base`status
      ensures base.status >= Done
      ensures old(base.status) >= Done ==> base.status == old(base.status)
      ensures old(base.status) < Done ==> base.status == Done
    {
      if base.status < Done {
        var _, _ := base.SetStatus(Done, None);
      }
    }

    /** `return_value`: like `return_void`, and the value is stored and marked as returned. */
    method ReturnValue(v: T)
      modifies base`status, this`data, this`hasReturn
      ensures base.status >= Done
      ensures old(base.status) >= Done ==> base.status == old(base.status)
      ensures old(base.status) < Done ==> base.status == Done
      ensures data == v && hasReturn
    {
      if base.status < Done {
        var _, _ := base.SetStatus(Done, None);
      }
      data := v;
      hasReturn := true;
    }

    /** `initial_awaitable::await_resume`: a coroutine that has not started moves from
        `kCreated` to `kRunning` by compare-and-set; any other status stays. */
    method InitialResume()
      modifies base`status
      ensures base.status == if old(base.status) == Created then Running else old(base.status)
    {
      if base.status == Created {
        var _, _ := base.SetStatus(Running, Some(Created));
      }
    }

    /** `resume()` of this promise's handle: the body runs until it next suspends, leaving the
        status `ranTo`, and reaching the final suspend point when `reachesFinal` holds. */
    method Resume(ranTo: PromiseStatus, reachesFinal: bool)
      requires base.Valid()
      modifies base`status, base`flags
      ensures base.Valid() && base.status == ranTo
      ensures reachesFinal ==> FrameDone()
      ensures !reachesFinal ==> base.flags == old(base.flags)
    {
      var _, _ := base.SetStatus(ranTo, None);
      if reachesFinal {
        base.SetFlag(FinalSuspend, true);
      }
    }
  }

  /** `callable_awaitable`: the callee handle it awaits and the caller suspended on it. */
  class CallableAwaitable<T> {
    const callee: Handle
    const calleePromise: CallablePromise?<T>
    const transform: PromiseStatus -> T
    var caller: HandleDelegate

    predicate Valid()
      reads this
    {
      ((callee == NullHandle) <==> (calleePromise == null)) && caller.Valid()
    }

    constructor(callee: Handle, calleePromise: CallablePromise?<T>, transform: PromiseStatus -> T)
      requires (callee == NullHandle) <==> (calleePromise == null)
      ensures Valid() && caller == NullDelegate
      ensures this.callee == callee && this.calleePromise == calleePromise && this.transform == transform
    {
      this.callee, this.calleePromise, this.transform := callee, calleePromise, transform;
      caller := NullDelegate;
    }

    /** `await_ready`: true for a null or finished callee; a callee that has not started is
        resumed first; then true once the callee's status is `kDone` or later, or its frame
        finished. */
    method AwaitReady(ranTo: PromiseStatus, reachesFinal: bool) returns (ready: bool)
      requires Valid() && (calleePromise != null ==> calleePromise.base.Valid())
      modifies (if calleePromise != null then {calleePromise.base} else {})`status
      modifies (if calleePromise != null then {calleePromise.base} else {})`flags
      ensures callee == NullHandle ==> ready
      ensures calleePromise != null ==>
        var p := calleePromise;
        p.base.Valid()
        && p.base.status == (if !old(p.FrameDone()) && old(p.base.status) == Created then ranTo else old(p.base.status))
        && (ready <==> old(p.FrameDone()) || p.base.status >= Done || p.FrameDone())
        && (old(p.FrameDone()) || !reachesFinal ==> p.base.flags == old(p.base.flags))
    {
      if callee == NullHandle {
        return true;
      }
      if calleePromise.FrameDone() {
        return true;
      }
      if calleePromise.base.status == Created {
        calleePromise.Resume(ranTo, reachesFinal);
      }
      if calleePromise.base.status >= Done {
        return true;
      }
      ready := calleePromise.FrameDone();
    }

    /** `await_suspend(caller)`: a caller that has not finished records the callee as what it
        waits on and registers with the callee; otherwise it is resumed at once. */
    method AwaitSuspend(c: HandleDelegate, done: set<Handle>) returns (resumeCaller: bool)
      requires Valid() && calleePromise != null && calleePromise.base.Valid()
      requires c.IsSet() && c.Valid()
      modifies this`caller, c.promise`currentWaiting, calleePromise.base.manager
      ensures resumeCaller <==> c.promise.status >= Done
      ensures calleePromise.base.Valid()
      ensures resumeCaller ==>
        caller == old(caller) && c.promise.currentWaiting == old(c.promise.currentWaiting)
        && calleePromise.base.manager.callers == old(calleePromise.base.manager.callers)
      ensures !resumeCaller ==>
        caller == c && c.promise.currentWaiting == Delegate(callee, calleePromise.base)
        && CallerHandles(calleePromise.base.manager.callers)
           == CallerHandles(old(calleePromise.base.manager.callers)) + (if c.handle in done then {} else {c.handle})
    {
      if c.promise.status < Done {
        caller := c;
        c.promise.SetWaitingHandle(Delegate(callee, calleePromise.base));
        calleePromise.base.AddCaller(c, done);
        resumeCaller := false;
      } else {
        resumeCaller := true;
      }
    }

    /** `detach`: the caller leaves the callee (which inherits an error status of the caller)
        and stops waiting; a callee still short of `kDone` is then killed when it is ready or had
        no caller, and otherwise takes the caller's status. */
    method Detach(ranTo: PromiseStatus, reachesFinal: bool)
      requires Valid() && calleePromise != null && calleePromise.base.Valid()
      requires caller.IsSet() ==> caller.promise.Valid() && caller.promise != calleePromise.base
      modifies this`caller, calleePromise.base`status, calleePromise.base`flags, calleePromise.base.manager
      modifies (if caller.promise != null then {caller.promise} else {})`currentWaiting
      ensures Valid() && caller == NullDelegate && calleePromise.base.Valid()
      ensures old(caller).IsSet() ==>
        old(caller).promise.currentWaiting == NullDelegate
        && CallerHandles(calleePromise.base.manager.callers)
           == CallerHandles(old(calleePromise.base.manager.callers)) - {old(caller).handle}
      ensures !old(caller).IsSet() ==> calleePromise.base.manager.callers == old(calleePromise.base.manager.callers)
      ensures old(calleePromise.base.status) >= Done ==> calleePromise.base.status == old(calleePromise.base.status)
      ensures !old(caller).IsSet() && old(calleePromise.base.status) < Done ==> calleePromise.base.status == Killed
      ensures old(caller).IsSet() && old(caller).handle in CallerHandles(old(calleePromise.base.manager.callers))
              && old(calleePromise.base.status) < Done && old(caller.promise.status) > Done ==>
        calleePromise.base.status == old(caller.promise.status)
      ensures calleePromise.base.status >= Done
        || (old(caller).IsSet() && calleePromise.base.status == old(caller.promise.status))
    {
      var c := caller;
      var b := calleePromise.base;
      if c.IsSet() {
        b.RemoveCaller(c, true);
        c.promise.SetWaitingHandle(NullDelegate);
        caller := NullDelegate;
      }
      if b.status < Done {
        var ready := AwaitReady(ranTo, reachesFinal);
        if ready || !c.IsSet() {
          var _, _ := b.SetStatus(Killed, None);
        } else {
          var _, _ := b.SetStatus(c.promise.status, None);
        }
      }
    }

    /** `await_resume`: detaches, resumes what the callee itself was waiting on, and returns the
        callee's value, or the error transform of its status when it returned none. Each promise
        embeds its own caller manager, so the awaited promise's manager is not the callee's. */
    method AwaitResume(ranTo: PromiseStatus, reachesFinal: bool, done: set<Handle>) returns (v: T)
      requires Valid() && calleePromise != null && calleePromise.base.Valid()
      requires caller.IsSet() ==> caller.promise.Valid() && caller.promise != calleePromise.base
      requires var w := calleePromise.base.currentWaiting;
        w.IsSet() ==> w.promise.Valid() && w.promise != calleePromise.base
                      && w.promise.manager != calleePromise.base.manager
      modifies this`caller, calleePromise.base`status, calleePromise.base`flags, calleePromise.base.manager
      modifies (if caller.promise != null then {caller.promise} else {})`currentWaiting
      modifies calleePromise.base`currentWaiting
      modifies if calleePromise.base.currentWaiting.promise != null
               then {calleePromise.base.currentWaiting.promise, calleePromise.base.currentWaiting.promise.manager} else {}
      ensures caller == NullDelegate
      ensures calleePromise.hasReturn ==> v == calleePromise.data
      ensures !calleePromise.hasReturn ==> v == transform(calleePromise.base.status)
      ensures old(calleePromise.base.status) >= Done ==> calleePromise.base.status == old(calleePromise.base.status)
      ensures !old(caller).IsSet() && old(calleePromise.base.status) < Done ==> calleePromise.base.status == Killed
      ensures var w := old(calleePromise.base.currentWaiting);
        if w.IsSet() && w.handle !in done then
          calleePromise.base.currentWaiting == NullDelegate
          && CallerHandles(w.promise.manager.callers) == CallerHandles(old(w.promise.manager.callers)) - {callee}
          && w.promise.status == InheritStatus(old(w.promise.status), callee in CallerHandles(old(w.promise.manager.callers)),
                                               true, if callee == NullHandle then None else Some(calleePromise.base.status))
        else
          calleePromise.base.currentWaiting == w
    {
      var b := calleePromise.base;
      var w := b.currentWaiting;
      Detach(ranTo, reachesFinal);
      assert b.currentWaiting == w;
      var _ := b.ResumeWaiting(Delegate(callee, b), true, done);
      if !calleePromise.hasReturn {
        v := transform(b.status);
      } else {
        v := calleePromise.data;
      }
    }
  }

  /** The coroutine frames that exist: `callable_future`'s destructor destroys the frame it
      owns. */
  class FrameHeap {
    var live: set<Handle>

    constructor(live: set<Handle>)
      ensures this.live == live
    {
      this.live := live;
    }
  }

  /** `callable_future`: the owner of a callee's handle (null once moved from). */
  class CallableFuture<T> {
    var handle: Handle
    var promise: CallablePromise?<T>

    predicate Valid()
      reads this
    {
      (handle == NullHandle) <==> (promise == null)
    }

    constructor(h: Handle, p: CallablePromise?<T>)
      requires (h == NullHandle) <==> (p == null)
      ensures Valid() && handle == h && promise == p
    {
      handle, promise := h, p;
    }

    /** The move constructor: takes the handle and leaves `other` null. */
    constructor FromFuture(other: CallableFuture<T>)
      requires other.Valid()
      modifies other
      ensures Valid() && other.Valid()
      ensures handle == old(other.handle) && promise == old(other.promise)
      ensures other.handle == NullHandle
    {
      handle, promise := other.handle, other.promise;
      new;
      other.handle, other.promise := NullHandle, null;
    }

    /** `is_ready`: the frame is done. */
    predicate IsReady()
      requires promise != null
      reads this, promise.base`flags
    {
      promise.FrameDone()
    }

    /** `get_status`: the promise's status. */
    function GetStatus(): PromiseStatus
      requires promise != null
      reads this, promise.base`status
    {
      promise.base.status
    }

    /** `operator co_await`. */
    method CoAwait(transform: PromiseStatus -> T) returns (a: CallableAwaitable<T>)
      requires Valid()
      ensures fresh(a) && a.Valid() && a.caller == NullDelegate
      ensures a.callee == handle && a.calleePromise == promise && a.transform == transform
    {
      a := new CallableAwaitable(handle, promise, transform);
    }

    /** The destructor: destroys the owned frame. */
    method Destroy(heap: FrameHeap)
      modifies heap
      ensures heap.live == old(heap.live) - (if handle == NullHandle then {} else {handle})
    {
      if handle != NullHandle {
        heap.live := heap.live - {handle};
      }
    }

    /** The move assignment as written: takes `other`'s handle and leaves `other` null, without
        destroying the frame this future owned before (and a self-move leaves it null). */
    method MoveAssignAsWritten(other: CallableFuture<T>)
      requires Valid() && other.Valid()
      modifies this, other
      ensures Valid() && other.Valid() && other.handle == NullHandle
      ensures other != this ==> handle == old(other.handle) && promise == old(other.promise)
    {
      handle, promise := other.handle, other.promise;
      other.handle, other.promise := NullHandle, null;
    }

    /** The move assignment with the release it needs: the frame owned before is destroyed
        unless it is the one being moved in, and a self-move changes nothing. */
    method MoveAssign(other: CallableFuture<T>, heap: FrameHeap)
      requires Valid() && other.Valid()
      modifies this, other, heap
      ensures Valid() && other.Valid()
      ensures other == this ==> handle == old(handle) && promise == old(promise) && heap.live == old(heap.live)
      ensures other != this ==>
        handle == old(other.handle) && promise == old(other.promise) && other.handle == NullHandle
        && heap.live == old(heap.live) - (if old(handle) in {NullHandle, old(other.handle)} then {} else {old(handle)})
    {
      if other == this {
        return;
      }
      if handle != NullHandle && handle != other.handle {
        heap.live := heap.live - {handle};
      }
      handle, promise := other.handle, other.promise;
      other.handle, other.promise := NullHandle, null;
    }
  }

  /** Two futures owning frames 1 and 2; after `a = std::move(b)` as written and the destruction
      of both, frame 1 is still alive with no future owning it. */
  method MoveAssignLeaksFrame() returns (heap: FrameHeap)
    ensures heap.live == {1}
  {
    heap := new FrameHeap({1, 2});
    var p1 := new CallablePromise<int>(0);
    var p2 := new CallablePromise<int>(0);
    var a := new CallableFuture(1, p1);
    var b := new CallableFuture(2, p2);
    a.MoveAssignAsWritten(b);
    a.Destroy(heap);
    b.Destroy(heap);
  }

  /** The same steps with the corrected move assignment destroy both frames. */
  method MoveAssignReleasesFrame() returns (heap: FrameHeap)
    ensures heap.live == {}
  {
    heap := new FrameHeap({1, 2});
    var p1 := new CallablePromise<int>(0);
    var p2 := new CallablePromise<int>(0);
    var a := new CallableFuture(1, p1);
    var b := new CallableFuture(2, p2);
    a.MoveAssign(b, heap);
    a.Destroy(heap);
    b.Destroy(heap);
  }

  /** A caller awaiting a callable that has not started: the callee runs to its first
      suspension, the caller registers and waits on it; when the callee returns `v` and reaches
      its final suspension, the caller is resumed and receives `v`. */
  method AwaitCallable(v: int) returns (received: int, resumed: set<Handle>)
    ensures resumed == {1} && received == v
  {
    var a, calleePromise, callerPromise := WaitOnCallee();
    calleePromise.ReturnValue(v);
    resumed := calleePromise.base.FinalAwaitSuspend({});
    received := a.AwaitResume(Running, false, {2});
  }

  /** The first half of `AwaitCallable`: the callee has run to its first suspension and the
      caller (handle 1) is registered with it and waits on it. */
  method WaitOnCallee() returns (a: CallableAwaitable<int>, calleePromise: CallablePromise<int>, callerPromise: PromiseBase)
    ensures fresh(a) && fresh(calleePromise) && fresh(calleePromise.base) && fresh(calleePromise.base.manager)
    ensures fresh(callerPromise) && fresh(callerPromise.manager)
    ensures callerPromise != calleePromise.base && callerPromise.manager != calleePromise.base.manager
    ensures a.Valid() && a.callee == 2 && a.calleePromise == calleePromise
    ensures a.caller == Delegate(1, callerPromise) && callerPromise.Valid()
    ensures calleePromise.base.Valid() && calleePromise.base.currentWaiting == NullDelegate
    ensures CallerHandles(calleePromise.base.manager.callers) == {1}
  {
    callerPromise := new PromiseBase();
    calleePromise := new CallablePromise<int>(0);
    var f := new CallableFuture(2, calleePromise);
    a := f.CoAwait(IntegerErrorTransform);
    var ready := a.AwaitReady(Running, false);
    assert !ready;
    var resumeNow := a.AwaitSuspend(Delegate(1, callerPromise), {});
    assert !resumeNow;
  }
}
