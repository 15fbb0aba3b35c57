/** Generators of the C++20 coroutine layer (coroutine/generator_promise.h): a shared context
    holding the value a generator produces and the callers waiting for it, the awaitable a
    caller suspends on, and the future that hands out awaitables.

    The value type's error transform (`promise_error_transform`) is the function `transform`;
    a `void` generator is the case `T = ()`, whose `set_value()` is `SetValue(())`. The suspend
    and resume callbacks are user code and are left out. */
module GeneratorPromise {
  import opened Optional
  import opened StdCoroutine

  /** `generator_context`: the produced value (its `future`), ready once set, and its callers. */
  class GeneratorContext<T> {
    var data: Option<T>
    const manager: CallerManager
    const isVoid: bool
    const transform: PromiseStatus -> T

    predicate Valid()
      reads manager
    {
      manager.Valid()
    }

    /** `is_ready`. */
    predicate IsReady()
      reads this`data
    {
      data.Some?
    }

    /** `is_pending`: the negation of `is_ready`. */
    predicate IsPending()
      reads this`data
    {
      data.None?
    }

    constructor(isVoid: bool, transform: PromiseStatus -> T)
      ensures Valid() && IsPending() && fresh(manager) && CallerHandles(manager.callers) == {}
      ensures this.isVoid == isVoid && this.transform == transform
    {
      data := None;
      manager := new CallerManager();
      this.isVoid, this.transform := isVoid, transform;
    }

    /** `data()` of a non-void context: null while the context is pending. */
    function Value(): (r: Option<T>)
      reads this`data
      ensures r.Some? <==> IsReady()
      ensures IsPending() ==> r == None
    {
      if !IsReady() then None else data
    }

    /** `reset_value`: pending again. */
    method ResetValue()
      modifies this`data
      ensures IsPending()
    {
      data := None;
    }

    /** `set_value`: ready with `v`, then `wake` resumes the waiting callers. */
    method SetValue(v: T, done: set<Handle>) returns (resumed: set<Handle>)
      requires Valid()
      modifies this`data, manager`callers
      ensures Valid() && IsReady() && Value() == Some(v)
      ensures resumed == CallerHandles(old(manager.callers)) - done
      ensures CallerHandles(manager.callers) == {}
    {
      data := Some(v);
      resumed := manager.ResumeCallers(done);
    }

    /** The destructor: a non-void context still pending is given the transformed `kKilled`
        value, so that its callers receive an error; in every case the callers are woken. */
    method Destroy(done: set<Handle>) returns (resumed: set<Handle>)
      requires Valid()
      modifies this`data, manager`callers
      ensures Valid()
      ensures !isVoid && old(IsPending()) ==> data == Some(transform(Killed))
      ensures isVoid || old(IsReady()) ==> data == old(data)
      ensures resumed == CallerHandles(old(manager.callers)) - done
      ensures CallerHandles(manager.callers) == {}
    {
      if !isVoid && IsPending() {
        resumed := SetValue(transform(Killed), done);
      } else {
        resumed := manager.ResumeCallers(done);
      }
    }
  }

  /** `generator_awaitable`: the context it awaits (null for a moved-from future) and the caller
      suspended on it. */
  class GeneratorAwaitable<T> {
    const context: GeneratorContext?<T>
    var caller: HandleDelegate

    constructor(context: GeneratorContext?<T>)
      ensures this.context == context && caller == NullDelegate
    {
      this.context := context;
      caller := NullDelegate;
    }

    /** `await_ready`: no context, or a ready one, means no suspension. */
    predicate AwaitReady()
      reads this, if context != null then {context} else {}
    {
      context == null || context.IsReady()
    }

    /** `await_suspend(caller)`: a caller that has not finished registers with the context and
        marks itself as internally waiting; otherwise it is resumed at once. */
    method AwaitSuspend(c: HandleDelegate, done: set<Handle>) returns (resumeCaller: bool)
      requires c.IsSet() && c.Valid() && c.promise.Valid()
      requires context != null ==> context.Valid()
      modifies this`caller, c.promise`flags, if context != null then {context.manager} else {}
      ensures resumeCaller <==> context == null || c.promise.status >= Done
      ensures resumeCaller ==> caller == old(caller) && c.promise.flags == old(c.promise.flags)
      ensures resumeCaller && context != null ==> context.manager.callers == old(context.manager.callers)
      ensures !resumeCaller ==>
        caller == c && c.promise.Valid() && c.promise.CheckFlag(InternalWaiting)
        && context.Valid()
        && CallerHandles(context.manager.callers) == CallerHandles(old(context.manager.callers)) + (if c.handle in done then {} else {c.handle})
    {
      if context != null && c.promise.status < Done {
        caller := c;
        context.manager.AddCaller(c, done);
        c.promise.SetFlag(InternalWaiting, true);
        resumeCaller := false;
      } else {
        resumeCaller := true;
      }
    }

    /** The status `detach` reports: `kInvalid` without a context, `kDone` when it is ready,
        otherwise the status of the suspended caller or, without one, `kKilled`. */
    function DetachStatus(): (r: PromiseStatus)
      requires caller.Valid()
      reads this, if context != null then {context} else {}, if caller.promise != null then {caller.promise} else {}
      ensures r == Done <==> context != null && (context.IsReady() || (caller.IsSet() && caller.promise.status == Done))
      ensures context == null ==> r == Invalid
      ensures context != null && context.IsPending() && !caller.IsSet() ==> r == Killed
    {
      if context == null then Invalid
      else if context.IsReady() then Done
      else if caller.IsSet() then caller.promise.status
      else Killed
    }

    /** `detach`: forgets the caller, clears its waiting flag and unregisters it from the
        context; the result is `DetachStatus` of the state before. */
    method Detach() returns (result: PromiseStatus)
      requires caller.Valid() && (caller.IsSet() ==> caller.promise.Valid())
      requires context != null ==> context.Valid()
      modifies this`caller, (if caller.promise != null then {caller.promise} else {})`flags
      modifies if context != null then {context.manager} else {}
      ensures result == old(DetachStatus())
      ensures caller == NullDelegate
      ensures old(caller).IsSet() ==>
        var p := old(caller).promise;
        p.Valid() && !p.CheckFlag(InternalWaiting)
        && (forall g :: g != InternalWaiting ==> p.CheckFlag(g) == old(p.CheckFlag(g)))
      ensures context != null ==> context.Valid()
      ensures context != null && old(caller).IsSet() ==>
        CallerHandles(context.manager.callers) == CallerHandles(old(context.manager.callers)) - {old(caller).handle}
      ensures context != null && !old(caller).IsSet() ==> context.manager.callers == old(context.manager.callers)
    {
      result := if context == null then Invalid else if context.IsReady() then Done else Killed;
      var c := caller;
      if c.IsSet() {
        c.promise.SetFlag(InternalWaiting, false);
        if context != null {
          if !context.IsReady() {
            result := c.promise.status;
          }
          var _ := context.manager.RemoveCaller(c);
        }
        caller := NullDelegate;
      }
    }

    /** `await_resume` of a non-void generator: the produced value when the context was ready,
        otherwise the error transform of the detach status. */
    method AwaitResume() returns (v: T)
      requires context != null
      requires caller.Valid() && (caller.IsSet() ==> caller.promise.Valid())
      requires context.Valid()
      modifies this`caller, (if caller.promise != null then {caller.promise} else {})`flags
      modifies context.manager
      ensures caller == NullDelegate && context.Valid()
      ensures old(context.IsReady()) ==> v == old(context.data.value)
      ensures old(context.IsPending()) ==> v == context.transform(old(DetachStatus()))
      ensures old(caller).IsSet() ==>
        !old(caller).promise.CheckFlag(InternalWaiting)
        && CallerHandles(context.manager.callers) == CallerHandles(old(context.manager.callers)) - {old(caller).handle}
    {
      var result := Detach();
      if result != Done {
        v := context.transform(result);
      } else if context.IsReady() {
        v := context.data.value;
      } else {
        // the caller itself reported `kDone`
        v := context.transform(result);
      }
    }
  }

  /** `generator_future`: a shared reference to a context, null once moved from. */
  class GeneratorFuture<T> {
    var context: GeneratorContext?<T>

    constructor(isVoid: bool, transform: PromiseStatus -> T)
      ensures context != null && fresh(context) && fresh(context.manager)
      ensures context.Valid() && context.IsPending()
      ensures context.isVoid == isVoid && context.transform == transform
      ensures CallerHandles(context.manager.callers) == {}
    {
      context := new GeneratorContext(isVoid, transform);
    }

    /** `is_ready`: false without a context. */
    predicate IsReady()
      reads this, if context != null then {context} else {}
    {
      context != null && context.IsReady()
    }

    /** `is_pending`: false without a context. */
    predicate IsPending()
      reads this, if context != null then {context} else {}
    {
      context != null && context.IsPending()
    }

    /** `get_status`: `kInvalid` without a context, `kDone` once ready, `kRunning` before. */
    function GetStatus(): (r: PromiseStatus)
      reads this, if context != null then {context} else {}
      ensures r == Invalid <==> !IsReady() && !IsPending()
      ensures r == Done <==> IsReady()
      ensures r == Running <==> IsPending()
      ensures r in {Invalid, Running, Done}
    {
      if context == null then Invalid else if context.IsReady() then Done else Running
    }

    /** `operator co_await`: a new awaitable on the same context. */
    method CoAwait() returns (a: GeneratorAwaitable<T>)
      ensures fresh(a) && a.context == context && a.caller == NullDelegate
    {
      a := new GeneratorAwaitable(context);
    }
  }

  /** A caller that suspends on a pending generator is resumed by `set_value` and receives the
      value, with its waiting flag cleared and nothing left registered. */
  method SuspendSetResume(v: int, h: Handle) returns (received: int, resumed: set<Handle>)
    requires h != NullHandle
    ensures resumed == {h} && received == v
  {
    var f := new GeneratorFuture(false, IntegerErrorTransform);
    var callerPromise := new PromiseBase();
    var c := Delegate(h, callerPromise);
    var a := f.CoAwait();
    assert !a.AwaitReady();
    var resumeNow := a.AwaitSuspend(c, {});
    resumed := f.context.SetValue(v, {});
    received := a.AwaitResume();
    assert !callerPromise.CheckFlag(InternalWaiting);
  }

  /** A caller resumed before the generator produced anything receives the error transform of
      its own status, here `kKilled`. */
  method KilledCallerGetsError(h: Handle) returns (received: int)
    requires h != NullHandle
    ensures received == IntegerErrorTransform(Killed) == -5
  {
    var f := new GeneratorFuture(false, IntegerErrorTransform);
    var callerPromise := new PromiseBase();
    var c := Delegate(h, callerPromise);
    var a := f.CoAwait();
    var resumeNow := a.AwaitSuspend(c, {});
    var _, _ := callerPromise.SetStatus(Killed, None);
    received := a.AwaitResume();
  }
}
