/** `future_t` (future/future.h): a poll that is filled by its context's handler, with the
    context's wake function installed while the future is pending and cleared once it is
    ready. The context's handler (its private data's call operator, or the poll function) is
    user code: what it leaves in the poll is a parameter. */
module Futures {
  import opened Optional
  import opened FutureStorage
  import opened FuturePoll

  /** A context's `wake_fn_`: empty, the `wake_future_t` this future installs, or one the
      user installed. */
  datatype Waker<T> = NoWaker | WakeFuture(target: Future<T>) | OtherWaker(tag: nat)

  /** The part of `context_t` a future touches: whether it has a handler, and its wake
      function. */
  class Context<T> {
    const hasHandler: bool
    var wake: Waker<T>

    constructor(hasHandler: bool)
      ensures this.hasHandler == hasHandler && wake == NoWaker
    {
      this.hasHandler := hasHandler;
      wake := NoWaker;
    }

    /** `set_wake_fn`. */
    method SetWake(w: Waker<T>)
      modifies this`wake
      ensures wake == w
    {
      wake := w;
    }

    /** `wake`: calls the wake function if there is one. The future's own waker polls that
        future again; a user's waker is outside this model. */
    method Wake(produced: PollStorage<T>)
      requires wake.WakeFuture? ==> wake.target.pollData.Valid() && KindOf(produced) == wake.target.pollData.kind
      modifies this`wake, if wake.WakeFuture? then {wake.target.pollData} else {}
      ensures old(wake).WakeFuture? ==>
        var f := old(wake).target;
        f.pollData.Valid()
        && (old(f.IsReady()) ==> unchanged(f.pollData) && wake == old(wake))
        && (!old(f.IsReady()) ==>
              f.pollData.storage == (if hasHandler then produced else old(f.pollData.storage))
              && (f.IsReady() <==> wake == NoWaker))
      ensures !old(wake).WakeFuture? ==> wake == old(wake)
    {
      if wake.WakeFuture? {
        var f := wake.target;
        f.Poll(this, produced);
      }
    }
  }

  class Future<T> {
    const pollData: Poll<T>

    constructor(kind: PollKind, zero: T)
      ensures fresh(pollData) && pollData.Valid() && pollData.kind == kind && IsPending()
    {
      pollData := new Poll(kind, zero);
    }

    /** `is_ready`. */
    predicate IsReady()
      reads pollData
    {
      pollData.IsReady()
    }

    /** `is_pending`. */
    predicate IsPending()
      reads pollData
    {
      pollData.IsPending()
    }

    /** `data`: null while pending, otherwise the poll's value. */
    function Value(): (r: Option<T>)
      requires pollData.Valid() && pollData.kind != VoidPoll
      reads pollData
      ensures r.Some? <==> IsReady()
    {
      if !IsReady() then None else pollData.Value()
    }

    /** `poll(ctx)`: nothing when already ready. Otherwise the context's handler, if any, gets
        to fill the poll (leaving `produced` in it); a future that is then ready clears the
        context's wake function, and one still pending installs its own waker unless the
        context already has one. */
    method Poll(ctx: Context<T>, produced: PollStorage<T>)
      requires pollData.Valid() && KindOf(produced) == pollData.kind
      modifies pollData`storage, ctx`wake
      ensures pollData.Valid()
      ensures old(IsReady()) ==> pollData.storage == old(pollData.storage) && ctx.wake == old(ctx.wake)
      ensures !old(IsReady()) ==>
        pollData.storage == (if ctx.hasHandler then produced else old(pollData.storage))
        && (IsReady() ==> ctx.wake == NoWaker)
        && (IsPending() ==> ctx.wake == if old(ctx.wake) == NoWaker then WakeFuture(this) else old(ctx.wake))
      ensures !old(IsReady()) ==> (IsReady() <==> ctx.wake == NoWaker)
    {
      if IsReady() {
        return;
      }
      if ctx.hasHandler {
        pollData.storage := produced;
      }
      if IsReady() {
        if ctx.wake != NoWaker {
          ctx.SetWake(NoWaker);
        }
      } else {
        if ctx.wake == NoWaker {
          ctx.SetWake(WakeFuture(this));
        }
      }
    }
  }

  /** A pending future polled through a context without a handler stays pending and leaves its
      own waker installed; once woken with a handler that produces a value it is ready with that
      value and the waker is gone. */
  method PollThenWake(v: int) returns (f: Future<int>, ctx: Context<int>)
    ensures f.pollData.Valid() && f.pollData.kind == SmallPoll
    ensures f.IsReady() && f.Value() == Some(v) && ctx.wake == NoWaker
  {
    f := new Future(SmallPoll, 0);
    var idle := new Context(false);
    f.Poll(idle, DefaultStorage(SmallPoll, 0));
    assert idle.wake == WakeFuture(f);
    ctx := new Context(true);
    ctx.SetWake(idle.wake);
    ctx.Wake(ConstructFromValue(v));
  }
}
