/** The waiting machinery behind `some`, `any` and `all` (coroutine/algorithm_common.h):
    `run` splits the given futures into those still pending and those ready, then repeatedly
    suspends until enough of them are ready, rescanning the pending ones when it is resumed.

    Futures are the pointers `run` keeps, abstract ids here; which of them are still pending
    (`is_pending` of the delegate action) is passed in as the set `stillPending`. The delegate
    action's `resume_future` and `suspend_future` are user code: an operation that calls them
    returns the futures it calls them on. */
module SomeAlgorithm {
  import opened Optional
  import opened StdCoroutine

  type FutureRef = nat

  /** The futures of `s` that are still pending, in their order in `s`. */
  function PendingOf(s: seq<FutureRef>, stillPending: set<FutureRef>): seq<FutureRef>
  {
    if s == [] then [] else (if s[0] in stillPending then [s[0]] else []) + PendingOf(s[1..], stillPending)
  }

  /** The futures of `s` that are ready, in their order in `s`. */
  function ReadyOf(s: seq<FutureRef>, stillPending: set<FutureRef>): seq<FutureRef>
  {
    if s == [] then [] else (if s[0] !in stillPending then [s[0]] else []) + ReadyOf(s[1..], stillPending)
  }

  lemma ConcatAssoc(a: seq<FutureRef>, b: seq<FutureRef>, c: seq<FutureRef>)
    ensures a + (b + c) == (a + b) + c
  {
  }

  /** One step of the split, at position `i` of `s`. */
  lemma SplitStep(s: seq<FutureRef>, i: nat, stillPending: set<FutureRef>)
    requires i < |s|
    ensures PendingOf(s[i..], stillPending) == (if s[i] in stillPending then [s[i]] else []) + PendingOf(s[i + 1..], stillPending)
    ensures ReadyOf(s[i..], stillPending) == (if s[i] !in stillPending then [s[i]] else []) + ReadyOf(s[i + 1..], stillPending)
  {
    assert s[i..][1..] == s[i + 1..];
  }

  /** The two lists split `s`: together they hold every element of `s`, as often as `s` does. */
  lemma {:induction false} PartitionIsPermutation(s: seq<FutureRef>, stillPending: set<FutureRef>)
    ensures multiset(PendingOf(s, stillPending)) + multiset(ReadyOf(s, stillPending)) == multiset(s)
    ensures |PendingOf(s, stillPending)| + |ReadyOf(s, stillPending)| == |s|
  {
    if s != [] {
      PartitionIsPermutation(s[1..], stillPending);
      assert s == [s[0]] + s[1..];
    }
  }

  /** Moving the ready futures of `pending` to the end of `ready` loses and adds nothing. */
  lemma MoveKeepsFutures(pending: seq<FutureRef>, ready: seq<FutureRef>, stillPending: set<FutureRef>)
    ensures multiset(PendingOf(pending, stillPending)) + multiset(ready + ReadyOf(pending, stillPending))
      == multiset(pending) + multiset(ready)
  {
    PartitionIsPermutation(pending, stillPending);
  }

  /** The pending list holds exactly the elements of `s` that are still pending, and the ready
      list the others. */
  lemma {:induction false} PartitionMembers(s: seq<FutureRef>, stillPending: set<FutureRef>, x: FutureRef)
    ensures x in PendingOf(s, stillPending) <==> x in s && x in stillPending
    ensures x in ReadyOf(s, stillPending) <==> x in s && x !in stillPending
  {
    if s != [] {
      PartitionMembers(s[1..], stillPending, x);
      assert x in s <==> x == s[0] || x in s[1..];
    }
  }

  /** `ready_count` clamped as written: to the pending futures plus the size of the output
      container the caller passed in. */
  function ReadyBoundAsWritten(readyCount: nat, pendingCount: nat, outputSize: nat): (r: nat)
    ensures r <= readyCount && r <= pendingCount + outputSize
    ensures r == readyCount || r == pendingCount + outputSize
  {
    if readyCount >= pendingCount + outputSize then pendingCount + outputSize else readyCount
  }

  /** `ready_count` clamped to the number of futures `run` was given. */
  function ReadyBound(readyCount: nat, pendingCount: nat, readyNow: nat): (r: nat)
    ensures r <= readyCount && r <= pendingCount + readyNow
    ensures r == readyCount || r == pendingCount + readyNow
  {
    if readyCount >= pendingCount + readyNow then pendingCount + readyNow else readyCount
  }

  /** The first loop of `run`: each future goes to `pending` if it is still pending and to
      `ready` otherwise, keeping the given order. */
  method SplitFutures(futures: seq<FutureRef>, stillPending: set<FutureRef>) returns (pending: seq<FutureRef>, ready: seq<FutureRef>)
    ensures pending == PendingOf(futures, stillPending) && ready == ReadyOf(futures, stillPending)
  {
    pending, ready := [], [];
    var i := 0;
    while i < |futures|
      invariant 0 <= i <= |futures|
      invariant PendingOf(futures, stillPending) == pending + PendingOf(futures[i..], stillPending)
      invariant ReadyOf(futures, stillPending) == ready + ReadyOf(futures[i..], stillPending)
    {
      SplitStep(futures, i, stillPending);
      if futures[i] in stillPending {
        ConcatAssoc(pending, [futures[i]], PendingOf(futures[i + 1..], stillPending));
        pending := pending + [futures[i]];
      } else {
        ConcatAssoc(ready, [futures[i]], ReadyOf(futures[i + 1..], stillPending));
        ready := ready + [futures[i]];
      }
      i := i + 1;
    }
  }

  /** The loop of `scan_ready` over the pending list: a future that is no longer pending is
      erased where it stands and appended to `moved`; the others are stepped over. */
  method ErasePending(pending: seq<FutureRef>, stillPending: set<FutureRef>) returns (kept: seq<FutureRef>, moved: seq<FutureRef>)
    ensures kept == PendingOf(pending, stillPending) && moved == ReadyOf(pending, stillPending)
  {
    kept, moved := pending, [];
    ghost var j := 0;
    var i := 0;
    while i < |kept|
      invariant 0 <= i <= |kept| && 0 <= j <= |pending|
      invariant kept[i..] == pending[j..]
      invariant PendingOf(pending, stillPending) == kept[..i] + PendingOf(pending[j..], stillPending)
      invariant ReadyOf(pending, stillPending) == moved + ReadyOf(pending[j..], stillPending)
      decreases |kept| - i
    {
      SplitStep(pending, j, stillPending);
      var f := kept[i];
      if f in stillPending {
        assert kept[..i + 1] == kept[..i] + [f];
        ConcatAssoc(kept[..i], [f], PendingOf(pending[j + 1..], stillPending));
        i := i + 1;
      } else {
        ConcatAssoc(moved, [f], ReadyOf(pending[j + 1..], stillPending));
        moved := moved + [f];
        ghost var before := kept;
        kept := kept[..i] + kept[i + 1..];
        assert kept[..i] == before[..i] && kept[i..] == before[i + 1..];
      }
      j := j + 1;
    }
    assert kept[..i] == kept;
  }

  /** `some_delegate_context`. */
  class SomeContext {
    var pending: seq<FutureRef>
    var ready: seq<FutureRef>
    var readyBound: nat
    var scanBound: nat
    var status: PromiseStatus
    var callerHandle: HandleDelegate
    /** The futures `run` was given. */
    ghost var inputs: multiset<FutureRef>

    /** Every future given to `run` is in exactly one of the two lists. */
    ghost predicate Valid()
      reads this`pending, this`ready, this`inputs, this`callerHandle
    {
      multiset(pending) + multiset(ready) == inputs && callerHandle.Valid()
    }

    /** The construction of the context in `run` followed by its first loop: each future goes
        to `pending` if it is still pending and to `ready` otherwise, keeping the given order. */
    constructor(futures: seq<FutureRef>, stillPending: set<FutureRef>)
      ensures Valid() && inputs == multiset(futures)
      ensures pending == PendingOf(futures, stillPending)
      ensures ready == ReadyOf(futures, stillPending)
      ensures readyBound == 0 && scanBound == 0
      ensures status == Created && callerHandle == NullDelegate
    {
      readyBound, scanBound := 0, 0;
      status := Created;
      callerHandle := NullDelegate;
      var p, r := SplitFutures(futures, stillPending);
      pending, ready := p, r;
      inputs := multiset(futures);
      PartitionIsPermutation(futures, stillPending);
    }

    /** `scan_ready`: every future that is no longer pending moves, in order, from `pending` to
        the end of `ready`, and is resumed; the pending ones stay where they were. */
    method ScanReady(stillPending: set<FutureRef>) returns (resumed: seq<FutureRef>)
      requires Valid()
      modifies this`pending, this`ready
      ensures Valid()
      ensures pending == PendingOf(old(pending), stillPending)
      ensures ready == old(ready) + ReadyOf(old(pending), stillPending)
      ensures resumed == ReadyOf(old(pending), stillPending)
    {
      var kept;
      kept, resumed := ErasePending(pending, stillPending);
      MoveKeepsFutures(pending, ready, stillPending);
      pending, ready := kept, ready + resumed;
    }

    /** The second half of the awaitable's `await_resume`: one more resume is counted, and
        once the count reaches the bound the pending futures are rescanned, the count is reset
        to the number ready, and the context is done if that reaches the bound. */
    method CountResume(stillPending: set<FutureRef>) returns (resumed: seq<FutureRef>)
      requires Valid()
      modifies this`pending, this`ready, this`scanBound, this`status
      ensures Valid()
      ensures old(scanBound + 1 < readyBound) ==>
        resumed == [] && scanBound == old(scanBound) + 1
        && pending == old(pending) && ready == old(ready) && status == old(status)
      ensures old(scanBound + 1 >= readyBound) ==>
        resumed == ReadyOf(old(pending), stillPending)
        && pending == PendingOf(old(pending), stillPending)
        && ready == old(ready) + resumed
        && scanBound == |ready|
        && status == (if |ready| >= readyBound && old(status) < Done then Done else old(status))
      ensures status == Done && old(status) < Done ==> |ready| >= readyBound
    {
      scanBound := scanBound + 1;
      resumed := [];
      if scanBound >= readyBound {
        resumed := ScanReady(stillPending);
        MarkReady();
      }
    }

    /** After a rescan the count restarts at the number of ready futures, and the context is
        done once that reaches the bound. */
    method MarkReady()
      modifies this`scanBound, this`status
      ensures scanBound == |ready|
      ensures status == (if |ready| >= readyBound && old(status) < Done then Done else old(status))
    {
      scanBound := |ready|;
      if scanBound >= readyBound && status < Done {
        status := Done;
      }
    }

    /** The head of `run`'s loop: the status `co_yield` reports for the awaiting coroutine; one
        at or after `kDone` (the caller was killed) ends the loop with that status. */
    method YieldCheck(current: PromiseStatus) returns (stop: bool)
      modifies this`status
      ensures stop <==> current >= Done
      ensures status == if stop then current else old(status)
    {
      stop := current >= Done;
      if stop {
        status := current;
      }
    }

    /** `force_resume_all`, run by the destructor of `run`'s promise when a caller is set:
        every pending future is resumed, the caller is dropped, and the context ends at `kDone`
        or later, taking a finished caller's status and `kKilled` otherwise. */
    method ForceResumeAll() returns (resumed: seq<FutureRef>)
      requires Valid()
      modifies this`status, this`callerHandle
      ensures Valid() && resumed == pending
      ensures callerHandle == NullDelegate && status >= Done
      ensures old(status) >= Done ==> status == old(status)
      ensures old(status) < Done && old(callerHandle).IsSet() && old(callerHandle.promise.status) >= Done ==>
        status == old(callerHandle.promise.status)
      ensures old(status) < Done && !(old(callerHandle).IsSet() && old(callerHandle.promise.status) >= Done) ==>
        status == Killed
    {
      resumed := pending;
      if status < Done && callerHandle.promise != null {
        status := callerHandle.promise.status;
      }
      callerHandle := NullDelegate;
      if status < Done {
        status := Killed;
      }
    }

    /** The end of `run`: the ready futures are swapped into the caller's container. */
    method Finish(output: seq<FutureRef>) returns (result: seq<FutureRef>)
      modifies this`ready
      ensures result == old(ready) && ready == output
    {
      result := ready;
      ready := output;
    }
  }

  /** The start of `run` as written: the futures are collected; with enough of them ready it
      finishes at once with `kDone`; otherwise the bound is `ReadyBoundAsWritten` and the
      context starts running. */
  method BeginAsWritten(futures: seq<FutureRef>, readyCount: nat, outputSize: nat, stillPending: set<FutureRef>)
    returns (ctx: SomeContext, finished: bool)
    ensures fresh(ctx) && ctx.Valid() && ctx.inputs == multiset(futures)
    ensures ctx.pending == PendingOf(futures, stillPending) && ctx.ready == ReadyOf(futures, stillPending)
    ensures ctx.callerHandle == NullDelegate
    ensures finished <==> |ctx.ready| >= readyCount
    ensures finished ==> ctx.status == Created
    ensures !finished ==>
      ctx.status == Running && ctx.scanBound == |ctx.ready|
      && ctx.readyBound == ReadyBoundAsWritten(readyCount, |ctx.pending|, outputSize)
  {
    ctx := new SomeContext(futures, stillPending);
    if |ctx.ready| >= readyCount {
      return ctx, true;
    }
    ctx.readyBound := ReadyBoundAsWritten(readyCount, |ctx.pending|, outputSize);
    ctx.scanBound := |ctx.ready|;
    ctx.status := Running;
    finished := false;
  }

  /** The start of `run` with the bound clamped to the futures it was given. */
  method Begin(futures: seq<FutureRef>, readyCount: nat, stillPending: set<FutureRef>)
    returns (ctx: SomeContext, finished: bool)
    ensures fresh(ctx) && ctx.Valid() && ctx.inputs == multiset(futures)
    ensures ctx.pending == PendingOf(futures, stillPending) && ctx.ready == ReadyOf(futures, stillPending)
    ensures ctx.callerHandle == NullDelegate
    ensures finished <==> |ctx.ready| >= readyCount
    ensures finished ==> ctx.status == Created
    ensures !finished ==>
      ctx.status == Running && ctx.scanBound == |ctx.ready|
      && ctx.readyBound == (if readyCount <= |futures| then readyCount else |futures|)
  {
    ctx := new SomeContext(futures, stillPending);
    PartitionIsPermutation(futures, stillPending);
    if |ctx.ready| >= readyCount {
      return ctx, true;
    }
    ctx.readyBound := ReadyBound(readyCount, |ctx.pending|, |ctx.ready|);
    ctx.scanBound := |ctx.ready|;
    ctx.status := Running;
    finished := false;
  }

  /** The awaitable `run` suspends on: its context and the caller suspended on it. */
  class SomeAwaitable {
    const context: SomeContext?
    var caller: HandleDelegate

    constructor(context: SomeContext?)
      ensures this.context == context && caller == NullDelegate
    {
      this.context := context;
      caller := NullDelegate;
    }

    /** `await_ready`: no context, a finished one, or nothing left pending. */
    predicate AwaitReady()
      reads this, if context != null then {context} else {}
    {
      context == null || context.status >= Done || |context.pending| == 0
    }

    /** `await_suspend(caller)`: a caller that has not finished marks itself as internally
        waiting; the first one also becomes the context's caller, and every pending future is
        suspended on it. Otherwise the caller is resumed at once. */
    method AwaitSuspend(c: HandleDelegate) returns (resumeCaller: bool, suspended: seq<FutureRef>)
      requires c.IsSet() && c.Valid() && c.promise.Valid()
      modifies this`caller, c.promise`flags, (if context != null then {context} else {})`callerHandle
      ensures resumeCaller <==> context == null || c.promise.status >= Done
      ensures resumeCaller ==>
        suspended == [] && caller == old(caller) && c.promise.flags == old(c.promise.flags)
        && (context != null ==> context.callerHandle == old(context.callerHandle))
      ensures !resumeCaller ==>
        caller == c && c.promise.Valid() && c.promise.CheckFlag(InternalWaiting)
        && (old(context.callerHandle).IsSet() ==> context.callerHandle == old(context.callerHandle) && suspended == [])
        && (!old(context.callerHandle).IsSet() ==> context.callerHandle == c && suspended == context.pending)
    {
      if context == null || c.promise.status >= Done {
        return true, [];
      }
      caller := c;
      c.promise.SetFlag(InternalWaiting, true);
      suspended := [];
      resumeCaller := false;
      if !context.callerHandle.IsSet() {
        context.callerHandle := c;
        suspended := context.pending;
      }
    }

    /** `await_resume`: the caller's waiting flag is cleared and the caller forgotten; then the
        context counts the resume. */
    method AwaitResume(stillPending: set<FutureRef>) returns (resumed: seq<FutureRef>)
      requires caller.Valid() && (caller.IsSet() ==> caller.promise.Valid())
      requires context != null ==> context.Valid()
      modifies this`caller, (if caller.promise != null then {caller.promise} else {})`flags
      modifies if context != null then {context} else {}
      ensures caller == NullDelegate
      ensures old(caller).IsSet() ==> old(caller).promise.Valid() && !old(caller).promise.CheckFlag(InternalWaiting)
      ensures context == null ==> resumed == []
      ensures context != null ==>
        context.Valid() && context.inputs == old(context.inputs)
        && context.readyBound == old(context.readyBound) && context.callerHandle == old(context.callerHandle)
      ensures context != null && old(context.scanBound) + 1 < old(context.readyBound) ==>
        resumed == [] && context.scanBound == old(context.scanBound) + 1
        && context.pending == old(context.pending) && context.ready == old(context.ready)
        && context.status == old(context.status)
      ensures context != null && old(context.scanBound) + 1 >= old(context.readyBound) ==>
        resumed == ReadyOf(old(context.pending), stillPending)
        && context.pending == PendingOf(old(context.pending), stillPending)
        && context.ready == old(context.ready) + resumed
        && context.scanBound == |context.ready|
        && context.status == (if |context.ready| >= context.readyBound && old(context.status) < Done then Done else old(context.status))
    {
      var c := caller;
      if c.IsSet() {
        c.promise.SetFlag(InternalWaiting, false);
        caller := NullDelegate;
      }
      resumed := [];
      if context != null {
        resumed := context.CountResume(stillPending);
      }
    }
  }

  /** Four futures, the last two of them pending, split into two lists of two. */
  lemma SplitFourFutures(f1: FutureRef, f2: FutureRef, f3: FutureRef, f4: FutureRef, stillPending: set<FutureRef>)
    requires f1 !in stillPending && f2 !in stillPending && f3 in stillPending && f4 in stillPending
    ensures PendingOf([f1, f2, f3, f4], stillPending) == [f3, f4]
    ensures ReadyOf([f1, f2, f3, f4], stillPending) == [f1, f2]
  {
    var s := [f1, f2, f3, f4];
    SplitStep(s, 0, stillPending);
    SplitStep(s, 1, stillPending);
    SplitStep(s, 2, stillPending);
    SplitStep(s, 3, stillPending);
    assert s[0..] == s && s[4..] == [];
  }

  /** Two pending futures of which the first has become ready. */
  lemma SplitTwoFutures(f3: FutureRef, f4: FutureRef, stillPending: set<FutureRef>)
    requires f3 !in stillPending && f4 in stillPending
    ensures PendingOf([f3, f4], stillPending) == [f4] && ReadyOf([f3, f4], stillPending) == [f3]
  {
    var s := [f3, f4];
    SplitStep(s, 0, stillPending);
    SplitStep(s, 1, stillPending);
    assert s[0..] == s && s[2..] == [];
  }

  /** `all` over four futures, two of them ready: as written the bound is clamped to the two
      pending ones (the caller's output container being empty), so the first one that finishes
      ends the wait with `kDone` while the fourth is still pending. */
  method AllStopsEarlyAsWritten(f1: FutureRef, f2: FutureRef, f3: FutureRef, f4: FutureRef, before: set<FutureRef>, after: set<FutureRef>)
    returns (ctx: SomeContext)
    requires f1 !in before && f2 !in before && f3 in before && f4 in before
    requires f3 !in after && f4 in after
    ensures ctx.status == Done && ctx.pending == [f4]
  {
    var finished;
    SplitFourFutures(f1, f2, f3, f4, before);
    ctx, finished := BeginAsWritten([f1, f2, f3, f4], 4, 0, before);
    assert ctx.readyBound == 2 && ctx.scanBound == 2 && ctx.status == Running;
    var a := new SomeAwaitable(ctx);
    SplitTwoFutures(f3, f4, after);
    var resumed := a.AwaitResume(after);
  }

  /** The same steps with the bound clamped to the futures given: the wait goes on while the
      fourth future is pending. */
  method AllWaitsForEveryFuture(f1: FutureRef, f2: FutureRef, f3: FutureRef, f4: FutureRef, before: set<FutureRef>, after: set<FutureRef>)
    returns (ctx: SomeContext)
    requires f1 !in before && f2 !in before && f3 in before && f4 in before
    requires f3 !in after && f4 in after
    ensures ctx.status == Running && ctx.pending == [f4]
  {
    var finished;
    SplitFourFutures(f1, f2, f3, f4, before);
    ctx, finished := Begin([f1, f2, f3, f4], 4, before);
    var a := new SomeAwaitable(ctx);
    var resumed := a.AwaitResume(after);
    SplitTwoFutures(f3, f4, after);
    resumed := a.AwaitResume(after);
  }

  /** With the corrected bound, `all` (a bound equal to the number of futures) can only be done
      once nothing is pending. */
  lemma {:induction false} AllDoneLeavesNothingPending(futures: seq<FutureRef>, pending: seq<FutureRef>, ready: seq<FutureRef>)
    requires multiset(pending) + multiset(ready) == multiset(futures)
    requires |ready| >= |futures|
    ensures pending == []
  {
    assert |multiset(pending)| + |multiset(ready)| == |multiset(futures)|;
  }
}
