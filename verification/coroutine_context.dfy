/** `coroutine_context` (coroutine_context.cpp): layout validation in `create`, the
    INVALID -> READY -> RUNNING -> FINISHED -> EXITED status machine driven by `set_runner`,
    `start`/`resume` and `yield`, and the user flag word.

    The platform context switch is not modelled: `start` takes the outcome of running the
    coroutine body until control comes back (the body yielded, or it returned a code). */
module CoroutineContext {
  import opened CoppErrors
  import opened SizeArith
  import opened StackContexts
  import opened CoroutineContextH

  /** `sizeof(coroutine_context)`: a representative 64-bit value (a multiple of 16). */
  const SIZEOF_COROUTINE_CONTEXT: nat := 128

  /** How the coroutine body left the callee stack when control came back to `start`. */
  datatype RunOutcome =
    | Yielded            // the body called `yield`
    | Returned(code: int) // the runner returned `code`; the entry callback then yields

  /** `private_buffer_size + coroutine_size` computed in `size_t`. */
  function StackOffset(privateSize: nat, coroutineSize: nat): nat
  {
    AddWrap(privateSize, coroutineSize)
  }

  /** The argument checks of `create`, in the order the source makes them; every failing check
      yields `COPP_EC_ARGS_ERROR`. `p` is the address of the context object. */
  predicate CreateArgsValid(p: int, stack: StackContext, coroutineSize: nat, privateSize: nat)
  {
    p != 0
    && privateSize % SIZEOF_SIZE_T == 0
    && coroutineSize % SIZEOF_SIZE_T == 0
    && stack.sp != 0 && stack.size > StackOffset(privateSize, coroutineSize)
    && stack.sp > p && coroutineSize >= SIZEOF_COROUTINE_CONTEXT
    && AddWrap(SIZEOF_COROUTINE_CONTEXT, privateSize) <= stack.sp - p
    && stack.sp - p <= StackOffset(privateSize, coroutineSize)
  }

  /** What the checks guarantee when the sizes do not wrap: the object lies inside the
      coroutine area below the private buffer, the private buffer ends at `sp`, and the stack
      left for the coroutine body below the coroutine area is non-empty. */
  lemma CreateArgsLayout(p: int, stack: StackContext, coroutineSize: nat, privateSize: nat)
    requires CreateArgsValid(p, stack, coroutineSize, privateSize)
    requires privateSize + coroutineSize <= SIZE_MAX
    ensures stack.sp - privateSize - coroutineSize <= p
    ensures p + SIZEOF_COROUTINE_CONTEXT <= stack.sp - privateSize
    ensures Bottom(stack) < stack.sp - privateSize - coroutineSize
  {
    assert SIZEOF_COROUTINE_CONTEXT + privateSize <= SIZE_MAX;
  }

  /** The wrap-around the checks do not guard against: a private buffer size close to
      `SIZE_MAX` makes both sums wrap, and the checks pass although the private buffer would
      start far above `sp`. */
  lemma CreateArgsAcceptWrappedPrivateSize()
    ensures CreateArgsValid(0x1000 - 128, StackContext(0x1000, 0x1000), 136, SIZE_MAX - 7)
  {
  }

  /** The code `start` (and `resume`) reports for a context whose callee is `callee` and
      whose status is `s`: only a READY context with a callee runs. */
  function StartCode(callee: nat, s: Status): (r: int)
    ensures r == COPP_EC_SUCCESS <==> callee != 0 && s == Ready
    ensures callee != 0 && s == Running ==> r == COPP_EC_IS_RUNNING
    ensures callee != 0 && (s == Finished || s == Exited) ==> r == COPP_EC_NOT_READY
    ensures (callee == 0 || s == Invalid) ==> r == COPP_EC_NOT_INITED
  {
    if callee == 0 then COPP_EC_NOT_INITED
    else match s
      case Invalid => COPP_EC_NOT_INITED
      case Running => COPP_EC_IS_RUNNING
      case Finished => COPP_EC_NOT_READY
      case Exited => COPP_EC_NOT_READY
      case Ready => COPP_EC_SUCCESS
  }

  /** The status `start` (and `resume`) leaves: a refused call keeps the status; a run ends
      READY when the body yields and EXITED when it returns. */
  function StatusAfterStart(callee: nat, s: Status, outcome: RunOutcome): (t: Status)
    ensures StartCode(callee, s) != COPP_EC_SUCCESS ==> t == s
    ensures StartCode(callee, s) == COPP_EC_SUCCESS ==>
      (t == Ready || t == Exited) && (t == Exited <==> outcome.Returned?)
  {
    if callee == 0 || s != Ready then s
    else if outcome.Returned? then Exited
    else Ready
  }

  class CoroutineContext {
    var runnerRetCode: int
    var flags: bv32
    var hasRunner: bool
    var privData: int
    var privateBufferSize: nat
    /** The `fcontext` of the callee; 0 until `create` has made one. */
    var callee: nat
    var calleeStack: StackContext
    var status: Status

    /** The FINISHED flag is set exactly when the status has reached FINISHED or EXITED, and a
        runner is installed exactly when the context has left INVALID. */
    predicate Valid()
      reads this
    {
      ((flags & FLAG_FINISHED != 0) <==> (status == Finished || status == Exited))
      && (hasRunner <==> status != Invalid)
    }

    constructor()
      ensures Valid()
      ensures runnerRetCode == 0 && flags == 0 && !hasRunner && privData == 0
      ensures privateBufferSize == 0 && callee == 0 && calleeStack == EMPTY_STACK
      ensures status == Invalid
    {
      runnerRetCode := 0;
      flags := 0;
      hasRunner := false;
      privData := 0;
      privateBufferSize := 0;
      callee := 0;
      calleeStack := EMPTY_STACK;
      status := Invalid;
    }

    /** `check_flags`: some bit of `f` is set in the flag word. */
    predicate CheckFlags(f: bv32)
      reads this
    {
      flags & f != 0
    }

    /** `is_finished`: the status has reached FINISHED. */
    function IsFinished(): (r: bool)
      reads this
      ensures r <==> (status == Finished || status == Exited)
    {
      StatusValue(status) >= StatusValue(Finished)
    }

    /** In a valid context, testing the status and testing the FINISHED flag agree (the source
        keeps the flag test as the commented-out alternative). */
    lemma IsFinishedMatchesFlag()
      requires Valid()
      ensures IsFinished() <==> CheckFlags(FLAG_FINISHED)
    {
    }

    /** `set_flags`: rejects any bit of the reserved mask, otherwise ORs the bits in. */
    method SetFlags(f: bv32) returns (ok: bool)
      modifies this
      ensures ok <==> f & FLAG_MASK == 0
      ensures ok ==> flags == old(flags) | f
      ensures !ok ==> flags == old(flags)
      ensures flags & FLAG_MASK == old(flags) & FLAG_MASK
      ensures runnerRetCode == old(runnerRetCode) && hasRunner == old(hasRunner)
      ensures privData == old(privData) && privateBufferSize == old(privateBufferSize)
      ensures callee == old(callee) && calleeStack == old(calleeStack) && status == old(status)
      ensures old(Valid()) ==> Valid()
    {
      if f & FLAG_MASK != 0 {
        return false;
      }
      flags := flags | f;
      return true;
    }

    /** `unset_flags`: rejects any bit of the reserved mask, otherwise clears exactly `f`. */
    method UnsetFlags(f: bv32) returns (ok: bool)
      modifies this
      ensures ok <==> f & FLAG_MASK == 0
      ensures ok ==> flags == old(flags) & !f
      ensures !ok ==> flags == old(flags)
      ensures flags & FLAG_MASK == old(flags) & FLAG_MASK
      ensures runnerRetCode == old(runnerRetCode) && hasRunner == old(hasRunner)
      ensures privData == old(privData) && privateBufferSize == old(privateBufferSize)
      ensures callee == old(callee) && calleeStack == old(calleeStack) && status == old(status)
      ensures old(Valid()) ==> Valid()
    {
      if f & FLAG_MASK != 0 {
        return false;
      }
      flags := flags & !f;
      return true;
    }

    /** `set_runner`: an empty runner is rejected; otherwise the compare-and-set INVALID -> READY
        decides between installing the runner and `COPP_EC_ALREADY_INITED`. */
    method SetRunner(runner: bool) returns (r: int)
      modifies this
      ensures !runner ==> r == COPP_EC_ARGS_ERROR
      ensures runner && old(status) != Invalid ==> r == COPP_EC_ALREADY_INITED
      ensures runner && old(status) == Invalid ==> r == COPP_EC_SUCCESS && status == Ready && hasRunner
      ensures r != COPP_EC_SUCCESS ==> status == old(status) && hasRunner == old(hasRunner)
      ensures runnerRetCode == old(runnerRetCode) && flags == old(flags)
      ensures privData == old(privData) && privateBufferSize == old(privateBufferSize)
      ensures callee == old(callee) && calleeStack == old(calleeStack)
      ensures old(Valid()) ==> Valid()
    {
      if !runner {
        return COPP_EC_ARGS_ERROR;
      }
      if status != Invalid {
        return COPP_EC_ALREADY_INITED;
      }
      status := Ready;
      hasRunner := true;
      return COPP_EC_SUCCESS;
    }

    /** `create(p, runner, callee_stack, coroutine_size, private_buffer_size)` applied to this
        object at address `p`. `made` is the fcontext the platform returns for the stack left
        below the coroutine area (0 when it fails). */
    method Create(p: int, runner: bool, stack: StackContext, coroutineSize: nat, privateSize: nat, made: nat)
      returns (r: int)
      modifies this
      ensures !CreateArgsValid(p, stack, coroutineSize, privateSize) ==>
        r == COPP_EC_ARGS_ERROR && flags == old(flags) && status == old(status)
        && callee == old(callee) && calleeStack == old(calleeStack) && privData == old(privData)
        && privateBufferSize == old(privateBufferSize) && hasRunner == old(hasRunner)
      ensures CreateArgsValid(p, stack, coroutineSize, privateSize) ==>
        calleeStack == stack && privateBufferSize == privateSize
        && privData == stack.sp - privateSize && callee == made
        && (r == COPP_EC_SUCCESS <==> made != 0)
        && (r != COPP_EC_SUCCESS ==> r == COPP_EC_FCONTEXT_MAKE_FAILED)
        && status == (if runner && old(status) == Invalid then Ready else old(status))
        && flags == old(flags)
      ensures runnerRetCode == old(runnerRetCode)
      ensures old(Valid()) ==> Valid()
    {
      if p == 0 {
        return COPP_EC_ARGS_ERROR;
      }
      if privateSize % SIZEOF_SIZE_T != 0 {
        return COPP_EC_ARGS_ERROR;
      }
      if coroutineSize % SIZEOF_SIZE_T != 0 {
        return COPP_EC_ARGS_ERROR;
      }
      var stackOffset := StackOffset(privateSize, coroutineSize);
      if stack.sp == 0 || stack.size <= stackOffset {
        return COPP_EC_ARGS_ERROR;
      }
      if stack.sp <= p || coroutineSize < SIZEOF_COROUTINE_CONTEXT {
        return COPP_EC_ARGS_ERROR;
      }
      var thisOffset := stack.sp - p;
      if thisOffset < AddWrap(SIZEOF_COROUTINE_CONTEXT, privateSize) || thisOffset > stackOffset {
        return COPP_EC_ARGS_ERROR;
      }
      // an empty runner may be installed later, so the result is ignored
      var _ := SetRunner(runner);
      calleeStack := stack;
      privateBufferSize := privateSize;
      privData := stack.sp - privateSize;
      callee := made;
      if callee == 0 {
        return COPP_EC_FCONTEXT_MAKE_FAILED;
      }
      return COPP_EC_SUCCESS;
    }

    /** `yield`: the compare-and-set from RUNNING to READY, or to FINISHED once the runner has
        returned, with an error code for every other status. */
    method Yield() returns (r: int)
      modifies this
      ensures old(callee) == 0 ==> r == COPP_EC_NOT_INITED && status == old(status)
      ensures old(callee) != 0 ==> match old(status)
        case Running =>
          r == COPP_EC_SUCCESS
          && status == (if old(flags) & FLAG_FINISHED != 0 then Finished else Ready)
        case Invalid => r == COPP_EC_NOT_INITED && status == old(status)
        case Ready => r == COPP_EC_NOT_RUNNING && status == old(status)
        case Finished => r == COPP_EC_ALREADY_EXIST && status == old(status)
        case Exited => r == COPP_EC_ALREADY_EXIST && status == old(status)
      ensures runnerRetCode == old(runnerRetCode) && flags == old(flags) && hasRunner == old(hasRunner)
      ensures privData == old(privData) && privateBufferSize == old(privateBufferSize)
      ensures callee == old(callee) && calleeStack == old(calleeStack)
      ensures old(Valid()) ==> Valid()
    {
      if callee == 0 {
        return COPP_EC_NOT_INITED;
      }
      var to := if CheckFlags(FLAG_FINISHED) then Finished else Ready;
      if status != Running {
        match status
        case Invalid => return COPP_EC_NOT_INITED;
        case Ready => return COPP_EC_NOT_RUNNING;
        case Finished => return COPP_EC_ALREADY_EXIST;
        case Exited => return COPP_EC_ALREADY_EXIST;
      }
      status := to;
      return COPP_EC_SUCCESS;
    }

    /** `start` (and `resume`, which is the same call): the compare-and-set READY -> RUNNING,
        then the coroutine body runs until it yields or returns; on return the entry callback
        records the code, sets the FINISHED flag and yields, and `start` moves FINISHED to
        EXITED. */
    method Start(outcome: RunOutcome) returns (r: int)
      requires Valid()
      modifies this
      ensures Valid()
      ensures old(callee) == 0 ==> r == COPP_EC_NOT_INITED
      ensures old(callee) != 0 ==> match old(status)
        case Invalid => r == COPP_EC_NOT_INITED
        case Running => r == COPP_EC_IS_RUNNING
        case Finished => r == COPP_EC_NOT_READY
        case Exited => r == COPP_EC_NOT_READY
        case Ready => r == COPP_EC_SUCCESS
      ensures r != COPP_EC_SUCCESS ==>
        status == old(status) && flags == old(flags) && runnerRetCode == old(runnerRetCode)
      ensures r == COPP_EC_SUCCESS ==> match outcome
        case Yielded =>
          status == Ready && flags == old(flags) && runnerRetCode == old(runnerRetCode)
        case Returned(code) =>
          status == Exited && flags == old(flags) | FLAG_FINISHED && runnerRetCode == code
      ensures r == StartCode(old(callee), old(status))
      ensures status == StatusAfterStart(old(callee), old(status), outcome)
      ensures hasRunner == old(hasRunner) && privData == old(privData)
      ensures privateBufferSize == old(privateBufferSize)
      ensures callee == old(callee) && calleeStack == old(calleeStack)
    {
      if callee == 0 {
        return COPP_EC_NOT_INITED;
      }
      if status != Ready {
        if StatusLess(status, Ready) {
          return COPP_EC_NOT_INITED;
        }
        if StatusLess(Running, status) {
          return COPP_EC_NOT_READY;
        }
        return COPP_EC_IS_RUNNING;
      }
      status := Running;
      match outcome {
        case Yielded =>
          var _ := Yield();
        case Returned(code) =>
          runnerRetCode := code;
          flags := flags | FLAG_FINISHED;
          var _ := Yield();
      }
      if CheckFlags(FLAG_FINISHED) {
        status := Exited;
      }
      return COPP_EC_SUCCESS;
    }

    /** `resume` is `start`. */
    method Resume(outcome: RunOutcome) returns (r: int)
      requires Valid()
      modifies this
      ensures Valid()
      ensures r == StartCode(old(callee), old(status))
      ensures status == StatusAfterStart(old(callee), old(status), outcome)
      ensures r != COPP_EC_SUCCESS ==>
        flags == old(flags) && runnerRetCode == old(runnerRetCode)
      ensures r == COPP_EC_SUCCESS ==> match outcome
        case Yielded => flags == old(flags) && runnerRetCode == old(runnerRetCode)
        case Returned(code) => flags == old(flags) | FLAG_FINISHED && runnerRetCode == code
      ensures hasRunner == old(hasRunner) && privData == old(privData)
      ensures privateBufferSize == old(privateBufferSize)
      ensures callee == old(callee) && calleeStack == old(calleeStack)
    {
      r := Start(outcome);
    }
  }

  /** `this_coroutine::yield`: outside any coroutine it reports `COPP_EC_NOT_RUNNING`. */
  method ThisCoroutineYield(current: CoroutineContext?) returns (r: int)
    modifies current
    ensures current == null ==> r == COPP_EC_NOT_RUNNING
    ensures current != null && old(current.callee) != 0 && old(current.status) == Running ==>
      r == COPP_EC_SUCCESS && current.status != Running
  {
    if current == null {
      return COPP_EC_NOT_RUNNING;
    }
    r := current.Yield();
  }

  /** The life of one context as the base test drives it: after `create`, the first start
      yields, the resume lets the runner return, and a further resume reports
      `COPP_EC_NOT_READY`. */
  method StartYieldResumeFinish() returns (first: int, second: int, third: int)
    ensures first == COPP_EC_SUCCESS && second == COPP_EC_SUCCESS && third == COPP_EC_NOT_READY
  {
    var ctx := new CoroutineContext();
    var stack := StackContext(0x20000, 0x40000);
    var created := ctx.Create(0x40000 - 128, true, stack, 128, 0, 1);
    assert created == COPP_EC_SUCCESS;
    first := ctx.Start(Yielded);
    second := ctx.Resume(Returned(0));
    third := ctx.Resume(Yielded);
  }

  /** After `set_flags(f)` succeeds for a non-empty `f`, `check_flags(f)` holds. */
  lemma SetThenCheck(flags: bv32, f: bv32)
    requires f != 0
    ensures (flags | f) & f != 0
  {
  }

  /** After `unset_flags(f)` succeeds, no bit of `f` is set, and every other bit is kept. */
  lemma UnsetThenCheck(flags: bv32, f: bv32, g: bv32)
    requires g & f == 0
    ensures (flags & !f) & f == 0
    ensures (flags & !f) & g == flags & g
  {
  }
}
