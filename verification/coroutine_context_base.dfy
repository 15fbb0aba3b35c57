/** `coroutine_context_base` (coroutine_context_base.cpp): the flag word, the runner
    installation and the finished test of the base class that context implementations share. */
module CoroutineContextBase {
  import opened CoppErrors
  import opened CoroutineContextH

  class CoroutineContextBase {
    var runnerRetCode: int
    var flags: bv32
    var hasRunner: bool
    var privData: int
    var privateBufferSize: nat
    var status: Status

    /** A runner is installed exactly when the context has left INVALID. */
    predicate Valid()
      reads this
    {
      hasRunner <==> status != Invalid
    }

    constructor()
      ensures Valid()
      ensures runnerRetCode == 0 && flags == 0 && !hasRunner && privData == 0
      ensures privateBufferSize == 0 && status == Invalid
    {
      runnerRetCode := 0;
      flags := 0;
      hasRunner := false;
      privData := 0;
      privateBufferSize := 0;
      status := Invalid;
    }

    /** `check_flags`: some bit of `f` is set in the flag word. */
    predicate CheckFlags(f: bv32)
      reads this
    {
      flags & f != 0
    }

    /** `set_flags`: a flag with any bit inside the reserved mask is refused and nothing
        changes; otherwise the bits are ORed in and the reserved bits are untouched. */
    method SetFlags(f: bv32) returns (ok: bool)
      modifies this
      ensures ok <==> f & FLAG_MASK == 0
      ensures ok ==> flags == old(flags) | f
      ensures ok && f != 0 ==> CheckFlags(f)
      ensures !ok ==> flags == old(flags)
      ensures flags & FLAG_MASK == old(flags) & FLAG_MASK
      ensures runnerRetCode == old(runnerRetCode) && hasRunner == old(hasRunner) && status == old(status)
      ensures privData == old(privData) && privateBufferSize == old(privateBufferSize)
    {
      if f & FLAG_MASK != 0 {
        return false;
      }
      flags := flags | f;
      return true;
    }

    /** `unset_flags`: refuses reserved bits; otherwise clears exactly the bits of `f`. */
    method UnsetFlags(f: bv32) returns (ok: bool)
      modifies this
      ensures ok <==> f & FLAG_MASK == 0
      ensures ok ==> flags == old(flags) & !f && !CheckFlags(f)
      ensures !ok ==> flags == old(flags)
      ensures flags & FLAG_MASK == old(flags) & FLAG_MASK
      ensures runnerRetCode == old(runnerRetCode) && hasRunner == old(hasRunner) && status == old(status)
      ensures privData == old(privData) && privateBufferSize == old(privateBufferSize)
    {
      if f & FLAG_MASK != 0 {
        return false;
      }
      flags := flags & !f;
      return true;
    }

    /** `set_runner`: an empty runner is `COPP_EC_ARGS_ERROR`; a context that already left
        INVALID is `COPP_EC_ALREADY_INITED`; otherwise INVALID -> READY with the runner kept. */
    method SetRunner(runner: bool) returns (r: int)
      requires Valid()
      modifies this
      ensures Valid()
      ensures !runner ==> r == COPP_EC_ARGS_ERROR
      ensures runner && old(status) != Invalid ==> r == COPP_EC_ALREADY_INITED
      ensures runner && old(status) == Invalid ==> r == COPP_EC_SUCCESS && status == Ready && hasRunner
      ensures r != COPP_EC_SUCCESS ==> status == old(status) && hasRunner == old(hasRunner)
      ensures runnerRetCode == old(runnerRetCode) && flags == old(flags)
      ensures privData == old(privData) && privateBufferSize == old(privateBufferSize)
    {
      if !runner {
        return COPP_EC_ARGS_ERROR;
      }
      if status != Invalid {
        return COPP_EC_ALREADY_INITED;
      }
      status := Ready;
      hasRunner := true;
      return COPP_EC_SUCCESS;
    }

    /** `is_finished`: the status has reached FINISHED (FINISHED or EXITED). */
    function IsFinished(): (r: bool)
      reads this
      ensures r <==> !(status == Invalid || status == Ready || status == Running)
    {
      StatusValue(status) >= StatusValue(Finished)
    }
  }

  /** A runner can be installed once: a second `set_runner` on the same context is refused. */
  method SetRunnerOnce() returns (first: int, second: int)
    ensures first == COPP_EC_SUCCESS && second == COPP_EC_ALREADY_INITED
  {
    var ctx := new CoroutineContextBase();
    first := ctx.SetRunner(true);
    second := ctx.SetRunner(true);
  }
}
