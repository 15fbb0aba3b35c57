/** `coroutine_context_container<TALLOC>` (coroutine_context_container.h): a coroutine context
    placed at the top of the stack it owns, together with the allocator that gave the stack and
    an intrusive reference count.

    The allocator is represented by what it does for `create`: the stack context it returns for
    the requested size is a parameter, and a stack handed back to it is reported as a result. */
module CoroutineContextContainer {
  import opened CoppErrors
  import opened SizeArith
  import opened Optional
  import opened StackContexts
  import opened CoroutineContextH
  import opened CoroutineContext

  /** `sizeof(coroutine_context_container)`: the context plus an allocator handle and the
      reference count (a representative 64-bit value). */
  const SIZEOF_CONTAINER: nat := SIZEOF_COROUTINE_CONTEXT + 24

  /** The stack size `create` asks for: 0 selects the default size. */
  function RequestedStackSize(stackSize: nat, defaultSize: nat): (r: nat)
    ensures stackSize != 0 ==> r == stackSize
    ensures stackSize == 0 ==> r == defaultSize
  {
    if stackSize == 0 then defaultSize else stackSize
  }

  /** The aligned object size that is reserved for the container itself. */
  function ThisAlignSize(): nat { AlignAddressSize(SIZEOF_CONTAINER) }

  /** The coroutine area: the aligned user extension plus the aligned container object. */
  function LayoutCoroutineSize(coroutineSize: nat): nat
  {
    AddWrap(AlignAddressSize(coroutineSize), ThisAlignSize())
  }

  /** The size check of `create`: the requested stack must exceed the coroutine area plus the
      aligned private buffer, computed in `size_t`. */
  predicate SizeFits(sz: nat, privateSize: nat, coroutineSize: nat)
  {
    sz > AddWrap(LayoutCoroutineSize(coroutineSize), AlignPrivateDataSize(privateSize))
  }

  /** What one call of `create` did with the allocator: the size it asked for (none when the
      size check failed first) and the stack it handed back after a failed `create`. */
  datatype AllocatorTrace = AllocatorTrace(requested: Option<nat>, returned: Option<StackContext>)

  class Container {
    const ctx: CoroutineContext
    /** Where the object lives: below the private buffer at the top of its stack. */
    var addr: int
    var refCount: nat
    var destroyed: bool

    constructor(at: int)
      ensures addr == at && refCount == 0 && !destroyed
      ensures fresh(ctx) && ctx.Valid() && ctx.status == Invalid && ctx.callee == 0
    {
      ctx := new CoroutineContext();
      addr := at;
      refCount := 0;
      destroyed := false;
    }

    /** `use_count`. */
    function UseCount(): nat
      reads this
    {
      refCount
    }
  }

  /** `intrusive_ptr_add_ref`: a null pointer is ignored; otherwise the count goes up by one. */
  method AddRef(p: Container?)
    modifies p
    ensures p != null ==> p.refCount == AddWrap(old(p.refCount), 1) && p.destroyed == old(p.destroyed)
    ensures p != null ==> p.addr == old(p.addr)
  {
    if p == null {
      return;
    }
    p.refCount := AddWrap(p.refCount, 1);
  }

  /** `intrusive_ptr_release`: a null pointer is ignored; otherwise the count goes down by one
      and, when it reaches 0, the object is destroyed and its stack is returned through a copy
      of the allocator taken before the destruction. */
  method Release(p: Container?) returns (returned: Option<StackContext>)
    modifies p
    ensures p == null ==> returned == None
    ensures p != null && old(p.refCount) == 0 ==>
      p.refCount == SIZE_MAX && !p.destroyed == !old(p.destroyed) && returned == None
    ensures p != null && old(p.refCount) > 0 ==> p.refCount == old(p.refCount) - 1
    ensures p != null && old(p.refCount) == 1 ==> p.destroyed && returned == Some(p.ctx.calleeStack)
    ensures p != null && old(p.refCount) > 1 ==> p.destroyed == old(p.destroyed) && returned == None
    ensures p != null ==> p.addr == old(p.addr)
  {
    if p == null {
      return None;
    }
    p.refCount := if p.refCount == 0 then SIZE_MAX else p.refCount - 1;
    if p.refCount == 0 {
      var copyStack := p.ctx.calleeStack;
      p.destroyed := true;
      return Some(copyStack);
    }
    return None;
  }

  /** `create(runner, alloc, stack_sz, private_buffer_size, coroutine_size)`. `defaultSize` is
      `stack_traits::default_size()`, `granted` is the stack the allocator returns for the
      requested size and `made` the fcontext the platform makes (0 on failure). */
  method Create(runner: bool, stackSize: nat, privateSize: nat, coroutineSize: nat,
                defaultSize: nat, granted: StackContext, made: nat)
    returns (c: Container?, trace: AllocatorTrace)
    ensures !SizeFits(RequestedStackSize(stackSize, defaultSize), privateSize, coroutineSize) ==>
      c == null && trace == AllocatorTrace(None, None)
    ensures SizeFits(RequestedStackSize(stackSize, defaultSize), privateSize, coroutineSize) ==>
      trace.requested == Some(RequestedStackSize(stackSize, defaultSize))
    ensures granted.sp == 0 ==> c == null && trace.returned == None
    ensures c == null && trace.requested.Some? && granted.sp != 0 ==> trace.returned == Some(granted)
    ensures c != null ==>
      fresh(c) && fresh(c.ctx) && c.refCount == 1 && !c.destroyed && trace.returned == None
      && c.addr == granted.sp - AddWrap(AlignPrivateDataSize(privateSize), ThisAlignSize())
      && c.ctx.Valid() && c.ctx.calleeStack == granted && c.ctx.callee == made
      && c.ctx.privData == granted.sp - AlignPrivateDataSize(privateSize)
      && c.ctx.status == (if runner then Ready else Invalid)
    ensures (SizeFits(RequestedStackSize(stackSize, defaultSize), privateSize, coroutineSize)
             && granted.sp != 0 && granted.size >= RequestedStackSize(stackSize, defaultSize)
             && Bottom(granted) >= 0 && made != 0
             && privateSize <= SIZE_MAX / 4 && coroutineSize <= SIZE_MAX / 4)
            ==> c != null
  {
    var sz := RequestedStackSize(stackSize, defaultSize);
    var cs := AlignAddressSize(coroutineSize);
    var thisAlign := ThisAlignSize();
    cs := AddWrap(cs, thisAlign);
    var ps := AlignPrivateDataSize(privateSize);
    if !SizeFits(sz, privateSize, coroutineSize) {
      return null, AllocatorTrace(None, None);
    }
    var stack := granted;
    if stack.sp == 0 {
      return null, AllocatorTrace(Some(sz), None);
    }
    var thisAddr := stack.sp - AddWrap(ps, thisAlign);
    c := new Container(thisAddr);
    AddRef(c);
    // the container takes over the allocator and the stack before the context is created
    c.ctx.calleeStack := stack;
    if stack.size >= sz && Bottom(stack) >= 0 && privateSize <= SIZE_MAX / 4 && coroutineSize <= SIZE_MAX / 4 {
      ContainerLayoutPassesChecks(sz, coroutineSize, privateSize, stack);
    }
    var r := c.ctx.Create(thisAddr, runner, stack, cs, ps, made);
    if r < 0 {
      var returned := Release(c);
      return null, AllocatorTrace(Some(sz), returned);
    }
    return c, AllocatorTrace(Some(sz), None);
  }

  /** The layout `create` computes always satisfies the argument checks of
      `coroutine_context::create` once the allocator returned a stack at least as large as
      requested: the only way left for the context creation to fail is the platform. */
  lemma ContainerLayoutPassesChecks(sz: nat, coroutineSize: nat, privateSize: nat, stack: StackContext)
    requires privateSize <= SIZE_MAX / 4 && coroutineSize <= SIZE_MAX / 4
    requires stack.sp != 0 && stack.size >= sz && Bottom(stack) >= 0
    requires SizeFits(sz, privateSize, coroutineSize)
    ensures CreateArgsValid(stack.sp - AddWrap(AlignPrivateDataSize(privateSize), ThisAlignSize()),
                            stack, LayoutCoroutineSize(coroutineSize), AlignPrivateDataSize(privateSize))
  {
    var ps := AlignPrivateDataSize(privateSize);
    var ca := AlignAddressSize(coroutineSize);
    var ta := ThisAlignSize();
    assert ALIGN_UNIT == 16;
    assert ps <= privateSize + 15 && ca <= coroutineSize + 15;
    assert ta == 160 by {
      AlignAddressSizeIsLeast(SIZEOF_CONTAINER, 160);
    }
    LemmaAlignedIsSizeAligned(ps);
    LemmaAlignedIsSizeAligned(ca + ta);
    assert LayoutCoroutineSize(coroutineSize) == ca + ta;
    assert AddWrap(ps, ta) == ps + ta;
    assert StackOffset(ps, ca + ta) == ps + ca + ta;
    assert AddWrap(SIZEOF_COROUTINE_CONTEXT, ps) == SIZEOF_COROUTINE_CONTEXT + ps;
  }

  /** A multiple of the 16-byte unit is a multiple of `sizeof(size_t)`. */
  lemma LemmaAlignedIsSizeAligned(x: nat)
    requires x % 16 == 0
    ensures x % SIZEOF_SIZE_T == 0
  {
    var q := x / 16;
    assert x == (2 * q) * 8;
    LemmaMulMod(2 * q, 8);
  }
}
