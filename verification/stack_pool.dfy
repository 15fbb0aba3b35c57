/** `stack_pool<TAlloc>` (stack_pool.h): a cache of stacks of one configured size in front of an
    origin allocator. Freed stacks of the configured size are kept on a free list and handed out
    again last-in first-out; the pool keeps counters of the stacks in use and on the list and
    gives surplus stacks back to the origin allocator when it collects garbage.

    The origin allocator is represented by what passes through it: the stack it returns for a
    request is a parameter of `Allocate`, and every stack given back to it is appended to
    `returned`. The configuration setters and getters are the fields themselves. */
module StackPool {
  import opened SizeArith
  import opened Optional
  import opened StackContexts
  import opened StackTraitsPosix

  /** The total size of a list of stacks. */
  function SumSizes(s: seq<StackContext>): nat
  {
    if |s| == 0 then 0 else SumSizes(s[..|s| - 1]) + s[|s| - 1].size
  }

  /** Taking the first stack off a list removes its size from the total. */
  lemma {:induction false} SumSizesFront(s: seq<StackContext>)
    requires |s| > 0
    ensures SumSizes(s) == s[0].size + SumSizes(s[1..])
  {
    if |s| > 1 {
      SumSizesFront(s[..|s| - 1]);
      assert s[..|s| - 1][1..] == s[1..][..|s[1..]| - 1];
      assert s[..|s| - 1][0] == s[0];
    }
  }

  /** The size `set_stack_size` installs: the minimum stack for sizes up to the minimum, the
      size rounded up to whole pages otherwise. */
  function ConfiguredStackSize(sz: nat, p: Platform): (r: nat)
    requires PlatformValid(p)
    ensures sz <= MinimumSize(p) ==> r == MinimumSize(p)
    ensures sz > MinimumSize(p) ==> r % p.pageSize == 0
    ensures sz > MinimumSize(p) && sz + p.pageSize - 1 <= SIZE_MAX ==> sz <= r < sz + p.pageSize
  {
    if sz <= MinimumSize(p) then MinimumSize(p)
    else
      assert sz + p.pageSize - 1 <= SIZE_MAX ==> sz <= RoundToPageSize(p, sz) < sz + p.pageSize by {
        if sz + p.pageSize - 1 <= SIZE_MAX {
          RoundToPageSizeIsLeastMultiple(p, sz, sz);
        }
      }
      RoundToPageSize(p, sz)
  }

  /** Collection is skipped while the used stacks outweigh the free ones in both size and
      number, or while the configured minimums are not exceeded. */
  predicate GcSkippedOn(usedSize: nat, usedNumber: nat, freeSize: nat, freeNumber: nat,
                        minSize: nat, minNumber: nat)
  {
    (usedSize >= freeSize && usedNumber >= freeNumber)
    || ((minSize != 0 || minNumber != 0)
        && (minSize == 0 || AddWrap(usedSize, freeSize) <= minSize)
        && (minNumber == 0 || AddWrap(freeNumber, usedNumber) <= minNumber))
  }

  class Pool {
    // limit_t
    var usedStackNumber: nat
    var usedStackSize: nat
    var freeStackNumber: nat
    var freeStackSize: nat
    // configure_t
    var stackSize: nat
    var stackOffset: nat
    var gcNumber: nat
    var maxStackNumber: nat
    var maxStackSize: nat
    var minStackNumber: nat
    var minStackSize: nat
    var autoGc: bool

    var freeList: seq<StackContext>
    /** Every stack handed back to the origin allocator, oldest first. */
    var returned: seq<StackContext>

    /** The free counters describe the free list exactly. */
    predicate Valid()
      reads this
    {
      freeStackNumber == |freeList| && freeStackSize == SumSizes(freeList) && freeStackSize <= SIZE_MAX
    }

    /** `stack_pool(constructor_delegator)`: every counter and limit 0, the default stack size,
        automatic collection on. */
    constructor(defaultSize: nat)
      ensures Valid()
      ensures usedStackNumber == 0 && usedStackSize == 0 && freeStackNumber == 0 && freeStackSize == 0
      ensures stackSize == defaultSize && stackOffset == 0 && gcNumber == 0
      ensures maxStackNumber == 0 && maxStackSize == 0 && minStackNumber == 0 && minStackSize == 0
      ensures autoGc && freeList == [] && returned == []
    {
      usedStackNumber, usedStackSize, freeStackNumber, freeStackSize := 0, 0, 0, 0;
      stackSize, stackOffset, gcNumber := defaultSize, 0, 0;
      maxStackNumber, maxStackSize, minStackNumber, minStackSize := 0, 0, 0, 0;
      autoGc := true;
      freeList, returned := [], [];
    }

    /** The configured limits forbid another stack: too many stacks in use, or one more stack
        of the configured size would pass the size limit (summed in `size_t`). */
    predicate LimitReached()
      reads this
    {
      (maxStackNumber != 0 && usedStackNumber >= maxStackNumber)
      || (maxStackSize != 0 && AddWrap(usedStackSize, stackSize) > maxStackSize)
    }

    /** `set_stack_size`: installs the clamped or rounded size, calling `clear` first when the
        size changes. `clear` as the source writes it gives the cached stacks back and zeroes
        the free counters but keeps them in the free list, so after a change the pool is
        consistent only if nothing was cached. */
    method SetStackSize(sz: nat, p: Platform) returns (r: nat)
      requires PlatformValid(p)
      modifies this
      ensures r == ConfiguredStackSize(sz, p) && stackSize == r
      ensures r == old(stackSize) ==>
        freeList == old(freeList) && returned == old(returned)
        && freeStackNumber == old(freeStackNumber) && freeStackSize == old(freeStackSize)
      ensures r != old(stackSize) ==>
        freeList == old(freeList) && returned == old(returned) + old(freeList)
        && freeStackNumber == 0 && freeStackSize == 0
      ensures r == old(stackSize) ==> (Valid() <==> old(Valid()))
      ensures r != old(stackSize) ==> (Valid() <==> old(freeList) == [])
      ensures usedStackNumber == old(usedStackNumber) && usedStackSize == old(usedStackSize)
      ensures stackOffset == old(stackOffset) && autoGc == old(autoGc) && gcNumber == old(gcNumber)
      ensures maxStackNumber == old(maxStackNumber) && maxStackSize == old(maxStackSize)
      ensures minStackNumber == old(minStackNumber) && minStackSize == old(minStackSize)
    {
      var newSize := ConfiguredStackSize(sz, p);
      if newSize != stackSize {
        ClearAsWritten();
      }
      stackSize := newSize;
      return newSize;
    }

    /** `allocate(ctx)`. When a limit is reached the result is an empty context. Otherwise the
        most recently freed stack is reused if it is at least the configured size; a smaller one
        is dropped from the list, and then the origin allocator is asked for the configured size
        (`granted` is what it returns). A stack handed out counts as used, and a fresh stack sets
        the offset of the allocator's stacks over the configured size. */
    method Allocate(granted: StackContext) returns (ctx: StackContext, requested: Option<nat>)
      modifies this`freeList, this`freeStackNumber, this`freeStackSize
      modifies this`usedStackNumber, this`usedStackSize, this`stackOffset
      ensures old(LimitReached()) ==>
        ctx == EMPTY_STACK && requested == None && freeList == old(freeList)
        && usedStackNumber == old(usedStackNumber) && usedStackSize == old(usedStackSize)
        && freeStackNumber == old(freeStackNumber) && freeStackSize == old(freeStackSize)
        && stackOffset == old(stackOffset)
      ensures !old(LimitReached()) && |old(freeList)| > 0 && old(freeList)[|old(freeList)| - 1].size >= stackSize ==>
        ctx == old(freeList)[|old(freeList)| - 1] && freeList == old(freeList)[..|old(freeList)| - 1]
        && requested == None && stackOffset == old(stackOffset)
        && usedStackNumber == AddWrap(old(usedStackNumber), 1)
        && usedStackSize == AddWrap(old(usedStackSize), ctx.size)
      ensures !old(LimitReached()) && (|old(freeList)| == 0 || old(freeList)[|old(freeList)| - 1].size < stackSize) ==>
        ctx == granted && requested == Some(stackSize)
        && freeList == (if |old(freeList)| == 0 then [] else old(freeList)[..|old(freeList)| - 1])
      ensures requested.Some? && granted.sp != 0 && granted.size > 0 ==>
        usedStackNumber == AddWrap(old(usedStackNumber), 1)
        && usedStackSize == AddWrap(old(usedStackSize), granted.size)
        && stackOffset == SubWrap(granted.size, stackSize)
      ensures requested.Some? && (granted.sp == 0 || granted.size == 0) ==>
        usedStackNumber == old(usedStackNumber) && usedStackSize == old(usedStackSize)
        && stackOffset == old(stackOffset)
      ensures old(Valid()) ==> Valid()
    {
      if LimitReached() {
        return EMPTY_STACK, None;
      }
      if |freeList| > 0 {
        var last := freeList[|freeList| - 1];
        if freeStackNumber > 0 {
          freeStackNumber := freeStackNumber - 1;
        } else {
          freeStackNumber := |freeList| - 1;
        }
        if freeStackSize >= last.size {
          freeStackSize := freeStackSize - last.size;
        } else {
          freeStackSize := 0;
        }
        freeList := freeList[..|freeList| - 1];
        if last.size >= stackSize {
          usedStackNumber := AddWrap(usedStackNumber, 1);
          usedStackSize := AddWrap(usedStackSize, last.size);
          return last, None;
        }
      }
      ctx, requested := granted, Some(stackSize);
      if ctx.sp != 0 && ctx.size > 0 {
        usedStackNumber := AddWrap(usedStackNumber, 1);
        usedStackSize := AddWrap(usedStackSize, ctx.size);
        stackOffset := SubWrap(ctx.size, stackSize);
      }
    }

    /** `deallocate(ctx)`. A null or empty context changes no counter. Otherwise the used
        counters go down (never below 0); a stack of the size this pool hands out goes on the
        free list and every other stack back to the origin allocator. With automatic collection
        on, `gc` then runs; `freed` is the number of stacks it gave back (the source drops it). */
    method Deallocate(ctx: StackContext) returns (freed: nat)
      modifies this`freeList, this`returned, this`freeStackNumber, this`freeStackSize
      modifies this`usedStackNumber, this`usedStackSize
      ensures var live := ctx.sp != 0 && ctx.size != 0;
        usedStackSize == (if live && old(usedStackSize) >= ctx.size then old(usedStackSize) - ctx.size
                          else if live then 0 else old(usedStackSize))
        && usedStackNumber == (if live && old(usedStackNumber) > 0 then old(usedStackNumber) - 1
                               else old(usedStackNumber))
      ensures var live := ctx.sp != 0 && ctx.size != 0;
        var pushed := live && ctx.size == AddWrap(old(stackSize), old(stackOffset));
        var list := if pushed then old(freeList) + [ctx] else old(freeList);
        var back := if live && !pushed then old(returned) + [ctx] else old(returned);
        freed <= |list| && freeList == list[freed..] && returned == back + list[..freed]
      ensures !autoGc ==> freed == 0
      ensures var live := ctx.sp != 0 && ctx.size != 0;
        var pushed := live && ctx.size == AddWrap(old(stackSize), old(stackOffset));
        var number := if pushed then AddWrap(old(freeStackNumber), 1) else old(freeStackNumber);
        var size := if pushed then AddWrap(old(freeStackSize), ctx.size) else old(freeStackSize);
        !autoGc || GcSkippedOn(usedStackSize, usedStackNumber, size, number, minStackSize, minStackNumber) ==>
          freed == 0 && freeStackNumber == number && freeStackSize == size
      ensures old(Valid()) && old(freeStackSize) + ctx.size <= SIZE_MAX && old(freeStackNumber) < SIZE_MAX ==> Valid()
    {
      Release(ctx);
      freed := 0;
      if autoGc {
        freed := Gc();
      }
    }

    /** The first half of `deallocate`: the counters of stacks in use drop, and the stack goes
        to the free list when it has the current size, back to the origin allocator otherwise. */
    method Release(ctx: StackContext)
      modifies this`freeList, this`returned, this`freeStackNumber, this`freeStackSize
      modifies this`usedStackNumber, this`usedStackSize
      ensures var live := ctx.sp != 0 && ctx.size != 0;
        usedStackSize == (if live && old(usedStackSize) >= ctx.size then old(usedStackSize) - ctx.size
                          else if live then 0 else old(usedStackSize))
        && usedStackNumber == (if live && old(usedStackNumber) > 0 then old(usedStackNumber) - 1
                               else old(usedStackNumber))
      ensures var live := ctx.sp != 0 && ctx.size != 0;
        var pushed := live && ctx.size == AddWrap(old(stackSize), old(stackOffset));
        freeList == (if pushed then old(freeList) + [ctx] else old(freeList))
        && returned == (if live && !pushed then old(returned) + [ctx] else old(returned))
        && freeStackNumber == (if pushed then AddWrap(old(freeStackNumber), 1) else old(freeStackNumber))
        && freeStackSize == (if pushed then AddWrap(old(freeStackSize), ctx.size) else old(freeStackSize))
      ensures old(Valid()) && old(freeStackSize) + ctx.size <= SIZE_MAX && old(freeStackNumber) < SIZE_MAX ==> Valid()
    {
      if ctx.sp != 0 && ctx.size != 0 {
        if usedStackSize >= ctx.size {
          usedStackSize := usedStackSize - ctx.size;
        } else {
          usedStackSize := 0;
        }
        if usedStackNumber > 0 {
          usedStackNumber := usedStackNumber - 1;
        }
        if ctx.size != AddWrap(stackSize, stackOffset) {
          returned := returned + [ctx];
        } else {
          freeList := freeList + [ctx];
          freeStackNumber := AddWrap(freeStackNumber, 1);
          freeStackSize := AddWrap(freeStackSize, ctx.size);
        }
      }
    }

    predicate GcSkipped()
      reads this
    {
      GcSkippedOn(usedStackSize, usedStackNumber, freeStackSize, freeStackNumber, minStackSize, minStackNumber)
    }

    /** `gc`: gives the oldest free stacks back to the origin allocator until the free size and
        number are both at most half of what they were, or `gc_number` stacks are gone when it is
        not 0. Returns the number of stacks given back. */
    method Gc() returns (r: nat)
      modifies this`freeList, this`returned, this`freeStackNumber, this`freeStackSize
      ensures old(GcSkipped()) ==>
        r == 0 && freeStackNumber == old(freeStackNumber) && freeStackSize == old(freeStackSize)
      ensures r <= |old(freeList)| && freeList == old(freeList)[r..]
      ensures returned == old(returned) + old(freeList)[..r]
      ensures !old(GcSkipped()) ==>
        (freeStackSize <= old(freeStackSize) / 2 && freeStackNumber <= old(freeStackNumber) / 2)
        || (gcNumber != 0 && r == gcNumber)
      ensures gcNumber != 0 ==> r <= gcNumber
      ensures old(Valid()) ==> Valid()
    {
      r := 0;
      if GcSkipped() {
        return;
      }
      var keepSize := freeStackSize / 2;
      var keepNumber := freeStackNumber / 2;
      var leftGc := gcNumber;
      while freeStackSize > keepSize || freeStackNumber > keepNumber
        invariant r <= |old(freeList)| && freeList == old(freeList)[r..]
        invariant returned == old(returned) + old(freeList)[..r]
        invariant keepSize == old(freeStackSize) / 2 && keepNumber == old(freeStackNumber) / 2
        invariant gcNumber == 0 ==> leftGc == 0
        invariant gcNumber != 0 ==> r < gcNumber && leftGc == gcNumber - r
        invariant old(Valid()) ==> Valid()
        modifies this`freeList, this`returned, this`freeStackNumber, this`freeStackSize
        decreases |freeList|
      {
        if |freeList| == 0 {
          freeStackSize := 0;
          freeStackNumber := 0;
          break;
        }
        ReturnFront();
        assert old(freeList)[..r + 1] == old(freeList)[..r] + [old(freeList)[r]];
        r := r + 1;
        if leftGc != 0 {
          leftGc := leftGc - 1;
          if leftGc == 0 {
            break;
          }
        }
      }
    }

    /** One round of the `gc` loop: the oldest free stack goes back to the origin allocator and
        leaves the free counters (which floor at zero, or recount the list when already zero). */
    method ReturnFront()
      requires freeList != []
      modifies this`freeList, this`returned, this`freeStackNumber, this`freeStackSize
      ensures freeList == old(freeList)[1..] && returned == old(returned) + [old(freeList)[0]]
      ensures freeStackNumber == if old(freeStackNumber) > 0 then old(freeStackNumber) - 1 else |freeList|
      ensures freeStackSize ==
        if old(freeStackSize) >= old(freeList)[0].size then old(freeStackSize) - old(freeList)[0].size else 0
      ensures old(Valid()) ==> Valid()
    {
      var front := freeList[0];
      if freeStackNumber > 0 {
        freeStackNumber := freeStackNumber - 1;
      } else {
        freeStackNumber := |freeList| - 1;
      }
      if freeStackSize >= front.size {
        freeStackSize := freeStackSize - front.size;
      } else {
        freeStackSize := 0;
      }
      SumSizesFront(freeList);
      returned := returned + [front];
      freeList := freeList[1..];
    }

    /** `clear` as the source has it: the free counters are zeroed and every stack on the free
        list is given back to the origin allocator, but the list itself is kept. */
    method ClearAsWritten()
      modifies this`freeList, this`returned, this`freeStackNumber, this`freeStackSize
      ensures freeList == old(freeList) && returned == old(returned) + old(freeList)
      ensures freeStackNumber == 0 && freeStackSize == 0
    {
      freeStackSize := 0;
      freeStackNumber := 0;
      for i := 0 to |freeList|
        invariant freeList == old(freeList) && returned == old(returned) + freeList[..i]
        invariant freeStackNumber == 0 && freeStackSize == 0
      {
        returned := returned + [freeList[i]];
        assert freeList[..i + 1] == freeList[..i] + [freeList[i]];
      }
    }

    /** `clear` with the free list emptied after its stacks are given back, which the free
        counters it zeroes presuppose: the pool is left valid and empty. */
    method Clear()
      modifies this`freeList, this`returned, this`freeStackNumber, this`freeStackSize
      ensures Valid()
      ensures freeList == [] && returned == old(returned) + old(freeList)
      ensures freeStackNumber == 0 && freeStackSize == 0
    {
      ClearAsWritten();
      freeList := [];
    }
  }

  /** A pool of 64 KiB stacks after two allocations from the origin allocator and the release
      of the first while the second is in use: the released stack stays cached. */
  method PoolWithCachedStack() returns (pool: Pool, cached: StackContext)
    ensures fresh(pool)
    ensures cached == StackContext(64 * 1024, 0x2_0000) && pool.freeList == [cached] && pool.returned == []
    ensures pool.stackSize == 64 * 1024
    ensures pool.maxStackNumber == 0 && pool.maxStackSize == 0
  {
    pool := new Pool(64 * 1024);
    var a, _ := pool.Allocate(StackContext(64 * 1024, 0x2_0000));
    assert a == StackContext(64 * 1024, 0x2_0000) && pool.stackOffset == 0;
    assert pool.usedStackNumber == 1 && pool.usedStackSize == 64 * 1024;
    var b, _ := pool.Allocate(StackContext(64 * 1024, 0x4_0000));
    assert pool.usedStackNumber == 2 && pool.usedStackSize == 2 * 64 * 1024;
    assert pool.freeList == [] && pool.returned == [];
    var _ := pool.Deallocate(a);
    cached := a;
  }

  /** After the source's `clear` gives the cached stack back to the origin allocator, the next
      `allocate` hands out that same stack again. */
  method ClearAsWrittenThenAllocateReusesReturnedStack() returns (ctx: StackContext, returned: seq<StackContext>)
    ensures ctx.sp != 0 && ctx in returned
  {
    var pool, cached := PoolWithCachedStack();
    pool.ClearAsWritten();
    assert pool.freeList == [cached] && pool.returned == [cached];
    var requested;
    ctx, requested := pool.Allocate(StackContext(64 * 1024, 0x6_0000));
    returned := pool.returned;
  }

  /** With the free list emptied by `clear`, the same sequence takes a fresh stack from the
      origin allocator instead. */
  method ClearThenAllocateTakesFreshStack() returns (ctx: StackContext, returned: seq<StackContext>)
    ensures ctx.sp != 0 && ctx !in returned
  {
    var pool, cached := PoolWithCachedStack();
    pool.Clear();
    assert pool.freeList == [] && pool.returned == [cached];
    var requested;
    ctx, requested := pool.Allocate(StackContext(64 * 1024, 0x6_0000));
    returned := pool.returned;
  }

  /** The offset recorded on a fresh allocation makes `deallocate` recognise that stack as one
      of the pool's own: configured size plus offset is the allocator's size again. */
  lemma FreshStackIsRecognised(granted: StackContext, stackSize: nat)
    requires granted.size <= SIZE_MAX && stackSize <= SIZE_MAX
    ensures AddWrap(stackSize, SubWrap(granted.size, stackSize)) == granted.size
  {
    SubWrapThenAddWrap(granted.size, stackSize);
  }
}
