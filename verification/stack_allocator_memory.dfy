/** `stack_allocator_memory` (stack_allocator_memory.cpp): hands out one caller-supplied buffer
    as a stack, at most once at a time. The stack traits it consults are those of the POSIX
    platform. */
module StackAllocatorMemory {
  import opened SizeArith
  import opened StackContexts
  import opened StackTraitsPosix

  /** The size `allocate` settles on before rounding: at least the minimum stack, at most the
      maximum stack, and at most the attached buffer (the last clamp wins). */
  function ClampedSize(size: nat, p: Platform, memorySize: nat): (r: nat)
    requires PlatformValid(p)
    ensures r <= memorySize && r <= MaximumSize(p)
    ensures r == memorySize || r == MaximumSize(p) || r == MinimumSize(p) || r == size
    ensures MinimumSize(p) <= size <= MaximumSize(p) && size <= memorySize ==> r == size
    ensures MinimumSize(p) <= memorySize && MinimumSize(p) <= MaximumSize(p) ==> r >= MinimumSize(p)
  {
    var s1 := if size < MinimumSize(p) then MinimumSize(p) else size;
    var s2 := if MaximumSize(p) < s1 then MaximumSize(p) else s1;
    if memorySize < s2 then memorySize else s2
  }

  class MemoryAllocator {
    /** The attached buffer: its start address (0 when none) and its size. */
    var startPtr: nat
    var memorySize: nat
    var isUsed: bool

    /** The default constructor: no buffer. */
    constructor()
      ensures startPtr == 0 && memorySize == 0 && !isUsed
    {
      startPtr := 0;
      memorySize := 0;
      isUsed := false;
    }

    /** `stack_allocator_memory(start_ptr, max_size)`. */
    constructor Attached(start: nat, maxSize: nat)
      ensures startPtr == start && memorySize == maxSize && !isUsed
    {
      startPtr := start;
      memorySize := maxSize;
      isUsed := false;
    }

    /** Copy and move construction: start empty, then take the other's buffer by a swap when the
        other is not in use (the other is left empty). */
    constructor From(other: MemoryAllocator)
      modifies other
      ensures !old(other.isUsed) ==>
        startPtr == old(other.startPtr) && memorySize == old(other.memorySize) && isUsed == old(other.isUsed)
        && other.startPtr == 0 && other.memorySize == 0 && !other.isUsed
      ensures old(other.isUsed) ==>
        startPtr == 0 && memorySize == 0 && !isUsed
        && other.startPtr == old(other.startPtr) && other.memorySize == old(other.memorySize) && other.isUsed
    {
      startPtr := 0;
      memorySize := 0;
      isUsed := false;
      new;
      if !other.isUsed {
        Swap(other);
      }
    }

    /** Copy and move assignment: swap with the other when the other is not in use. */
    method Assign(other: MemoryAllocator)
      requires other != this
      modifies this, other
      ensures !old(other.isUsed) ==>
        startPtr == old(other.startPtr) && memorySize == old(other.memorySize) && isUsed == old(other.isUsed)
        && other.startPtr == old(startPtr) && other.memorySize == old(memorySize) && other.isUsed == old(isUsed)
      ensures old(other.isUsed) ==>
        startPtr == old(startPtr) && memorySize == old(memorySize) && isUsed == old(isUsed)
        && other.startPtr == old(other.startPtr) && other.memorySize == old(other.memorySize) && other.isUsed
    {
      if !other.isUsed {
        Swap(other);
      }
    }

    /** `swap`: exchanges the three fields. */
    method Swap(other: MemoryAllocator)
      modifies this, other
      ensures other != this ==>
        startPtr == old(other.startPtr) && memorySize == old(other.memorySize) && isUsed == old(other.isUsed)
        && other.startPtr == old(startPtr) && other.memorySize == old(memorySize) && other.isUsed == old(isUsed)
      ensures other == this ==>
        startPtr == old(startPtr) && memorySize == old(memorySize) && isUsed == old(isUsed)
    {
      startPtr, other.startPtr := other.startPtr, startPtr;
      memorySize, other.memorySize := other.memorySize, memorySize;
      isUsed, other.isUsed := other.isUsed, isUsed;
    }

    /** `attach`: installs a buffer and marks it unused. */
    method Attach(start: nat, maxSize: nat)
      modifies this
      ensures startPtr == start && memorySize == maxSize && !isUsed
    {
      startPtr := start;
      memorySize := maxSize;
      isUsed := false;
    }

    /** `allocate(ctx, size)`: without a buffer, or while the buffer is in use, only `ctx.sp` is
        nulled. Otherwise the clamped size is rounded to whole pages, the stack ends that far
        above the buffer start, and the buffer is in use. */
    method Allocate(ctx: StackContext, size: nat, p: Platform) returns (out: StackContext)
      requires PlatformValid(p)
      modifies this
      ensures startPtr == old(startPtr) && memorySize == old(memorySize)
      ensures old(startPtr) == 0 || old(isUsed) ==> out == ctx.(sp := 0) && isUsed == old(isUsed)
      ensures old(startPtr) != 0 && !old(isUsed) ==>
        out.size == RoundToPageSize(p, ClampedSize(size, p, memorySize))
        && out.sp == startPtr + out.size && isUsed
    {
      if startPtr == 0 || isUsed {
        return ctx.(sp := 0);
      }
      var sz := ClampedSize(size, p, memorySize);
      var rounded := RoundToPageSize(p, sz);
      out := StackContext(rounded, startPtr + rounded);
      isUsed := true;
    }

    /** The size `allocate` would use if it kept the stack inside the buffer, as its assertion
        expects: rounding up to whole pages, or down when rounding up would leave the buffer. */
    method AllocateWithinBuffer(ctx: StackContext, size: nat, p: Platform) returns (out: StackContext)
      requires PlatformValid(p)
      modifies this
      ensures startPtr == old(startPtr) && memorySize == old(memorySize)
      ensures old(startPtr) == 0 || old(isUsed) ==> out == ctx.(sp := 0) && isUsed == old(isUsed)
      ensures old(startPtr) != 0 && !old(isUsed) ==>
        out.size == FittedStackSize(size, p, memorySize) && out.sp == startPtr + out.size && isUsed
    {
      if startPtr == 0 || isUsed {
        return ctx.(sp := 0);
      }
      var rounded := FittedStackSize(size, p, memorySize);
      out := StackContext(rounded, startPtr + rounded);
      isUsed := true;
    }

    /** `deallocate`: the buffer is free again; the source asserts that `ctx` is a real stack
        within the platform limits. */
    method Deallocate(ctx: StackContext, p: Platform)
      requires PlatformValid(p)
      requires ctx.sp != 0 && MinimumSize(p) <= ctx.size
      requires IsUnbounded(p) || MaximumSize(p) >= ctx.size
      modifies this
      ensures startPtr == old(startPtr) && memorySize == old(memorySize) && !isUsed
    {
      isUsed := false;
    }
  }

  /** The clamped size rounded up to whole pages, or the buffer rounded down to whole pages
      instead when rounding up would pass the end of the buffer. */
  function FittedStackSize(size: nat, p: Platform, memorySize: nat): (r: nat)
    requires PlatformValid(p)
    ensures r <= memorySize && r % p.pageSize == 0
    ensures RoundToPageSize(p, ClampedSize(size, p, memorySize)) <= memorySize ==>
      r == RoundToPageSize(p, ClampedSize(size, p, memorySize))
  {
    var up := RoundToPageSize(p, ClampedSize(size, p, memorySize));
    if up <= memorySize then up else WholePagesIn(memorySize, p.pageSize)
  }

  /** The largest whole number of pages that fits in `memorySize` bytes. */
  function WholePagesIn(memorySize: nat, pageSize: nat): (r: nat)
    requires pageSize > 0
    ensures r <= memorySize && r % pageSize == 0
    ensures memorySize - r < pageSize
  {
    LemmaDivMulLe(memorySize, pageSize);
    LemmaMulMod(memorySize / pageSize, pageSize);
    memorySize / pageSize * pageSize
  }

  /** When the buffer is a whole number of pages, the fitted size is exactly the rounded-up size
      the source computes: the correction only changes buffers of a partial page. */
  lemma FittedStackSizeOnWholePages(size: nat, p: Platform, memorySize: nat)
    requires PlatformValid(p)
    requires memorySize % p.pageSize == 0 && memorySize <= SIZE_MAX
    ensures FittedStackSize(size, p, memorySize) == RoundToPageSize(p, ClampedSize(size, p, memorySize))
  {
    var c := ClampedSize(size, p, memorySize);
    LemmaPow2DividesModulus(p.pageSize);
    if c + p.pageSize - 1 <= SIZE_MAX {
      RoundToPageSizeIsLeastMultiple(p, c, memorySize);
    } else {
      // c <= memorySize, a multiple of the page size strictly below 2^64, leaves a whole page
      LemmaMultiplesApart(memorySize, SIZE_MODULUS, p.pageSize);
    }
  }

  /** An allocator attached to a 10000-byte buffer on a 4 KiB-page Linux system, asked for a
      10000-byte stack, reports a 12288-byte stack that ends 2288 bytes past the buffer. */
  method UnalignedBufferOverrun() returns (ctx: StackContext, bufferEnd: nat)
    ensures ctx.size == 12288 && ctx.sp > bufferEnd
  {
    var p := Platform(4096, 8 * 1024 * 1024, 8192);
    LinuxDefaults();
    var a := new MemoryAllocator.Attached(0x10000, 10000);
    bufferEnd := 0x10000 + 10000;
    ctx := a.Allocate(EMPTY_STACK, 10000, p);
  }

  /** The same request under the corrected size stays inside the buffer. */
  method UnalignedBufferFitted() returns (ctx: StackContext, bufferEnd: nat)
    ensures ctx.size == 8192 && ctx.sp <= bufferEnd
  {
    var p := Platform(4096, 8 * 1024 * 1024, 8192);
    LinuxDefaults();
    var a := new MemoryAllocator.Attached(0x10000, 10000);
    bufferEnd := 0x10000 + 10000;
    ctx := a.AllocateWithinBuffer(EMPTY_STACK, 10000, p);
  }
}
