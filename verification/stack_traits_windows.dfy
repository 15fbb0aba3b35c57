/** `stack_traits` on Windows (stack_traits_windows.cpp): the stack is never bounded, the
    minimum is a per-architecture constant and the page size comes from `GetSystemInfo`. */
module StackTraitsWindows {
  import opened SizeArith

  /** What the system reports: `dwPageSize`, and whether the target is x86_64. */
  datatype WindowsPlatform = WindowsPlatform(pageSize: nat, x64: bool)

  predicate PlatformValid(p: WindowsPlatform)
  {
    IsPow2(p.pageSize) && p.pageSize <= SIZE_MAX
  }

  /** `MIN_STACKSIZE`: 8 KiB on x86_64, 4 KiB on every other target. */
  function MinStackSize(p: WindowsPlatform): (r: nat)
    ensures p.x64 ==> r == 8 * 1024
    ensures !p.x64 ==> r == 4 * 1024
  {
    if p.x64 then 8 * 1024 else 4 * 1024
  }

  /** `is_unbounded`: Windows gives no stack limit. */
  predicate IsUnbounded()
  {
    true
  }

  /** `minimum_size`. */
  function MinimumSize(p: WindowsPlatform): nat
  {
    MinStackSize(p)
  }

  /** `maximum_size`: only meaningful for an unbounded stack, which it asserts; `SIZE_MAX`. */
  function MaximumSize(): nat
  {
    SIZE_MAX
  }

  /** `default_size`: 64 KiB, raised to the minimum if that were larger. The branch for a
      bounded stack cannot be taken, because `is_unbounded` always holds. */
  function DefaultSize(p: WindowsPlatform): (r: nat)
    ensures r >= 64 * 1024 && r >= MinimumSize(p)
    ensures r == 64 * 1024 || r == MinimumSize(p)
    ensures r <= MaximumSize()
  {
    var size := 64 * 1024;
    if size < MinimumSize(p) then MinimumSize(p) else size
  }

  /** `round_to_page_size`: `(stacksize + page_size() - 1) & ~(page_size() - 1)` in `size_t`. */
  function RoundToPageSize(p: WindowsPlatform, stackSize: nat): (r: nat)
    requires PlatformValid(p)
    ensures r % p.pageSize == 0 && r <= SIZE_MAX
  {
    RoundUpPow2(stackSize, p.pageSize)
  }

  /** Without overflow, the rounded size is the least whole number of pages covering the
      requested size, and rounding again changes nothing. */
  lemma RoundToPageSizeIsLeastMultiple(p: WindowsPlatform, stackSize: nat, m: nat)
    requires PlatformValid(p)
    requires stackSize + p.pageSize - 1 <= SIZE_MAX
    ensures stackSize <= RoundToPageSize(p, stackSize) < stackSize + p.pageSize
    ensures m >= stackSize && m % p.pageSize == 0 ==> RoundToPageSize(p, stackSize) <= m
    ensures RoundToPageSize(p, RoundToPageSize(p, stackSize)) == RoundToPageSize(p, stackSize)
  {
    LemmaRoundUpLeastMultiple(stackSize, p.pageSize);
    LemmaRoundUpFixesMultiples(RoundToPageSize(p, stackSize), p.pageSize);
  }
}
