/** `stack_traits` on POSIX systems (stack_traits_posix.cpp): the stack size limits come from
    `getrlimit(RLIMIT_STACK)` and `SIGSTKSZ`, and the page size from `sysconf(_SC_PAGESIZE)`.
    Those three system values are the fields of `Platform`. */
module StackTraitsPosix {
  import opened SizeArith

  /** `RLIM_INFINITY` as glibc defines it: every bit of `rlim_t` set. */
  const RLIM_INFINITY: nat := SIZE_MAX

  /** The `SIGSTKSZ` the file defines when `<signal.h>` does not. */
  const FALLBACK_SIGSTKSZ: nat := 8 * 1024

  /** What the system reports: the page size, the hard stack limit `rlim_max` and `SIGSTKSZ`. */
  datatype Platform = Platform(pageSize: nat, rlimMax: nat, sigStkSz: nat)

  /** The page size is a power of two (the rounding relies on it) that fits in `size_t`, `rlim_max` is an `rlim_t`,
      and eight times `SIGSTKSZ` fits in a `size_t`. */
  predicate PlatformValid(p: Platform)
  {
    IsPow2(p.pageSize) && p.pageSize <= SIZE_MAX && p.rlimMax <= SIZE_MAX && 8 * p.sigStkSz <= SIZE_MAX
  }

  /** `is_unbounded`: the hard stack limit is infinite. */
  predicate IsUnbounded(p: Platform)
  {
    p.rlimMax == RLIM_INFINITY
  }

  /** `minimum_size`: `SIGSTKSZ`. */
  function MinimumSize(p: Platform): nat
  {
    p.sigStkSz
  }

  /** `maximum_size`: `SIZE_MAX` when unbounded, otherwise the hard limit. */
  function MaximumSize(p: Platform): (r: nat)
    requires PlatformValid(p)
    ensures r <= SIZE_MAX
    ensures IsUnbounded(p) ==> r == SIZE_MAX
    ensures !IsUnbounded(p) ==> r == p.rlimMax
  {
    if IsUnbounded(p) then SIZE_MAX else p.rlimMax
  }

  /** `default_size`: eight minimum stacks, capped by the maximum when the stack is bounded; the
      source asserts that a bounded maximum is not below the minimum. */
  function DefaultSize(p: Platform): (r: nat)
    requires PlatformValid(p)
    requires !IsUnbounded(p) ==> MaximumSize(p) >= MinimumSize(p)
    ensures MinimumSize(p) <= r <= MaximumSize(p)
    ensures r <= 8 * MinimumSize(p)
    ensures r == 8 * MinimumSize(p) <==> IsUnbounded(p) || MaximumSize(p) >= 8 * MinimumSize(p)
  {
    var size := 8 * MinimumSize(p);
    if IsUnbounded(p) then size
    else if MaximumSize(p) == size then size
    else if size < MaximumSize(p) then size else MaximumSize(p)
  }

  /** `round_to_page_size`: `(stacksize + pagesize - 1) & ~(pagesize - 1)` in `size_t`. */
  function RoundToPageSize(p: Platform, stackSize: nat): (r: nat)
    requires PlatformValid(p)
    ensures r % p.pageSize == 0 && r <= SIZE_MAX
  {
    RoundUpPow2(stackSize, p.pageSize)
  }

  /** Without overflow, the rounded size is the least multiple of the page size that is not
      below the requested size. */
  lemma RoundToPageSizeIsLeastMultiple(p: Platform, stackSize: nat, m: nat)
    requires PlatformValid(p)
    requires stackSize + p.pageSize - 1 <= SIZE_MAX
    ensures stackSize <= RoundToPageSize(p, stackSize) < stackSize + p.pageSize
    ensures m >= stackSize && m % p.pageSize == 0 ==> RoundToPageSize(p, stackSize) <= m
  {
    LemmaRoundUpLeastMultiple(stackSize, p.pageSize);
  }

  /** A size that already is a whole number of pages is left as it is. */
  lemma RoundToPageSizeIdempotent(p: Platform, stackSize: nat)
    requires PlatformValid(p)
    ensures RoundToPageSize(p, RoundToPageSize(p, stackSize)) == RoundToPageSize(p, stackSize)
  {
    LemmaRoundUpFixesMultiples(RoundToPageSize(p, stackSize), p.pageSize);
  }

  /** A typical Linux x86_64 system with an 8 MiB hard stack limit: the default is 64 KiB. */
  lemma LinuxDefaults()
    ensures DefaultSize(Platform(4096, 8 * 1024 * 1024, 8192)) == 64 * 1024
    ensures RoundToPageSize(Platform(4096, 8 * 1024 * 1024, 8192), 10000) == 12288
  {
    LemmaRoundUpLeastMultiple(10000, 4096);
    assert IsPow2(4096) by {
      assert IsPow2(1) && IsPow2(2) && IsPow2(4) && IsPow2(8) && IsPow2(16) && IsPow2(32);
      assert IsPow2(64) && IsPow2(128) && IsPow2(256) && IsPow2(512) && IsPow2(1024) && IsPow2(2048);
    }
    assert 12288 % 4096 == 0;
  }
}
