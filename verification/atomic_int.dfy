/** `atomic_int_type<unsafe_int_type<Ty>>` (utils/atomic_int_type.h): the single-threaded
    stand-in for `std::atomic`, used for the intrusive reference counter when threading is
    disabled. The memory-order arguments are ignored by the source and absent here; the value
    type is the 64-bit unsigned `size_t`/`uint64_t` the library instantiates it with, so every
    operation wraps modulo 2^64. */
module AtomicInt {
  class UnsafeInt {
    var data: bv64

    /** The default constructor value-initialises to zero. */
    constructor()
      ensures data == 0
    {
      data := 0;
    }

    constructor FromValue(desired: bv64)
      ensures data == desired
    {
      data := desired;
    }

    /** `load` and the conversion to `value_type`. */
    function Load(): bv64
      reads this`data
    {
      data
    }

    /** `store`: a later `load` returns the stored value. */
    method Store(desired: bv64)
      modifies this`data
      ensures Load() == desired
    {
      data := desired;
    }

    /** `operator=(value_type)`: stores and returns the stored value. */
    method Assign(desired: bv64) returns (r: bv64)
      modifies this`data
      ensures r == desired && Load() == desired
    {
      Store(desired);
      r := desired;
    }

    /** `operator++()`: the new value. */
    method PreIncrement() returns (r: bv64)
      modifies this`data
      ensures data == old(data) + 1 && r == data
    {
      data := data + 1;
      r := data;
    }

    /** `operator++(int)`: the old value. */
    method PostIncrement() returns (r: bv64)
      modifies this`data
      ensures data == old(data) + 1 && r == old(data)
    {
      r := data;
      data := data + 1;
    }

    /** `operator--()`: the new value. */
    method PreDecrement() returns (r: bv64)
      modifies this`data
      ensures data == old(data) - 1 && r == data
    {
      data := data - 1;
      r := data;
    }

    /** `operator--(int)`: the old value. */
    method PostDecrement() returns (r: bv64)
      modifies this`data
      ensures data == old(data) - 1 && r == old(data)
    {
      r := data;
      data := data - 1;
    }

    /** `exchange`: the old value out, the new one in. */
    method Exchange(desired: bv64) returns (r: bv64)
      modifies this`data
      ensures r == old(data) && data == desired
    {
      r := data;
      data := desired;
    }

    /** `cas`: on a match stores `desired`; otherwise reports the current value through
        `expected` and leaves the value alone. */
    method Cas(expected: bv64, desired: bv64) returns (ok: bool, observed: bv64)
      modifies this`data
      ensures ok <==> old(data) == expected
      ensures ok ==> data == desired && observed == expected
      ensures !ok ==> data == old(data) && observed == old(data)
    {
      if data == expected {
        data := desired;
        ok, observed := true, expected;
      } else {
        ok, observed := false, data;
      }
    }

    /** `compare_exchange_weak`: never fails spuriously here, so it is `cas`. */
    method CompareExchangeWeak(expected: bv64, desired: bv64) returns (ok: bool, observed: bv64)
      modifies this`data
      ensures ok <==> old(data) == expected
      ensures ok ==> data == desired && observed == expected
      ensures !ok ==> data == old(data) && observed == old(data)
    {
      ok, observed := Cas(expected, desired);
    }

    /** `compare_exchange_strong`: the same `cas` as the weak form. */
    method CompareExchangeStrong(expected: bv64, desired: bv64) returns (ok: bool, observed: bv64)
      modifies this`data
      ensures ok <==> old(data) == expected
      ensures ok ==> data == desired && observed == expected
      ensures !ok ==> data == old(data) && observed == old(data)
    {
      ok, observed := Cas(expected, desired);
    }

    /** `fetch_add`. */
    method FetchAdd(arg: bv64) returns (r: bv64)
      modifies this`data
      ensures r == old(data) && data == old(data) + arg
    {
      r := data;
      data := data + arg;
    }

    /** `fetch_sub`. */
    method FetchSub(arg: bv64) returns (r: bv64)
      modifies this`data
      ensures r == old(data) && data == old(data) - arg
    {
      r := data;
      data := data - arg;
    }

    /** `fetch_and`. */
    method FetchAnd(arg: bv64) returns (r: bv64)
      modifies this`data
      ensures r == old(data) && data == old(data) & arg
    {
      r := data;
      data := data & arg;
    }

    /** `fetch_or`. */
    method FetchOr(arg: bv64) returns (r: bv64)
      modifies this`data
      ensures r == old(data) && data == old(data) | arg
    {
      r := data;
      data := data | arg;
    }

    /** `fetch_xor`. */
    method FetchXor(arg: bv64) returns (r: bv64)
      modifies this`data
      ensures r == old(data) && data == old(data) ^ arg
    {
      r := data;
      data := data ^ arg;
    }
  }

  lemma XorUndoesXor(x: bv64, y: bv64)
    ensures (x ^ y) ^ y == x
  {
  }

  /** Two `fetch_xor` of the same argument restore the value. */
  method XorTwiceRestores(a: UnsafeInt, arg: bv64)
    modifies a
    ensures a.data == old(a.data)
  {
    var start := a.FetchXor(arg);
    var _ := a.FetchXor(arg);
    XorUndoesXor(start, arg);
  }

  /** Post-increment then pre-decrement: the first returns the starting value, the second
      returns it again, and the value is back where it started. */
  method IncrementThenDecrement(a: UnsafeInt) returns (first: bv64, second: bv64)
    modifies a
    ensures first == second == old(a.data) && a.data == old(a.data)
  {
    first := a.PostIncrement();
    second := a.PreDecrement();
  }

  /** A failed compare-and-swap hands back the current value, and retrying with it succeeds:
      the retry loop the allocators rely on ends after one round when nothing else writes. */
  method CasRetrySucceeds(a: UnsafeInt, guess: bv64, desired: bv64) returns (ok: bool)
    modifies a
    ensures ok && a.data == desired
  {
    var observed;
    ok, observed := a.CompareExchangeWeak(guess, desired);
    if !ok {
      ok, observed := a.CompareExchangeStrong(observed, desired);
    }
  }
}
