/** `standard_int_key_allocator<TKey>` (standard_int_key_allocator.h): keys come from one
    function-static counter of the key type, incremented with wrap-around and skipping the
    reserved value `npos` (0). */
module StandardIntKeyAllocator {
  import opened SizeArith

  const NPOS: nat := 0

  /** The key after `s` in a key type with `modulus` values: increment with wrap-around, and
      increment again when the result is `npos`. */
  function NextKey(s: nat, modulus: nat): (k: nat)
    requires modulus >= 2 && s < modulus
    ensures k != NPOS && k < modulus
  {
    var k := (s + 1) % modulus;
    if k == NPOS then 1 else k
  }

  /** The key handed out by the `n`-th allocation after the counter held `s`. */
  function KeyAfter(s: nat, n: nat, modulus: nat): (k: nat)
    requires modulus >= 2 && s < modulus
    ensures k < modulus
    ensures n > 0 ==> k != NPOS
  {
    if n == 0 then s else NextKey(KeyAfter(s, n - 1, modulus), modulus)
  }

  /** The keys cycle through 1 .. modulus - 1: the `n`-th key is `(s + n - 1) % (modulus - 1) + 1`. */
  lemma {:induction false} KeyAfterClosedForm(s: nat, n: nat, modulus: nat)
    requires modulus >= 2 && s < modulus && n >= 1
    ensures KeyAfter(s, n, modulus) == (s + n - 1) % (modulus - 1) + 1
  {
    var d := modulus - 1;
    if n == 1 {
      if s + 1 < modulus {
        LemmaModUnique(s + 1, modulus, 0, s + 1);
        LemmaModUnique(s, d, 0, s);
      } else {
        LemmaModUnique(s + 1, modulus, 1, 0);
        LemmaModUnique(s, d, 1, 0);
      }
    } else {
      KeyAfterClosedForm(s, n - 1, modulus);
      var prev := KeyAfter(s, n - 1, modulus);
      assert prev == (s + n - 2) % d + 1;
      assert prev <= d;
      if prev < d {
        LemmaModUnique(prev + 1, modulus, 0, prev + 1);
        LemmaModUnique(prev, d, 0, prev);
      } else {
        LemmaModUnique(prev + 1, modulus, 1, 0);
        LemmaModUnique(prev, d, 1, 0);
      }
      assert NextKey(prev, modulus) == prev % d + 1;
      LemmaModAddOne(s + n - 2, d);
    }
  }

  /** A key is handed out again only after `modulus - 1` further allocations. */
  lemma KeysDistinctWithinCycle(s: nat, i: nat, j: nat, modulus: nat)
    requires modulus >= 2 && s < modulus
    requires 1 <= i < j < i + (modulus - 1)
    ensures KeyAfter(s, i, modulus) != KeyAfter(s, j, modulus)
  {
    KeyAfterClosedForm(s, i, modulus);
    KeyAfterClosedForm(s, j, modulus);
    LemmaModDistinct(s + i - 1, s + j - 1, modulus - 1);
  }

  /** The function-static `id_s` of one key type; every allocator of that type shares it. */
  class KeyCounter {
    /** The number of values of the key type (2^32 for the default `uint32_t`). */
    const modulus: nat
    var idS: nat

    predicate Valid()
      reads this
    {
      modulus >= 2 && idS < modulus
    }

    constructor(modulus: nat)
      requires modulus >= 2
      ensures Valid() && this.modulus == modulus && idS == NPOS
    {
      this.modulus := modulus;
      idS := NPOS;
    }

    /** `allocate`: `++id_s`, then `++id_s` again while it is `npos`. */
    method Allocate() returns (k: nat)
      requires Valid()
      modifies this
      ensures Valid() && idS == k
      ensures k == NextKey(old(idS), modulus)
    {
      idS := (idS + 1) % modulus;
      while idS == NPOS
        invariant idS < modulus
        invariant idS == NPOS ==> (old(idS) + 1) % modulus == NPOS
        invariant idS != NPOS ==> idS == NextKey(old(idS), modulus)
        decreases if idS == NPOS then 1 else 0
      {
        idS := (idS + 1) % modulus;
      }
      return idS;
    }

    /** `deallocate`: keys are never given back. */
    method Deallocate(key: nat)
      ensures idS == old(idS)
    {
    }
  }

  /** The first allocations from a fresh counter hand out 1, 2, 3. */
  method FirstKeys() returns (a: nat, b: nat, c: nat)
    ensures a == 1 && b == 2 && c == 3
  {
    var counter := new KeyCounter(0x1_0000_0000);
    a := counter.Allocate();
    b := counter.Allocate();
    c := counter.Allocate();
  }

  /** On a one-byte key type, the allocation after 255 wraps past `npos` to 1. */
  lemma WrapSkipsNpos()
    ensures NextKey(255, 256) == 1
  {
  }
}
