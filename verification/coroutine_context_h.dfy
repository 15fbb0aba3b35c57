/** Declarations shared by every coroutine context (`coroutine_context.h`): the status machine,
    the flag bits reserved for the library, the alignment unit and the size-alignment helpers. */
module CoroutineContextH {
  import opened SizeArith

  /** `status_t::type`, in declaration order. */
  datatype Status = Invalid | Ready | Running | Finished | Exited

  /** The integer value each enumerator has in the source. */
  function StatusValue(s: Status): (v: nat)
    ensures v <= 4
  {
    match s
    case Invalid => 0
    case Ready => 1
    case Running => 2
    case Finished => 3
    case Exited => 4
  }

  predicate StatusLess(a: Status, b: Status) { StatusValue(a) < StatusValue(b) }

  /** `flag_t::type`: the low byte of the flag word is reserved for the library. */
  const FLAG_UNKNOWN: bv32 := 0
  const FLAG_FINISHED: bv32 := 0x01
  const FLAG_MASK: bv32 := 0xFF

  /** `align_helper<N>`: the alignment unit is N when N >= 16 and 16 otherwise. */
  function AlignHelper(n: nat): (v: nat)
    ensures v >= 16
    ensures n >= 16 ==> v == n
  {
    if n >= 16 then n else 16
  }

  /** `sizeof(max_align_t)` on the 64-bit targets the model fixes. */
  const SIZEOF_MAX_ALIGN_T: nat := 16

  /** `COROUTINE_CONTEXT_BASE_ALIGN_UNIT_SIZE`. */
  const ALIGN_UNIT: nat := AlignHelper(SIZEOF_MAX_ALIGN_T)

  /** The static assertion on the alignment unit, and the power-of-two shape the bit-masking
      of the align helpers relies on. */
  lemma AlignUnitWellFormed()
    ensures ALIGN_UNIT >= 16 && ALIGN_UNIT % 16 == 0
    ensures IsPow2(ALIGN_UNIT)
  {
    assert IsPow2(1);
    assert IsPow2(2);
    assert IsPow2(4);
    assert IsPow2(8);
  }

  /** `align_address_size`: the same rounding as `align_private_data_size`. */
  function AlignAddressSize(sz: nat): (r: nat)
    ensures r % ALIGN_UNIT == 0 && r <= SIZE_MAX
    ensures sz + ALIGN_UNIT - 1 <= SIZE_MAX ==> sz <= r < sz + ALIGN_UNIT
  {
    AlignUnitWellFormed();
    var r := RoundUpPow2(sz, ALIGN_UNIT);
    if sz + ALIGN_UNIT - 1 <= SIZE_MAX then LemmaRoundUpLeastMultiple(sz, ALIGN_UNIT); r else r
  }

  /** Without overflow, `align_address_size(sz)` is the least multiple of the unit that is at
      least `sz`. */
  lemma AlignAddressSizeIsLeast(sz: nat, m: nat)
    requires sz + ALIGN_UNIT - 1 <= SIZE_MAX
    requires m >= sz && m % ALIGN_UNIT == 0
    ensures AlignAddressSize(sz) <= m
  {
    AlignUnitWellFormed();
    LemmaRoundUpLeastMultiple(sz, ALIGN_UNIT);
  }

  /** Aligning an aligned size changes nothing. */
  lemma AlignAddressSizeIdempotent(sz: nat)
    requires sz <= SIZE_MAX
    ensures AlignAddressSize(AlignAddressSize(sz)) == AlignAddressSize(sz)
  {
    AlignUnitWellFormed();
    var r := AlignAddressSize(sz);
    LemmaMultiplesApart(r, SIZE_MODULUS, ALIGN_UNIT);
    LemmaRoundUpIdempotent(r, ALIGN_UNIT);
  }

  /** `align_private_data_size`: the same mask arithmetic as `align_address_size`. */
  function AlignPrivateDataSize(sz: nat): (r: nat)
    ensures r % ALIGN_UNIT == 0 && r <= SIZE_MAX
    ensures sz + ALIGN_UNIT - 1 <= SIZE_MAX ==> sz <= r < sz + ALIGN_UNIT
  {
    AlignAddressSize(sz)
  }
}
