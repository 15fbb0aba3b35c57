/** The time-plus-sequence id allocators: `standard_int_id_allocator<TKey>`
    (libcotask/core/standard_int_id_allocator.h) and `uint64_id_allocator`
    (utils/uint64_id_allocator.cpp). Both keep one process-wide counter `seq_alloc`, starting
    at 255, whose high part is a time stamp and whose low `seq_bits` bits are a sequence
    number: the next id is the counter plus one, unless that would carry into the time part
    (or the time part is still 0), in which case the counter is rebased to the current time
    shifted up by `seq_bits`. Id 0 is never handed out.

    Values are unsigned integers of `valueBits` bits, so every addition and shift wraps modulo
    2^valueBits. The wall clock `time(NULL)` is a sequence of readings passed in and consumed
    in order; the source waits on the clock until it moves, and the model stops waiting when
    the readings run out. */
module IdAllocator {
  import opened SizeArith

  /** How a counter value is split. `timeBits` is the width of `time_mask`; `epoch` is
      subtracted from the masked time. */
  datatype Layout = Layout(valueBits: nat, seqBits: nat, timeBits: nat, epoch: nat)

  predicate ValidLayout(l: Layout)
  {
    l.seqBits >= 1 && l.timeBits >= 1 && l.seqBits + l.timeBits <= l.valueBits
    && 255 < Pow2(l.valueBits)
  }

  /** `standard_int_id_allocator<TKey>` for a `TKey` of `bytes` bytes: the sequence is half
      the width and the time mask covers the other half, with no epoch. */
  function StandardLayout(bytes: nat): (l: Layout)
    requires bytes >= 1
    ensures l.seqBits == bytes * 4 && l.seqBits + l.timeBits == l.valueBits == bytes * 8
    ensures ValidLayout(l)
  {
    assert Pow2(8) == 256;
    LemmaPow2Add(8, bytes * 8 - 8);
    LemmaMulAtLeast(Pow2(bytes * 8 - 8), 256);
    Layout(bytes * 8, bytes * 4, bytes * 8 - bytes * 4, 0)
  }

  /** `allocate_id_by_atomic`: 64-bit values, a 24-bit sequence, a 32-bit time mask and times
      counted from 2020-01-01 00:00:00 UTC. */
  function Uint64Layout(): (l: Layout)
    ensures ValidLayout(l) && Pow2(l.valueBits) == SIZE_MODULUS
  {
    LemmaPow2Of64();
    Layout(64, 24, 32, 1577836800)
  }

  /** 2^valueBits: values wrap modulo this. */
  function ValueMod(l: Layout): (r: nat)
    ensures r >= 1
  {
    Pow2(l.valueBits)
  }

  /** 2^seqBits: the weight of one time unit. */
  function SeqMod(l: Layout): (r: nat)
    ensures r >= 1
  {
    Pow2(l.seqBits)
  }

  /** `time_mask + 1`. */
  function TimeMod(l: Layout): (r: nat)
    ensures r >= 1
  {
    Pow2(l.timeBits)
  }

  /** `value >> seq_bits`. */
  function TimePart(l: Layout, value: nat): nat
  {
    var s := SeqMod(l);
    DivNonNegative(value, s);
    value / s
  }

  /** `value + 1`, wrapping. */
  function Next(l: Layout, value: nat): nat
  {
    (value + 1) % ValueMod(l)
  }

  /** `now_time << seq_bits`, wrapping. */
  function Rebase(l: Layout, now: nat): nat
  {
    (now * SeqMod(l)) % ValueMod(l)
  }

  /** `now_time` from one reading of `time(NULL)`: masked, less the epoch, wrapping. */
  function NowTime(l: Layout, t: nat): nat
  {
    (t % TimeMod(l) - l.epoch) % ValueMod(l)
  }

  /** The rebase branch is taken: the time part is 0, or one more would carry into it. */
  predicate NeedsRebase(l: Layout, value: nat)
  {
    TimePart(l, value) == 0 || TimePart(l, value) != TimePart(l, Next(l, value))
  }

  /** A clock that never reports a time behind the counter's time part, never wraps past the
      time mask, and never goes backwards. */
  predicate SteadyClock(l: Layout, readings: seq<nat>, timePart: nat)
  {
    (forall i :: 0 <= i < |readings| ==> timePart <= NowTime(l, readings[i]) < TimeMod(l))
    && (forall i, j :: 0 <= i < j < |readings| ==> NowTime(l, readings[i]) <= NowTime(l, readings[j]))
  }

  // ---------------------------------------------------------------- arithmetic

  lemma DivNonNegative(a: nat, d: nat)
    requires d >= 1
    ensures a / d >= 0
  {
  }

  lemma SeqTimeFit(l: Layout)
    requires ValidLayout(l)
    ensures SeqMod(l) * TimeMod(l) <= ValueMod(l)
  {
    LemmaPow2Add(l.seqBits + l.timeBits, l.valueBits - l.seqBits - l.timeBits);
    LemmaPow2Add(l.seqBits, l.timeBits);
    LemmaMulAtLeast(Pow2(l.valueBits - l.seqBits - l.timeBits), SeqMod(l) * TimeMod(l));
  }

  /** Without a carry, the next value is one more, with no wrap-around. */
  lemma NoCarryIsIncrement(l: Layout, value: nat)
    requires ValidLayout(l) && value < ValueMod(l) && !NeedsRebase(l, value)
    ensures Next(l, value) == value + 1
  {
    if value + 1 < ValueMod(l) {
      LemmaModUnique(value + 1, ValueMod(l), 0, value + 1);
    }
  }

  /** Division undoes multiplication by the same positive weight. */
  lemma DivOfMul(q: nat, d: nat)
    requires d > 0
    ensures (q * d) / d == q
  {
    var a := q * d;
    assert a == (a / d) * d + a % d;
    LemmaModUnique(a, d, q, 0);
    assert (a / d - q) * d == 0;
  }

  /** Rebasing to a time within the mask keeps that time as the time part, and lands above
      every value whose time part is earlier. */
  lemma RebaseAbove(l: Layout, value: nat, now: nat)
    requires ValidLayout(l) && now < TimeMod(l)
    ensures Rebase(l, now) == now * SeqMod(l)
    ensures TimePart(l, Rebase(l, now)) == now
    ensures TimePart(l, value) < now ==> Rebase(l, now) > value
  {
    var s := SeqMod(l);
    SeqTimeFit(l);
    LemmaMulMonotone(now + 1, TimeMod(l), s);
    assert now * s + s <= ValueMod(l);
    LemmaModUnique(now * s, ValueMod(l), 0, now * s);
    DivOfMul(now, s);
    if TimePart(l, value) < now {
      LemmaDivMulLe(value, s);
      LemmaMulMonotone(value / s + 1, now, s);
    }
  }

  /** One more within the same time part keeps the time part. */
  lemma IncrementKeepsTimePart(l: Layout, value: nat)
    requires ValidLayout(l) && value < ValueMod(l) && !NeedsRebase(l, value)
    ensures TimePart(l, value + 1) == TimePart(l, value)
  {
    NoCarryIsIncrement(l, value);
  }

  // ---------------------------------------------------------------- waiting for the clock

  /** `while (time_part == now_time) now_time = ...`: reads the clock until it reports a time
      other than `timePart`. The result is that reading's time, or `timePart` itself when the
      readings ran out first. */
  method WaitForNewTime(l: Layout, timePart: nat, readings: seq<nat>) returns (now: nat, rest: seq<nat>)
    ensures |rest| <= |readings| && rest == readings[|readings| - |rest|..]
    ensures now == timePart ==> rest == []
    ensures now != timePart ==>
      |rest| < |readings| && now == NowTime(l, readings[|readings| - |rest| - 1])
  {
    now := timePart;
    rest := readings;
    while now == timePart && rest != []
      invariant |rest| <= |readings| && rest == readings[|readings| - |rest|..]
      invariant now != timePart ==>
        |rest| < |readings| && now == NowTime(l, readings[|readings| - |rest| - 1])
      decreases |rest|
    {
      now := NowTime(l, rest[0]);
      rest := rest[1..];
    }
  }

  /** A steady clock stays steady, relative to the time just read, over the readings after
      it. */
  lemma SteadyAfterReading(l: Layout, readings: seq<nat>, timePart: nat, k: nat)
    requires SteadyClock(l, readings, timePart) && k < |readings|
    ensures SteadyClock(l, readings[k + 1..], NowTime(l, readings[k]))
  {
    var rest := readings[k + 1..];
    forall i | 0 <= i < |rest|
      ensures NowTime(l, readings[k]) <= NowTime(l, rest[i]) < TimeMod(l)
    {
      assert rest[i] == readings[k + 1 + i];
    }
    forall i, j | 0 <= i < j < |rest|
      ensures NowTime(l, rest[i]) <= NowTime(l, rest[j])
    {
      assert rest[i] == readings[k + 1 + i] && rest[j] == readings[k + 1 + j];
    }
  }

  /** One round of the allocation loop on the counter's value `value`: the rebase branch
      waits for a new time and stores it shifted up; the other branch stores one more. With
      one thread the compare-and-swap always succeeds. `stalled` says the readings ran out
      while waiting. */
  method AllocateRound(l: Layout, value: nat, readings: seq<nat>) returns (ret: nat, next: nat, rest: seq<nat>, stalled: bool)
    requires ValidLayout(l) && value < ValueMod(l)
    ensures next < ValueMod(l)
    ensures |rest| <= |readings| && rest == readings[|readings| - |rest|..]
    ensures stalled ==> ret == 0 && next == value && rest == []
    ensures !stalled ==> ret == next
    ensures !NeedsRebase(l, value) ==> !stalled && ret == value + 1 && rest == readings
    ensures NeedsRebase(l, value) && !stalled ==>
      |rest| < |readings|
      && NowTime(l, readings[|readings| - |rest| - 1]) != TimePart(l, value)
      && ret == Rebase(l, NowTime(l, readings[|readings| - |rest| - 1]))
  {
    var res := value;
    var timePart := TimePart(l, res);
    var nextRet := Next(l, res);
    next := value;
    ret := 0;
    if timePart == 0 || timePart != TimePart(l, nextRet) {
      var now;
      now, rest := WaitForNewTime(l, timePart, readings);
      stalled := now == timePart;
      if !stalled {
        var desired := Rebase(l, now);
        if next == res {
          next := desired;
          ret := desired;
        }
      }
    } else {
      NoCarryIsIncrement(l, res);
      rest, stalled := readings, false;
      if next == res {
        next := nextRet;
        ret := nextRet;
      }
    }
  }

  /** The allocation loop (`allocate_id_by_atomic`, `standard_int_id_allocator::allocate`) on
      the counter's value `start`, returning the id and the counter's new value. The id is
      never 0 unless the readings ran out; it is the counter plus one when no rebase is due,
      and otherwise the last reading's time shifted up. On a steady clock every id is larger
      than the counter was, and the clock stays steady for the next call. */
  method AllocateFrom(l: Layout, start: nat, readings: seq<nat>) returns (ret: nat, value: nat, rest: seq<nat>)
    requires ValidLayout(l) && start < ValueMod(l)
    ensures value < ValueMod(l)
    ensures ret == 0 ==> rest == []
    ensures ret != 0 ==> value == ret
    ensures |rest| <= |readings| && rest == readings[|readings| - |rest|..]
    ensures ret != 0 && !NeedsRebase(l, start) ==> ret == start + 1 && rest == readings
    ensures ret != 0 && NeedsRebase(l, start) ==>
      |rest| < |readings| && ret == Rebase(l, NowTime(l, readings[|readings| - |rest| - 1]))
    ensures SteadyClock(l, readings, TimePart(l, start)) && ret != 0 ==>
      ret > start && SteadyClock(l, rest, TimePart(l, value))
  {
    ghost var steady := SteadyClock(l, readings, TimePart(l, start));
    value := start;
    ret := 0;
    rest := readings;
    while ret == 0
      invariant value < ValueMod(l)
      invariant |rest| <= |readings| && rest == readings[|readings| - |rest|..]
      invariant ret != 0 ==> value == ret
      invariant ret == 0 ==> (value == start && rest == readings) || (value == 0 && NeedsRebase(l, start))
      invariant ret == 0 && steady ==> value == start && rest == readings
      invariant ret != 0 && !NeedsRebase(l, start) ==> ret == start + 1 && rest == readings
      invariant ret != 0 && NeedsRebase(l, start) ==>
        |rest| < |readings| && ret == Rebase(l, NowTime(l, readings[|readings| - |rest| - 1]))
      invariant steady && ret != 0 ==> ret > start && SteadyClock(l, rest, TimePart(l, value))
      decreases |rest|, (if ret == 0 then 1 else 0)
    {
      ghost var before := rest;
      var r, v, later, stalled := AllocateRound(l, value, rest);
      if stalled {
        rest := later;
        return;
      }
      ghost var k := |readings| - |later| - 1;
      if NeedsRebase(l, value) {
        assert readings[k] == before[|before| - |later| - 1];
      }
      assert later == readings[|readings| - |later|..];
      ret, value, rest := r, v, later;
      if steady {
        SteadyRound(l, start, readings, ret, rest);
      }
    }
  }

  /** The round that starts from `start` on a steady clock ends above it, with the clock
      still steady for what follows. */
  lemma SteadyRound(l: Layout, start: nat, readings: seq<nat>, ret: nat, rest: seq<nat>)
    requires ValidLayout(l) && start < ValueMod(l)
    requires SteadyClock(l, readings, TimePart(l, start))
    requires |rest| <= |readings| && rest == readings[|readings| - |rest|..]
    requires !NeedsRebase(l, start) ==> ret == start + 1 && rest == readings
    requires NeedsRebase(l, start) ==>
      |rest| < |readings|
      && NowTime(l, readings[|readings| - |rest| - 1]) != TimePart(l, start)
      && ret == Rebase(l, NowTime(l, readings[|readings| - |rest| - 1]))
    ensures ret > start && SteadyClock(l, rest, TimePart(l, ret))
  {
    if NeedsRebase(l, start) {
      var k := |readings| - |rest| - 1;
      RebaseAbove(l, start, NowTime(l, readings[k]));
      SteadyAfterReading(l, readings, TimePart(l, start), k);
      assert rest == readings[k + 1..];
    } else {
      IncrementKeepsTimePart(l, start);
    }
  }

  /** The function-local static `seq_alloc` of one instantiation. */
  class SequenceAllocator {
    const layout: Layout
    var value: nat

    ghost predicate Valid()
      reads this`value
    {
      ValidLayout(layout) && value < ValueMod(layout)
    }

    /** `seq_alloc(255)`. */
    constructor(layout: Layout)
      requires ValidLayout(layout)
      ensures Valid() && this.layout == layout && value == 255
    {
      this.layout := layout;
      value := 255;
    }

    /** One allocation from the shared counter: `AllocateFrom` its value, which then becomes
        the counter. */
    method Allocate(readings: seq<nat>) returns (ret: nat, rest: seq<nat>)
      requires Valid()
      modifies this`value
      ensures Valid()
      ensures ret == 0 ==> rest == []
      ensures ret != 0 ==> value == ret
      ensures |rest| <= |readings| && rest == readings[|readings| - |rest|..]
      ensures ret != 0 && old(!NeedsRebase(layout, value)) ==> ret == old(value) + 1 && rest == readings
      ensures ret != 0 && old(NeedsRebase(layout, value)) ==>
        |rest| < |readings| && ret == Rebase(layout, NowTime(layout, readings[|readings| - |rest| - 1]))
      ensures old(SteadyClock(layout, readings, TimePart(layout, value))) && ret != 0 ==>
        ret > old(value) && SteadyClock(layout, rest, TimePart(layout, value))
    {
      var v;
      ret, v, rest := AllocateFrom(layout, value, readings);
      value := v;
    }
  }

  /** `standard_int_id_allocator<TKey>`: every instance of one key type shares the counter. */
  class StandardIntIdAllocator {
    const sequence: SequenceAllocator

    constructor(sequence: SequenceAllocator)
      ensures this.sequence == sequence
    {
      this.sequence := sequence;
    }

    /** `allocate`: the shared counter's next id; never `npos` (0) while the clock moves. */
    method Allocate(readings: seq<nat>) returns (id: nat, rest: seq<nat>)
      requires sequence.Valid()
      modifies sequence`value
      ensures sequence.Valid()
      ensures id == 0 ==> rest == []
      ensures id != 0 ==> sequence.value == id
      ensures old(SteadyClock(sequence.layout, readings, TimePart(sequence.layout, sequence.value))) && id != 0 ==>
        id > old(sequence.value) && SteadyClock(sequence.layout, rest, TimePart(sequence.layout, sequence.value))
    {
      id, rest := sequence.Allocate(readings);
    }

    /** `deallocate`: ids are never reclaimed. */
    method Deallocate(id: nat)
      ensures unchanged(this) && unchanged(sequence)
    {
    }
  }

  /** The test's loop: draw `n` ids from a standard allocator. On a steady clock they come out
      strictly increasing, so all of them are distinct. */
  method DrawIds(alloc: StandardIntIdAllocator, n: nat, readings: seq<nat>) returns (ids: seq<nat>)
    requires alloc.sequence.Valid()
    requires SteadyClock(alloc.sequence.layout, readings, TimePart(alloc.sequence.layout, alloc.sequence.value))
    modifies alloc.sequence`value
    ensures |ids| <= n
    ensures forall i :: 0 <= i < |ids| ==> ids[i] != 0
    ensures forall i, j :: 0 <= i < j < |ids| ==> ids[i] < ids[j]
  {
    ids := [];
    var rest := readings;
    while |ids| < n
      invariant alloc.sequence.Valid()
      invariant |ids| <= n
      invariant SteadyClock(alloc.sequence.layout, rest, TimePart(alloc.sequence.layout, alloc.sequence.value))
      invariant forall i :: 0 <= i < |ids| ==> ids[i] != 0
      invariant forall i, j :: 0 <= i < j < |ids| ==> ids[i] < ids[j]
      invariant ids != [] ==> ids[|ids| - 1] == alloc.sequence.value
      decreases n - |ids|
    {
      var id;
      id, rest := alloc.Allocate(rest);
      if id == 0 {
        return;
      }
      ids := ids + [id];
    }
  }

  /** `uint64_id_allocator`'s per-thread cache: a base id and how many of its 32 slots are
      used. */
  class Uint64IdAllocator {
    const sequence: SequenceAllocator
    var base: nat
    var innerSeq: nat

    /** `tls_cache_count`. */
    static const CacheCount: nat := 32

    constructor(sequence: SequenceAllocator)
      ensures this.sequence == sequence && base == 0 && innerSeq == 0
    {
      this.sequence := sequence;
      base := 0;
      innerSeq := 0;
    }

    /** `allocate`: refills the base from the shared counter while it is 0 or all 32 slots
        are used, then hands out `(base << 5) + inner_seq` and uses the slot. */
    method Allocate(readings: seq<nat>) returns (id: nat, rest: seq<nat>)
      requires sequence.Valid() && sequence.layout == Uint64Layout()
      modifies this`base, this`innerSeq, sequence`value
      ensures sequence.Valid()
      ensures id == 0 && (base == 0 || innerSeq > CacheCount) ==> rest == []
      ensures base != 0 && innerSeq <= CacheCount ==>
        innerSeq >= 1 && id == ((base * CacheCount) % SIZE_MODULUS + innerSeq - 1) % SIZE_MODULUS
      ensures old(base) != 0 && old(innerSeq) < CacheCount ==>
        base == old(base) && innerSeq == old(innerSeq) + 1 && sequence.value == old(sequence.value) && rest == readings
      ensures (old(base) == 0 || old(innerSeq) >= CacheCount) && base != 0 ==>
        innerSeq == 1 && base == sequence.value
    {
      rest := readings;
      ghost var refilled := false;
      while base == 0 || innerSeq >= CacheCount
        invariant sequence.Valid() && sequence.layout == Uint64Layout()
        invariant !refilled ==>
          base == old(base) && innerSeq == old(innerSeq) && sequence.value == old(sequence.value) && rest == readings
        invariant refilled ==> innerSeq == 0 && base == sequence.value
        invariant old(base) != 0 && old(innerSeq) < CacheCount ==> !refilled
        decreases |rest|, (if base == 0 || innerSeq >= CacheCount then 1 else 0)
      {
        var b;
        b, rest := sequence.Allocate(rest);
        base, innerSeq := b, 0;
        refilled := true;
        if b == 0 {
          id := 0;
          return;
        }
      }
      id := ((base * CacheCount) % SIZE_MODULUS + innerSeq) % SIZE_MODULUS;
      innerSeq := innerSeq + 1;
    }

    /** `deallocate`: ids are never reclaimed. */
    method Deallocate(id: nat)
      ensures unchanged(this) && unchanged(sequence)
    {
    }
  }
}
