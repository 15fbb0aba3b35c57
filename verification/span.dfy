/** The `gsl::span` back-port (utils/gsl/span.h): a view of `size` consecutive elements
    starting at the address `data`. A span is a value: it is a pointer and a length, copied
    freely. Memory is a map from addresses to elements; the null pointer is address 0.

    The fixed-extent span has its length in the type (`EXTENT`); the source terminates the
    program when a run-time count disagrees with it, which is `None` here. The dynamic span
    (`EXTENT == dynamic_extent`) stores its length. */
module Gsl {
  import opened Optional
  import SizeArith

  /** `dynamic_extent`: `size_t(-1)`. */
  const DynamicExtent: nat := SizeArith.SIZE_MAX

  /** The null pointer. */
  const Null: nat := 0

  /** `span<T, dynamic_extent>`: `extent_` and `data_`. */
  datatype Span = Span(data: nat, size: nat)

  /** `span<T, EXTENT>` for a fixed `EXTENT`: only `data_` is stored. */
  datatype FixedSpan = FixedSpan(extent: nat, data: nat)

  // ---------------------------------------------------------------- dynamic extent

  /** The default constructor: null and empty. */
  function Default(): (r: Span)
    ensures r.data == Null && r.size == 0 && Empty(r)
  {
    Span(Null, 0)
  }

  /** `span(ptr, count)` and `make_span(ptr, count)`: exactly `count` elements from `ptr`. */
  function FromCount(ptr: nat, count: nat): (r: Span)
    ensures Begin(r) == ptr && Size(r) == count && End(r) == ptr + count
  {
    Span(ptr, count)
  }

  /** `span(first, last)` and `make_span(first, last)`: the elements from `first` up to but not
      including `last`, which must not lie before `first` (the source asserts it). */
  function FromRange(first: nat, last: nat): (r: Span)
    requires first <= last
    ensures Begin(r) == first && End(r) == last && Size(r) == last - first
  {
    Span(first, last - first)
  }

  /** The constructors from a built-in array or a `std::array` of `n` elements, and from a
      container's `data()` and `size()`: all of it. */
  function FromArray(address: nat, n: nat): (r: Span)
    ensures Begin(r) == address && Size(r) == n
  {
    Span(address, n)
  }

  /** The converting constructor from a span of any extent: the same elements. */
  function FromFixed(other: FixedSpan): (r: Span)
    ensures Begin(r) == other.data && Size(r) == FixedSize(other)
    ensures End(r) == FixedEnd(other) && (Empty(r) <==> FixedEmpty(other))
  {
    Span(other.data, other.extent)
  }

  /** `size`. */
  function Size(s: Span): nat
  {
    s.size
  }

  /** `data` and `begin`. */
  function Begin(s: Span): nat
  {
    s.data
  }

  /** `empty`: no elements. */
  predicate Empty(s: Span)
  {
    s.size == 0
  }

  /** `end`: one past the last element. */
  function End(s: Span): (r: nat)
    ensures r - Begin(s) == Size(s)
    ensures Empty(s) <==> r == Begin(s)
  {
    s.data + s.size
  }

  /** `operator[]`: the element `index` places after `data`; the source asserts that `index`
      is below the size, and the memory there must exist. */
  function Index<T>(mem: map<nat, T>, s: Span, index: nat): (r: T)
    requires index < Size(s) && Begin(s) + index in mem
    ensures r == mem[Begin(s) + index]
  {
    mem[s.data + index]
  }

  /** Every address a span covers holds an element. */
  predicate Mapped<T>(mem: map<nat, T>, s: Span)
  {
    forall a :: s.data <= a < s.data + s.size ==> a in mem
  }

  /** The elements a span views, in order: what iterating from `begin` to `end` reads. */
  function Elements<T>(mem: map<nat, T>, s: Span): (r: seq<T>)
    requires Mapped(mem, s)
    ensures |r| == Size(s)
    ensures forall i :: 0 <= i < |r| ==> r[i] == Index(mem, s, i)
  {
    seq(s.size, i requires 0 <= i < s.size => mem[s.data + i])
  }

  /** Rebuilding a span from its own `begin` and `end` gives the same span. */
  lemma RangeRoundTrip(s: Span)
    ensures FromRange(Begin(s), End(s)) == s
  {
  }

  /** A span rebuilt from a pointer range views the same elements as one built from the
      pointer and the count. */
  lemma RangeAndCountAgree<T>(mem: map<nat, T>, first: nat, last: nat)
    requires first <= last
    requires forall a :: first <= a < last ==> a in mem
    ensures FromRange(first, last) == FromCount(first, last - first)
    ensures Elements(mem, FromRange(first, last)) == Elements(mem, FromCount(first, last - first))
  {
  }

  // ---------------------------------------------------------------- fixed extent

  /** The default constructor exists only for `EXTENT == 0`: null, empty. */
  function FixedDefault(): (r: FixedSpan)
    ensures FixedEmpty(r) && r.data == Null
  {
    FixedSpan(0, Null)
  }

  /** `span(ptr, count)` of a fixed extent: terminates unless `count` is the extent. */
  function FixedFromCount(extent: nat, ptr: nat, count: nat): (r: Option<FixedSpan>)
    ensures r.Some? <==> count == extent
    ensures r.Some? ==> r.value.data == ptr && FixedSize(r.value) == count
  {
    if count != extent then None else Some(FixedSpan(extent, ptr))
  }

  /** `span(first, last)` of a fixed extent: terminates unless `last - first`, which may be
      negative, is the extent. */
  function FixedFromRange(extent: nat, first: nat, last: nat): (r: Option<FixedSpan>)
    ensures r.Some? <==> first <= last && last - first == extent
    ensures r.Some? ==> r.value.data == first && FixedEnd(r.value) == last
  {
    if last - first != extent then None else Some(FixedSpan(extent, first))
  }

  /** The array constructors of a fixed extent, enabled only when the array length is the
      extent. */
  function FixedFromArray(extent: nat, address: nat, n: nat): (r: FixedSpan)
    requires n == extent
    ensures r.data == address && FixedSize(r) == n
  {
    FixedSpan(extent, address)
  }

  /** The container constructor of a fixed extent: terminates unless the container's size is
      the extent. */
  function FixedFromContainer(extent: nat, data: nat, size: nat): (r: Option<FixedSpan>)
    ensures r.Some? <==> size == extent
    ensures r.Some? ==> r.value.data == data && FixedSize(r.value) == size
  {
    if size != extent then None else Some(FixedSpan(extent, data))
  }

  /** `size` of a fixed span: always the extent. */
  function FixedSize(s: FixedSpan): nat
  {
    s.extent
  }

  /** `empty` of a fixed span: the extent is zero, whatever the pointer. */
  predicate FixedEmpty(s: FixedSpan)
  {
    s.extent == 0
  }

  /** `end` of a fixed span: `data + EXTENT`. */
  function FixedEnd(s: FixedSpan): (r: nat)
    ensures r - s.data == FixedSize(s)
  {
    s.data + s.extent
  }

  /** `operator[]` of a fixed span, asserting `index < EXTENT`. */
  function FixedIndex<T>(mem: map<nat, T>, s: FixedSpan, index: nat): (r: T)
    requires index < FixedSize(s) && s.data + index in mem
    ensures r == Index(mem, FromFixed(s), index)
  {
    mem[s.data + index]
  }

  /** Every fixed-extent constructor that succeeds yields a span of exactly the extent, and
      the count and range forms agree with each other. */
  lemma FixedConstructorsAgree(extent: nat, first: nat, last: nat)
    ensures FixedFromRange(extent, first, last).Some? <==> first <= last && FixedFromCount(extent, first, last - first).Some?
    ensures first <= last ==> FixedFromRange(extent, first, last) == FixedFromCount(extent, first, last - first)
  {
  }
}
