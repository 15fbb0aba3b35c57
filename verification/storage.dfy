/** `storage` (future/storage.h): the storage policies behind `poll_t`, `poller` and `result_t`.

    A storage is a value: the static `construct_*`, `move_storage`, `reset` and `swap` helpers
    of the source take it by reference and overwrite it, which is modelled by functions that
    return the new value of every reference they write. The results themselves, whose
    members update `mode_` and the two storages in place, are classes. */
module FutureStorage {
  import opened Optional

  /** The three `poll_storage_base_t` specialisations: `void` keeps only whether the poll is
      ready, a small trivially copyable type is kept inline next to a pointer that is either
      null or points at it, anything else is owned through a `std::unique_ptr`. */
  datatype PollKind = VoidPoll | SmallPoll | OwnedPoll

  /** `poll_storage_select_ptr_t`: the inline form for a trivially copyable type strictly
      smaller than four machine words. */
  function PollStorageKind(isVoid: bool, trivial: bool, size: nat, wordSize: nat): PollKind
  {
    if isVoid then VoidPoll
    else if trivial && size < 4 * wordSize then SmallPoll
    else OwnedPoll
  }

  /** The two `compact_storage_t` specialisations used by `result_t`: the value itself, or a
      `std::shared_ptr` to it. */
  datatype CompactKind = InlineValue | SharedValue

  /** `compact_storage_select_t`: the inline form for a trivially copyable type of at most four
      machine words. */
  function CompactStorageKind(trivial: bool, size: nat, wordSize: nat): CompactKind
  {
    if trivial && size <= 4 * wordSize then InlineValue else SharedValue
  }

  /** The two selections use different bounds: every type a poll keeps inline a result keeps
      inline too, and a trivially copyable type of exactly four words is kept inline by a result
      but owned through a pointer by a poll. */
  lemma SelectionBounds(trivial: bool, size: nat, wordSize: nat)
    ensures PollStorageKind(false, trivial, size, wordSize) == SmallPoll ==>
      CompactStorageKind(trivial, size, wordSize) == InlineValue
    ensures trivial && size == 4 * wordSize ==>
      PollStorageKind(false, trivial, size, wordSize) == OwnedPoll
      && CompactStorageKind(trivial, size, wordSize) == InlineValue
  {
  }

  // ---------------------------------------------------------------------------------------
  // Poll storage
  // ---------------------------------------------------------------------------------------

  /** `poll_storage_base_t<T, TPTR>::storage_type`: for `void` a pointer that is null or points
      at itself, for a small type the pair of the value and a pointer that is null or points at
      the value, otherwise a `std::unique_ptr<T>`. */
  datatype PollStorage<T> =
    | VoidSlot(filled: bool)
    | SmallSlot(value: T, filled: bool)
    | OwnedSlot(ptr: Option<T>)

  function KindOf<T>(s: PollStorage<T>): PollKind
  {
    match s
    case VoidSlot(_) => VoidPoll
    case SmallSlot(_, _) => SmallPoll
    case OwnedSlot(_) => OwnedPoll
  }

  /** `!!unwrap(storage)`: the poll is ready. */
  predicate Ready<T>(s: PollStorage<T>)
  {
    match s
    case VoidSlot(filled) => filled
    case SmallSlot(_, filled) => filled
    case OwnedSlot(ptr) => ptr.Some?
  }

  /** `unwrap(storage).get()` for a non-void value: the value when the poll is ready. */
  function Data<T>(s: PollStorage<T>): (r: Option<T>)
    requires !s.VoidSlot?
    ensures r.Some? <==> Ready(s)
  {
    match s
    case SmallSlot(value, filled) => if filled then Some(value) else None
    case OwnedSlot(ptr) => ptr
  }

  /** `construct_default_storage`: a pending poll; the inline value is zero-filled. */
  function DefaultStorage<T>(k: PollKind, zero: T): (s: PollStorage<T>)
    ensures KindOf(s) == k && !Ready(s)
    ensures s.SmallSlot? ==> s.value == zero
  {
    match k
    case VoidPoll => VoidSlot(false)
    case SmallPoll => SmallSlot(zero, false)
    case OwnedPoll => OwnedSlot(None)
  }

  /** `construct_storage(out, std::unique_ptr<U>&& in)`: the new storage `r.0` and what is left
      in `in`, `r.1`. A `void` poll only tests the pointer and leaves it to the caller; a small
      poll copies the value out and empties the pointer; an owning poll takes the pointer
      over. Whatever `out` held before is overwritten. */
  function ConstructFromPointer<T>(k: PollKind, input: Option<T>, zero: T): (r: (PollStorage<T>, Option<T>))
    ensures KindOf(r.0) == k
    ensures Ready(r.0) <==> input.Some?
    ensures k != VoidPoll ==> Data(r.0) == input && r.1 == None
    ensures k == VoidPoll ==> r.1 == input
  {
    match k
    case VoidPoll => (VoidSlot(input.Some?), input)
    case SmallPoll =>
      if input.Some? then (SmallSlot(input.value, true), None) else (SmallSlot(zero, false), input)
    case OwnedPoll => (OwnedSlot(input), None)
  }

  /** `construct_storage(out, U&& in)` for a small type: the value is copied in and the poll is
      ready. */
  function ConstructFromValue<T>(v: T): (s: PollStorage<T>)
    ensures KindOf(s) == SmallPoll && Data(s) == Some(v)
  {
    SmallSlot(v, true)
  }

  /** `construct_storage(out, U&& in)` for `void`: ready exactly when the argument converts to
      `true`. */
  function ConstructFromFlag<T>(flag: bool): (s: PollStorage<T>)
    ensures KindOf(s) == VoidPoll && (Ready(s) <==> flag)
  {
    if flag then VoidSlot(true) else VoidSlot(false)
  }

  /** `move_storage(out, in)`: the new `out` (`r.0`) holds what `in` held and the new `in`
      (`r.1`) is pending. A small poll leaves the moved value's bytes behind in `in`, and one
      that was pending zero-fills `out`. */
  function MoveStorage<T>(input: PollStorage<T>, zero: T): (r: (PollStorage<T>, PollStorage<T>))
    ensures KindOf(r.0) == KindOf(input) && KindOf(r.1) == KindOf(input)
    ensures Ready(r.0) == Ready(input) && !Ready(r.1)
    ensures !input.VoidSlot? ==> Data(r.0) == Data(input)
    ensures input.SmallSlot? ==> r.1.value == input.value
  {
    match input
    case VoidSlot(filled) => (if filled then VoidSlot(true) else VoidSlot(false), VoidSlot(false))
    case SmallSlot(value, filled) =>
      if filled then (SmallSlot(value, true), SmallSlot(value, false))
      else (SmallSlot(zero, false), input)
    case OwnedSlot(ptr) => (OwnedSlot(ptr), OwnedSlot(None))
  }

  /** `reset`: the poll is pending again; a small poll keeps the bytes of its value. */
  function ResetStorage<T>(s: PollStorage<T>): (r: PollStorage<T>)
    ensures KindOf(r) == KindOf(s) && !Ready(r)
    ensures s.SmallSlot? ==> r.value == s.value
  {
    match s
    case VoidSlot(_) => VoidSlot(false)
    case SmallSlot(value, _) => SmallSlot(value, false)
    case OwnedSlot(_) => OwnedSlot(None)
  }

  /** `swap(l, r)`: whatever the specialisation, the two storages are exchanged completely. */
  function SwapStorage<T>(l: PollStorage<T>, r: PollStorage<T>): (p: (PollStorage<T>, PollStorage<T>))
    requires KindOf(l) == KindOf(r)
    ensures p == (r, l)
  {
    match l
    case VoidSlot(lset) =>
      if lset == r.filled then (l, r)
      else if lset then (VoidSlot(false), VoidSlot(true))
      else (VoidSlot(true), VoidSlot(false))
    case SmallSlot(lv, lset) =>
      if lset == r.filled then (SmallSlot(r.value, lset), SmallSlot(lv, r.filled))
      else if lset then (SmallSlot(r.value, false), SmallSlot(lv, true))
      else (SmallSlot(r.value, true), SmallSlot(lv, false))
    case OwnedSlot(_) => (r, l)
  }

  // ---------------------------------------------------------------------------------------
  // Compact storage and results
  // ---------------------------------------------------------------------------------------

  /** `compact_storage_t<T, TPTR>::storage_type`: the value itself, or a shared pointer that may
      be null. Values are compared by content: no member of the result mutates a value
      through one of several sharing pointers. */
  datatype CompactStorage<T> = Inline(value: T) | Shared(ptr: Option<T>)

  function CompactKindOf<T>(s: CompactStorage<T>): CompactKind
  {
    if s.Inline? then InlineValue else SharedValue
  }

  /** `unwrap`: the address of an inline value is never null; a shared pointer may be. */
  function Unwrap<T>(s: CompactStorage<T>): (r: Option<T>)
    ensures s.Inline? ==> r == Some(s.value)
    ensures s.Shared? ==> r == s.ptr
  {
    match s
    case Inline(value) => Some(value)
    case Shared(ptr) => ptr
  }

  /** `construct_default_storage`: a zero-filled value, or a null pointer. */
  function CompactDefault<T>(k: CompactKind, zero: T): (s: CompactStorage<T>)
    ensures CompactKindOf(s) == k
    ensures Unwrap(s) == if k == InlineValue then Some(zero) else None
  {
    match k
    case InlineValue => Inline(zero)
    case SharedValue => Shared(None)
  }

  /** `destroy_storage`: nothing for an inline value, the pointer is released otherwise. */
  function CompactDestroy<T>(s: CompactStorage<T>): (r: CompactStorage<T>)
    ensures CompactKindOf(r) == CompactKindOf(s)
    ensures s.Inline? ==> r == s
    ensures s.Shared? ==> Unwrap(r) == None
  {
    if s.Inline? then s else Shared(None)
  }

  /** `construct_storage(out, std::unique_ptr<U>&& in)`: an inline value copies the pointee
      (zero-fills on null) and leaves `in` alone; a shared pointer takes `in` over. */
  function CompactFromPointer<T>(k: CompactKind, input: Option<T>, zero: T): (r: (CompactStorage<T>, Option<T>))
    ensures CompactKindOf(r.0) == k
    ensures input.Some? ==> Unwrap(r.0) == input
    ensures input.None? ==> Unwrap(r.0) == Unwrap(CompactDefault(k, zero))
    ensures r.1 == if k == SharedValue then None else input
  {
    match k
    case InlineValue => (if input.Some? then Inline(input.value) else Inline(zero), input)
    case SharedValue => (if input.Some? then Shared(input) else Shared(None), None)
  }

  /** `construct_storage(out, args...)` from a value: copied inline, or into a new shared
      object. */
  function CompactFromValue<T>(k: CompactKind, v: T): (s: CompactStorage<T>)
    ensures CompactKindOf(s) == k && Unwrap(s) == Some(v)
  {
    match k
    case InlineValue => Inline(v)
    case SharedValue => Shared(Some(v))
  }

  /** `move_storage(out, in)`: `out` (`r.0`) takes what `in` held; `in` (`r.1`) is zero-filled
      or null. */
  function CompactMove<T>(input: CompactStorage<T>, zero: T): (r: (CompactStorage<T>, CompactStorage<T>))
    ensures Unwrap(r.0) == Unwrap(input) && CompactKindOf(r.0) == CompactKindOf(input)
    ensures r.1 == CompactDefault(CompactKindOf(input), zero)
  {
    match input
    case Inline(value) => (Inline(value), Inline(zero))
    case Shared(ptr) => (Shared(ptr), Shared(None))
  }

  /** `result_base_t::mode_t` of the general result. */
  datatype ResultMode = ResultSuccess | ResultError | ResultNone

  /** `result_base_t<TOK, TERR, false>`: a success and an error storage, each inline or shared,
      and the mode saying which one is live. */
  class Result<S, E> {
    const okKind: CompactKind
    const errKind: CompactKind
    const okZero: S
    const errZero: E
    var successData: CompactStorage<S>
    var errorData: CompactStorage<E>
    var mode: ResultMode

    predicate Valid()
      reads this`successData, this`errorData
    {
      CompactKindOf(successData) == okKind && CompactKindOf(errorData) == errKind
    }

    predicate IsSuccess()
      reads this`mode
    {
      mode == ResultSuccess
    }

    predicate IsError()
      reads this`mode
    {
      mode == ResultError
    }

    /** `get_success`: the success value's address in success mode, null otherwise. */
    function GetSuccess(): (r: Option<S>)
      reads this`mode, this`successData
      ensures r.Some? ==> IsSuccess()
    {
      if mode == ResultSuccess then Unwrap(successData) else None
    }

    /** `get_error`. */
    function GetError(): (r: Option<E>)
      reads this`mode, this`errorData
      ensures r.Some? ==> IsError()
    {
      if mode == ResultError then Unwrap(errorData) else None
    }

    /** The default constructor: no mode, both storages default. */
    constructor(okKind: CompactKind, errKind: CompactKind, okZero: S, errZero: E)
      ensures Valid() && mode == ResultNone
      ensures this.okKind == okKind && this.errKind == errKind && this.okZero == okZero && this.errZero == errZero
      ensures successData == CompactDefault(okKind, okZero) && errorData == CompactDefault(errKind, errZero)
      ensures GetSuccess() == None && GetError() == None
    {
      this.okKind, this.errKind, this.okZero, this.errZero := okKind, errKind, okZero, errZero;
      successData := CompactDefault(okKind, okZero);
      errorData := CompactDefault(errKind, errZero);
      mode := ResultNone;
    }

    /** The move constructor: default storages, then a swap with `other`, which is left with
        no mode. */
    constructor MoveFrom(other: Result<S, E>)
      requires other.Valid()
      modifies other
      ensures Valid() && okKind == other.okKind && errKind == other.errKind
      ensures mode == old(other.mode) && successData == old(other.successData) && errorData == old(other.errorData)
      ensures GetSuccess() == old(other.GetSuccess()) && GetError() == old(other.GetError())
      ensures other.mode == ResultNone && other.Valid()
      ensures other.successData == CompactDefault(other.okKind, other.okZero)
      ensures other.errorData == CompactDefault(other.errKind, other.errZero)
    {
      okKind, errKind, okZero, errZero := other.okKind, other.errKind, other.okZero, other.errZero;
      successData := CompactDefault(other.okKind, other.okZero);
      errorData := CompactDefault(other.errKind, other.errZero);
      mode := ResultNone;
      new;
      Swap(other);
    }

    /** `reset`: the live storage is destroyed and the mode is none. */
    method Reset()
      modifies this`successData, this`errorData, this`mode
      ensures mode == ResultNone && GetSuccess() == None && GetError() == None
      ensures successData == if old(mode) == ResultSuccess then CompactDestroy(old(successData)) else old(successData)
      ensures errorData == if old(mode) == ResultError then CompactDestroy(old(errorData)) else old(errorData)
      ensures old(Valid()) ==> Valid()
    {
      if ResultSuccess == mode {
        successData := CompactDestroy(successData);
      } else if ResultError == mode {
        errorData := CompactDestroy(errorData);
      }
      mode := ResultNone;
    }

    /** `construct_success(v)` and `make_success_base(v)` (the two coincide for every storage
        the selection can produce): reset, then the value is stored and the mode is success. */
    method ConstructSuccess(v: S)
      requires Valid()
      modifies this`successData, this`errorData, this`mode
      ensures Valid() && IsSuccess() && GetSuccess() == Some(v) && GetError() == None
      ensures errorData == if old(mode) == ResultError then CompactDestroy(old(errorData)) else old(errorData)
    {
      Reset();
      successData := CompactFromValue(okKind, v);
      mode := ResultSuccess;
    }

    /** `construct_error(v)` and `make_error_base(v)`. */
    method ConstructError(v: E)
      requires Valid()
      modifies this`successData, this`errorData, this`mode
      ensures Valid() && IsError() && GetError() == Some(v) && GetSuccess() == None
      ensures successData == if old(mode) == ResultSuccess then CompactDestroy(old(successData)) else old(successData)
    {
      Reset();
      errorData := CompactFromValue(errKind, v);
      mode := ResultError;
    }

    /** `construct_success(std::unique_ptr<U>&&)`: success mode even for a null pointer, which
        reads back as the zero value when stored inline and as null when shared. Returns what is
        left in the caller's pointer. */
    method ConstructSuccessFromPointer(input: Option<S>) returns (rest: Option<S>)
      requires Valid()
      modifies this`successData, this`errorData, this`mode
      ensures Valid() && IsSuccess() && GetError() == None
      ensures GetSuccess() == if input.Some? then input else Unwrap(CompactDefault(okKind, okZero))
      ensures rest == if okKind == SharedValue then None else input
    {
      Reset();
      var r := CompactFromPointer(okKind, input, okZero);
      successData, rest := r.0, r.1;
      mode := ResultSuccess;
    }

    /** `construct_error(std::unique_ptr<U>&&)`. */
    method ConstructErrorFromPointer(input: Option<E>) returns (rest: Option<E>)
      requires Valid()
      modifies this`successData, this`errorData, this`mode
      ensures Valid() && IsError() && GetSuccess() == None
      ensures GetError() == if input.Some? then input else Unwrap(CompactDefault(errKind, errZero))
      ensures rest == if errKind == SharedValue then None else input
    {
      Reset();
      var r := CompactFromPointer(errKind, input, errZero);
      errorData, rest := r.0, r.1;
      mode := ResultError;
    }

    /** `swap`: both storages and the mode are exchanged. */
    method Swap(other: Result<S, E>)
      requires okKind == other.okKind && errKind == other.errKind
      modifies this`successData, this`errorData, this`mode
      modifies other`successData, other`errorData, other`mode
      ensures successData == old(other.successData) && other.successData == old(successData)
      ensures errorData == old(other.errorData) && other.errorData == old(errorData)
      ensures mode == old(other.mode) && other.mode == old(mode)
      ensures old(Valid()) && old(other.Valid()) ==> Valid() && other.Valid()
    {
      var s := successData;
      successData := other.successData;
      other.successData := s;
      var e := errorData;
      errorData := other.errorData;
      other.errorData := e;
      var m := mode;
      mode := other.mode;
      other.mode := m;
    }

    /** The move assignment: a swap, then `other` is reset, which destroys what this result
        held before. */
    method MoveAssign(other: Result<S, E>)
      requires Valid() && other.Valid() && other != this
      requires okKind == other.okKind && errKind == other.errKind
      modifies this`successData, this`errorData, this`mode
      modifies other`successData, other`errorData, other`mode
      ensures Valid() && other.Valid()
      ensures mode == old(other.mode) && GetSuccess() == old(other.GetSuccess()) && GetError() == old(other.GetError())
      ensures other.mode == ResultNone && other.GetSuccess() == None && other.GetError() == None
      ensures other.successData == if old(mode) == ResultSuccess then CompactDestroy(old(successData)) else old(successData)
      ensures other.errorData == if old(mode) == ResultError then CompactDestroy(old(errorData)) else old(errorData)
    {
      Swap(other);
      other.Reset();
    }
  }

  /** `result_t::create_success(v)` and `result_t::make_success(v)`: a new result in success
      mode holding `v` (the pointer the second one may wrap it in is never null). */
  method CreateSuccess<S, E>(okKind: CompactKind, errKind: CompactKind, okZero: S, errZero: E, v: S)
    returns (r: Result<S, E>)
    ensures fresh(r) && r.Valid() && r.GetSuccess() == Some(v) && r.GetError() == None
  {
    r := new Result(okKind, errKind, okZero, errZero);
    r.ConstructSuccess(v);
  }

  /** `result_t::create_error(v)` and `result_t::make_error(v)`. */
  method CreateError<S, E>(okKind: CompactKind, errKind: CompactKind, okZero: S, errZero: E, v: E)
    returns (r: Result<S, E>)
    ensures fresh(r) && r.Valid() && r.GetError() == Some(v) && r.GetSuccess() == None
  {
    r := new Result(okKind, errKind, okZero, errZero);
    r.ConstructError(v);
  }

  // ---------------------------------------------------------------------------------------
  // The all-trivial result
  // ---------------------------------------------------------------------------------------

  /** `result_base_t<TOK, TERR, true>::mode_t`: there is no empty mode. */
  datatype TrivialMode = TrivialSuccess | TrivialError

  function Max(a: nat, b: nat): nat
  {
    if a < b then b else a
  }

  /** `result_base_t<TOK, TERR, true>`: both types are trivially copyable and live in one
      union, modelled as its bytes; the success value is the first `okSize` of them and the
      error value the first `errSize`. */
  class TrivialResult {
    const okSize: nat
    const errSize: nat
    var data: seq<bv8>
    var mode: TrivialMode

    predicate Valid()
      reads this`data
    {
      |data| == Max(okSize, errSize)
    }

    /** `get_success`: the bytes of the success member in success mode. */
    function GetSuccess(): (r: Option<seq<bv8>>)
      requires Valid()
      reads this`data, this`mode
      ensures r.Some? <==> mode == TrivialSuccess
      ensures r.Some? ==> |r.value| == okSize
    {
      if mode == TrivialSuccess then Some(data[..okSize]) else None
    }

    /** `get_error`. */
    function GetError(): (r: Option<seq<bv8>>)
      requires Valid()
      reads this`data, this`mode
      ensures r.Some? <==> mode == TrivialError
      ensures r.Some? ==> |r.value| == errSize
    {
      if mode == TrivialError then Some(data[..errSize]) else None
    }

    /** `create_success(v)` for the all-trivial result: the union's other bytes are whatever
        the memory held (`garbage`). */
    constructor CreateSuccess(okSize: nat, errSize: nat, v: seq<bv8>, garbage: seq<bv8>)
      requires |v| == okSize && |garbage| == Max(okSize, errSize)
      ensures this.okSize == okSize && this.errSize == errSize && Valid()
      ensures GetSuccess() == Some(v) && data[okSize..] == garbage[okSize..]
    {
      this.okSize, this.errSize := okSize, errSize;
      data := v + garbage[okSize..];
      mode := TrivialSuccess;
    }

    /** `create_error(v)` for the all-trivial result. */
    constructor CreateError(okSize: nat, errSize: nat, v: seq<bv8>, garbage: seq<bv8>)
      requires |v| == errSize && |garbage| == Max(okSize, errSize)
      ensures this.okSize == okSize && this.errSize == errSize && Valid()
      ensures GetError() == Some(v) && data[errSize..] == garbage[errSize..]
    {
      this.okSize, this.errSize := okSize, errSize;
      data := v + garbage[errSize..];
      mode := TrivialError;
    }

    /** `swap` as written: only the member of this result's own mode is exchanged (its first
        `okSize` or `errSize` bytes), then the modes. */
    method SwapAsWritten(other: TrivialResult)
      requires Valid() && other.Valid() && other.okSize == okSize && other.errSize == errSize
      modifies this`data, this`mode, other`data, other`mode
      ensures Valid() && other.Valid()
      ensures mode == old(other.mode) && other.mode == old(mode)
      ensures other != this ==>
        var n := if old(mode) == TrivialSuccess then okSize else errSize;
        data == old(other.data[..n] + data[n..]) && other.data == old(data[..n] + other.data[n..])
    {
      var n := if mode == TrivialSuccess then okSize else errSize;
      var mine := data[..n];
      data := other.data[..n] + data[n..];
      other.data := mine + other.data[n..];
      var m := mode;
      mode := other.mode;
      other.mode := m;
    }

    /** The swap the union needs: every byte of it, then the modes. */
    method Swap(other: TrivialResult)
      requires Valid() && other.Valid() && other.okSize == okSize && other.errSize == errSize
      modifies this`data, this`mode, other`data, other`mode
      ensures Valid() && other.Valid()
      ensures data == old(other.data) && other.data == old(data)
      ensures mode == old(other.mode) && other.mode == old(mode)
      ensures GetSuccess() == old(other.GetSuccess()) && GetError() == old(other.GetError())
      ensures other.GetSuccess() == old(GetSuccess()) && other.GetError() == old(GetError())
    {
      var mine := data;
      data := other.data;
      other.data := mine;
      var m := mode;
      mode := other.mode;
      other.mode := m;
    }
  }

  /** Swapping as written exchanges the values whenever both results are in the same mode. */
  method SwapAsWrittenSameMode(l: TrivialResult, r: TrivialResult)
    requires l.Valid() && r.Valid() && l != r && l.okSize == r.okSize && l.errSize == r.errSize
    requires l.mode == r.mode
    modifies l, r
    ensures l.Valid() && r.Valid()
    ensures l.GetSuccess() == old(r.GetSuccess()) && l.GetError() == old(r.GetError())
    ensures r.GetSuccess() == old(l.GetSuccess()) && r.GetError() == old(l.GetError())
  {
    l.SwapAsWritten(r);
  }

  /** A 4-byte success swapped as written with an 8-byte error: the left result turns into an
      error whose upper four bytes are the left union's leftovers, not the error's own. */
  method SwapAsWrittenLosesWideError() returns (before: seq<bv8>, after: Option<seq<bv8>>)
    ensures after.Some? && after != Some(before)
  {
    var l := new TrivialResult.CreateSuccess(4, 8, [1, 0, 0, 0], [0, 0, 0, 0, 0, 0, 0, 0]);
    var r := new TrivialResult.CreateError(4, 8, [2, 0, 0, 0, 3, 0, 0, 0], [0, 0, 0, 0, 0, 0, 0, 0]);
    before := r.data[..8];
    assert before == [2, 0, 0, 0, 3, 0, 0, 0];
    l.SwapAsWritten(r);
    after := l.GetError();
    assert after.value[4] == 0;
  }

  /** The same pair under the whole-union swap: the left result gets the error intact. */
  method SwapKeepsWideError() returns (before: seq<bv8>, after: Option<seq<bv8>>)
    ensures after == Some(before)
  {
    var l := new TrivialResult.CreateSuccess(4, 8, [1, 0, 0, 0], [0, 0, 0, 0, 0, 0, 0, 0]);
    var r := new TrivialResult.CreateError(4, 8, [2, 0, 0, 0, 3, 0, 0, 0], [0, 0, 0, 0, 0, 0, 0, 0]);
    before := r.GetError().value;
    l.Swap(r);
    after := l.GetError();
  }
}
