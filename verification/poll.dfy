/** `poll_t` (future/poll.h) and `poller` (future/poller.h), the same container under its
    older and newer name: a storage that is pending or ready with a value. The queries are
    functions of the storage; construction, moves, reset and swap overwrite it in place. */
module FuturePoll {
  import opened Optional
  import opened FutureStorage

  class Poll<T> {
    /** The specialisation the value type selects, and its zero-filled value. */
    const kind: PollKind
    const zero: T
    var storage: PollStorage<T>

    predicate Valid()
      reads this`storage
    {
      KindOf(storage) == kind
    }

    /** `is_ready`. */
    predicate IsReady()
      reads this`storage
    {
      Ready(storage)
    }

    /** `is_pending`: the negation of `is_ready`. */
    predicate IsPending()
      reads this`storage
    {
      !Ready(storage)
    }

    /** `data`: the value of a ready poll, null while pending. */
    function Value(): (r: Option<T>)
      requires kind != VoidPoll && Valid()
      reads this`storage
      ensures r.Some? <==> IsReady()
      ensures IsPending() <==> r.None?
    {
      Data(storage)
    }

    /** The default constructor: pending. */
    constructor(kind: PollKind, zero: T)
      ensures Valid() && this.kind == kind && this.zero == zero
      ensures IsPending() && storage == DefaultStorage(kind, zero)
    {
      this.kind, this.zero := kind, zero;
      storage := DefaultStorage(kind, zero);
    }

    /** The constructor from a `std::unique_ptr`: ready exactly when the pointer is non-null,
        with its value unless `void`; what the caller's pointer keeps is
        `ConstructFromPointer(kind, input, zero).1`. */
    constructor FromPointer(kind: PollKind, zero: T, input: Option<T>)
      ensures Valid() && this.kind == kind && this.zero == zero
      ensures IsReady() <==> input.Some?
      ensures kind != VoidPoll ==> Value() == input
    {
      this.kind, this.zero := kind, zero;
      storage := ConstructFromPointer(kind, input, zero).0;
    }

    /** The constructor from a value of a small type: ready with that value. */
    constructor FromValue(zero: T, v: T)
      ensures Valid() && kind == SmallPoll && this.zero == zero
      ensures IsReady() && Value() == Some(v)
    {
      this.kind, this.zero := SmallPoll, zero;
      storage := ConstructFromValue(v);
    }

    /** The constructor of a `void` poll from a value that converts to `bool`: ready exactly
        when it converts to `true`. */
    constructor FromFlag(zero: T, flag: bool)
      ensures Valid() && kind == VoidPoll && this.zero == zero
      ensures IsReady() <==> flag
    {
      this.kind, this.zero := VoidPoll, zero;
      storage := ConstructFromFlag(flag);
    }

    /** The move constructor: takes over what `other` held and leaves it pending. */
    constructor FromPoll(other: Poll<T>)
      requires other.Valid()
      modifies other`storage
      ensures Valid() && kind == other.kind && zero == other.zero && other.Valid()
      ensures IsReady() == old(other.IsReady()) && other.IsPending()
      ensures kind != VoidPoll ==> Value() == old(other.Value())
    {
      kind, zero := other.kind, other.zero;
      var r := MoveStorage(other.storage, other.zero);
      storage := r.0;
      new;
      other.storage := r.1;
    }

    /** The move assignment (both names): takes over what `other` held and leaves it pending. */
    method MoveAssign(other: Poll<T>)
      requires Valid() && other.Valid() && other.kind == kind && other.zero == zero && other != this
      modifies this`storage, other`storage
      ensures Valid() && other.Valid()
      ensures IsReady() == old(other.IsReady()) && other.IsPending()
      ensures kind != VoidPoll ==> Value() == old(other.Value())
    {
      var r := MoveStorage(other.storage, zero);
      storage, other.storage := r.0, r.1;
    }

    /** `poller::operator=(std::unique_ptr<U>&&)`: the newer container can be assigned a
        pointer; the result is what the caller's pointer keeps. */
    method AssignPointer(input: Option<T>) returns (rest: Option<T>)
      requires Valid()
      modifies this`storage
      ensures Valid() && (IsReady() <==> input.Some?)
      ensures kind != VoidPoll ==> Value() == input && rest == None
      ensures kind == VoidPoll ==> rest == input
    {
      var r := ConstructFromPointer(kind, input, zero);
      storage, rest := r.0, r.1;
    }

    /** `poller::operator=(U&&)` with a value of a small type: ready with that value. */
    method AssignValue(v: T)
      requires Valid() && kind == SmallPoll
      modifies this`storage
      ensures Valid() && IsReady() && Value() == Some(v)
    {
      storage := ConstructFromValue(v);
    }

    /** `reset`: pending again. */
    method Reset()
      requires Valid()
      modifies this`storage
      ensures Valid() && IsPending()
      ensures storage == ResetStorage(old(storage))
    {
      storage := ResetStorage(storage);
    }

    /** `swap`: the two polls exchange their storages. */
    method Swap(other: Poll<T>)
      requires Valid() && other.Valid() && other.kind == kind
      modifies this`storage, other`storage
      ensures Valid() && other.Valid()
      ensures storage == old(other.storage) && other.storage == old(storage)
      ensures IsReady() == old(other.IsReady()) && other.IsReady() == old(IsReady())
    {
      var p := SwapStorage(storage, other.storage);
      storage := p.0;
      other.storage := p.1;
    }
  }

  /** Moving a ready poll into another and back restores the value and leaves the middle one
      pending. */
  method MoveThereAndBack<T>(a: Poll<T>, b: Poll<T>)
    requires a.Valid() && b.Valid() && a != b && a.kind == b.kind && a.zero == b.zero
    requires a.kind != VoidPoll
    modifies a, b
    ensures a.Valid() && b.Valid() && a.Value() == old(a.Value()) && b.IsPending()
  {
    b.MoveAssign(a);
    a.MoveAssign(b);
  }
}
