/** The intrusive smart pointer (utils/intrusive_ptr.h and its older twin
    utils/std/intrusive_ptr.h, which behave identically): a `Ptr` holds one raw pointer `px`
    to an object that carries its own reference counter, and the free functions generated by
    `LIBCOPP_UTIL_INTRUSIVE_PTR_REF_FN_DEFI` increment and decrement that counter, deleting the
    object when the count reaches zero.

    Every assignment follows the source's copy-and-swap shape: build a temporary `Ptr`, swap it
    with this one, destroy the temporary. The pointee's counter is the field `useCount`
    (`use_count()`), and `deleted` records that the last release deleted it. Raw pointers
    compare by address; `address` is that address, with null at address 0. */
module IntrusivePtr {
  /** An object that embeds `intrusive_ref_counter_` (stored as 0 by the member initialiser). */
  class RefCounted {
    var useCount: nat
    var deleted: bool
    const address: nat

    constructor(address: nat)
      requires address > 0
      ensures useCount == 0 && !deleted && this.address == address
    {
      useCount := 0;
      deleted := false;
      this.address := address;
    }
  }

  /** The address a raw pointer compares by: 0 for null. */
  function Address(p: RefCounted?): nat
    reads if p != null then {p} else {}
  {
    if p == null then 0 else p.address
  }

  /** `intrusive_ptr_add_ref`: one more reference to a non-null pointee; null is ignored. */
  method AddRef(p: RefCounted?)
    modifies if p != null then {p} else {}
    ensures p != null ==> p.useCount == old(p.useCount) + 1 && p.deleted == old(p.deleted)
  {
    if p != null {
      p.useCount := p.useCount + 1;
    }
  }

  /** `intrusive_ptr_release`: null is ignored; otherwise the count, asserted positive, drops by
      one and the object is deleted exactly when it reaches zero. */
  method Release(p: RefCounted?)
    requires p != null ==> p.useCount > 0
    modifies if p != null then {p} else {}
    ensures p != null ==> p.useCount == old(p.useCount) - 1
    ensures p != null ==> (p.deleted <==> old(p.deleted) || p.useCount == 0)
  {
    if p == null {
      return;
    }
    p.useCount := p.useCount - 1;
    if p.useCount == 0 {
      p.deleted := true;
    }
  }

  /** One `intrusive_ptr<T>`. */
  class Ptr {
    var px: RefCounted?

    /** The default constructor: null. */
    constructor Empty()
      ensures px == null
    {
      px := null;
    }

    /** `intrusive_ptr(p, add_ref)`: takes `p`, adding a reference when asked to and `p` is
        non-null. The `unique_ptr` assignment and `reset(p)` use it with `add_ref` true. */
    constructor FromRaw(p: RefCounted?, addRef: bool)
      modifies if p != null then {p} else {}
      ensures px == p
      ensures p != null ==> p.useCount == old(p.useCount) + (if addRef then 1 else 0)
      ensures p != null ==> p.deleted == old(p.deleted)
    {
      px := p;
      new;
      if px != null && addRef {
        AddRef(px);
      }
    }

    /** The copy constructor (and the converting one): shares the pointee and counts it. */
    constructor Copy(rhs: Ptr)
      modifies if rhs.px != null then {rhs.px} else {}
      ensures px == rhs.px
      ensures rhs.px != null ==>
        rhs.px.useCount == old(rhs.px.useCount) + 1 && rhs.px.deleted == old(rhs.px.deleted)
    {
      px := rhs.px;
      new;
      if px != null {
        AddRef(px);
      }
    }

    /** The move constructor (and the converting one): takes the pointee, leaves `rhs` null and
        the count unchanged. */
    constructor Move(rhs: Ptr)
      modifies rhs`px
      ensures px == old(rhs.px) && rhs.px == null
    {
      px := rhs.px;
      new;
      rhs.px := null;
    }

    /** The destructor: releases a non-null pointee once; `px` itself is left as it was. */
    method Destroy()
      requires px != null ==> px.useCount > 0
      modifies if px != null then {px} else {}
      ensures px != null ==> px.useCount == old(px.useCount) - 1
      ensures px != null ==> (px.deleted <==> old(px.deleted) || px.useCount == 0)
    {
      if px != null {
        Release(px);
      }
    }

    /** `get`. */
    function Get(): (r: RefCounted?)
      reads this`px
      ensures r == px
    {
      px
    }

    /** `operator bool`: non-null. */
    predicate IsSet()
      reads this`px
    {
      px != null
    }

    /** `operator!`: null, always the negation of `operator bool`. */
    function IsNull(): (r: bool)
      reads this`px
      ensures r <==> !IsSet()
    {
      px == null
    }

    /** `swap`: exchanges the two raw pointers, counts untouched. */
    method Swap(rhs: Ptr)
      modifies this`px, rhs`px
      ensures px == old(rhs.px) && rhs.px == old(px)
    {
      var tmp := px;
      px := rhs.px;
      rhs.px := tmp;
    }

    /** `detach`: hands the pointee out and becomes null, without releasing it. */
    method Detach() returns (r: RefCounted?)
      modifies this`px
      ensures r == old(px) && px == null
    {
      r := px;
      px := null;
    }

    /** `operator=(const intrusive_ptr&)` (and the converting form): `self_type(rhs).swap(*this)`.
        The new pointee gains a reference and the old one loses one; when both are the same
        object the count ends where it started. */
    method CopyAssign(rhs: Ptr)
      requires px != null ==> px.useCount > 0
      modifies this`px, if px != null then {px} else {}, if rhs.px != null then {rhs.px} else {}
      ensures px == old(rhs.px)
      ensures old(px) == old(rhs.px) && px != null ==>
        px.useCount == old(px.useCount) && px.deleted == old(px.deleted)
      ensures old(px) != old(rhs.px) && px != null ==>
        px.useCount == old(rhs.px.useCount) + 1 && px.deleted == old(rhs.px.deleted)
      ensures old(px) != old(rhs.px) && old(px) != null ==>
        old(px).useCount == old(px.useCount) - 1
        && (old(px).deleted <==> old(px.deleted) || old(px).useCount == 0)
    {
      var tmp := new Ptr.Copy(rhs);
      tmp.Swap(this);
      tmp.Destroy();
    }

    /** `operator=(intrusive_ptr&&)`: `self_type(std::move(rhs)).swap(*this)`. The pointee moves
        over without a count change, `rhs` becomes null, and the old pointee of this one loses a
        reference; a self-move changes nothing. */
    method MoveAssign(rhs: Ptr)
      requires px != null ==> px.useCount > 0
      modifies this`px, rhs`px, if px != null then {px} else {}
      ensures rhs == this ==> px == old(px) && (px != null ==> px.useCount == old(px.useCount))
      ensures rhs != this ==> px == old(rhs.px) && rhs.px == null
      ensures rhs != this && old(px) != null ==>
        old(px).useCount == old(px.useCount) - 1
        && (old(px).deleted <==> old(px.deleted) || old(px).useCount == 0)
    {
      var tmp := new Ptr.Move(rhs);
      tmp.Swap(this);
      tmp.Destroy();
    }

    /** `reset(p, add_ref)`: `self_type(p, add_ref).swap(*this)`; `reset(p)` and the assignment
        from a released `unique_ptr` are the `add_ref` true case. */
    method ResetTo(p: RefCounted?, addRef: bool)
      requires px != null ==> px.useCount > 0
      modifies this`px, if px != null then {px} else {}, if p != null then {p} else {}
      ensures px == p
      ensures p != null && p != old(px) ==>
        p.useCount == old(p.useCount) + (if addRef then 1 else 0) && p.deleted == old(p.deleted)
      ensures p != null && p == old(px) ==>
        p.useCount == old(p.useCount) + (if addRef then 1 else 0) - 1
      ensures old(px) != null && p != old(px) ==>
        old(px).useCount == old(px.useCount) - 1
        && (old(px).deleted <==> old(px.deleted) || old(px).useCount == 0)
    {
      var tmp := new Ptr.FromRaw(p, addRef);
      tmp.Swap(this);
      tmp.Destroy();
    }

    /** `reset()`: `self_type().swap(*this)`: null, and the old pointee loses its reference. */
    method Reset()
      requires px != null ==> px.useCount > 0
      modifies this`px, if px != null then {px} else {}
      ensures px == null
      ensures old(px) != null ==>
        old(px).useCount == old(px.useCount) - 1
        && (old(px).deleted <==> old(px.deleted) || old(px).useCount == 0)
    {
      var tmp := new Ptr.Empty();
      tmp.Swap(this);
      tmp.Destroy();
    }
  }

  /** `operator==` between two pointers: the raw pointers are the same. */
  predicate Equal(a: Ptr, b: Ptr)
    reads a`px, b`px
  {
    a.Get() == b.Get()
  }

  /** `operator!=`: the negation of `operator==`. */
  function NotEqual(a: Ptr, b: Ptr): (r: bool)
    reads a`px, b`px
    ensures r <==> !Equal(a, b)
  {
    a.Get() != b.Get()
  }

  /** `operator==(intrusive_ptr, nullptr)`: the same as `operator!`. */
  function EqualNull(a: Ptr): (r: bool)
    reads a`px
    ensures r <==> a.IsNull()
  {
    a.Get() == null
  }

  /** `operator<`: the raw addresses in order (`std::less` in the older header). */
  function Less(a: Ptr, b: Ptr): (r: bool)
    reads a`px, b`px, if a.px != null then {a.px} else {}, if b.px != null then {b.px} else {}
    ensures r ==> !Equal(a, b)
    ensures r <==> Address(a.Get()) < Address(b.Get())
  {
    Address(a.Get()) < Address(b.Get())
  }

  /** `operator<=>`: -1, 0 or 1 as `a`'s address is below, equal to or above `b`'s. */
  function Compare(a: Ptr, b: Ptr): (r: int)
    reads a`px, b`px, if a.px != null then {a.px} else {}, if b.px != null then {b.px} else {}
    ensures r == -1 <==> Less(a, b)
    ensures r == 1 <==> Less(b, a)
    ensures Equal(a, b) ==> r == 0
  {
    if Address(a.Get()) < Address(b.Get()) then -1
    else if Address(a.Get()) > Address(b.Get()) then 1
    else 0
  }

  /** Two pointers to one object: the copy counts it twice, and only the second release
      deletes it. */
  method ShareAndRelease() returns (obj: RefCounted)
    ensures obj.deleted && obj.useCount == 0
  {
    obj := new RefCounted(1);
    var first := new Ptr.FromRaw(obj, true);
    var second := new Ptr.Copy(first);
    assert obj.useCount == 2;
    first.Reset();
    assert !obj.deleted && obj.useCount == 1 && second.px == obj;
    second.Destroy();
  }

  /** A detached pointer is not released: the object survives with its count, and adopting it
      back with `add_ref` false restores the original holder. */
  method DetachThenAdopt() returns (obj: RefCounted, holder: Ptr)
    ensures holder.px == obj && obj.useCount == 1 && !obj.deleted
  {
    obj := new RefCounted(1);
    var p := new Ptr.FromRaw(obj, true);
    var raw := p.Detach();
    p.Destroy();
    holder := new Ptr.FromRaw(raw, false);
  }
}
