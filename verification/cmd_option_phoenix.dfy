/** The ready-made callback actions (cli/cmd_option_phoenix.h): each holds a reference to a
    variable or container of the caller and updates it from the parameters of the command.
    The referenced variable is an object here (`Cell`, `Sequence`, `Collection`), and the
    conversion `to<T>()` of a parameter is the function `conv`. */
module CmdPhoenix {
  import CmdList
  import CmdOptionValue

  type Value = CmdOptionValue.Value

  /** A variable of the caller. */
  class Cell<T> {
    var value: T

    constructor(v: T)
      ensures value == v
    {
      value := v;
    }
  }

  /** A sequence container of the caller (`push_back`/`push_front`). */
  class Sequence<T> {
    var items: seq<T>

    constructor(init: seq<T>)
      ensures items == init
    {
      items := init;
    }
  }

  /** A set container of the caller (`insert`). */
  class Collection<T(==)> {
    var elems: set<T>

    constructor(init: set<T>)
      ensures elems == init
    {
      elems := init;
    }
  }

  /** The parameters, each converted. */
  function Converted<T>(params: seq<Value>, conv: Value -> T): (r: seq<T>)
    ensures |r| == |params| && forall k :: 0 <= k < |params| ==> r[k] == conv(params[k])
  {
    if params == [] then [] else Converted(params[..|params| - 1], conv) + [conv(params[|params| - 1])]
  }

  /** A sequence back to front. */
  function Reversed<T>(s: seq<T>): (r: seq<T>)
    ensures |r| == |s| && forall k :: 0 <= k < |s| ==> r[k] == s[|s| - 1 - k]
  {
    if s == [] then [] else [s[|s| - 1]] + Reversed(s[..|s| - 1])
  }

  /** Reversing twice gives the sequence back: what `push_front` stores, read from the back,
      is the parameters in order. */
  lemma ReversedTwice<T>(s: seq<T>)
    ensures Reversed(Reversed(s)) == s
  {
    assert forall k :: 0 <= k < |s| ==> Reversed(Reversed(s))[k] == s[k];
  }

  /** `assign(var)`: the first parameter, converted, when there is one. */
  method Assign<T>(v: Cell<T>, params: CmdList.List, conv: Value -> T)
    modifies v
    ensures params.keys != [] ==> v.value == conv(params.keys[0])
    ensures params.keys == [] ==> v.value == old(v.value)
  {
    if params.ParamsNumber() > 0 {
      v.value := conv(params.Param(0));
    }
  }

  /** `push_back(var)`: every parameter appended, in order. */
  method PushBack<T>(c: Sequence<T>, params: CmdList.List, conv: Value -> T)
    modifies c
    ensures c.items == old(c.items) + Converted(params.keys, conv)
  {
    var i := 0;
    while i < params.ParamsNumber()
      invariant i <= |params.keys|
      invariant c.items == old(c.items) + Converted(params.keys[..i], conv)
    {
      assert params.keys[..i + 1][..i] == params.keys[..i];
      c.items := c.items + [conv(params.Param(i))];
      i := i + 1;
    }
    assert params.keys[..i] == params.keys;
  }

  /** `push_front(var)`: every parameter put in front, one after the other, so they end up
      in reverse order before the old contents. */
  method PushFront<T>(c: Sequence<T>, params: CmdList.List, conv: Value -> T)
    modifies c
    ensures c.items == Reversed(Converted(params.keys, conv)) + old(c.items)
  {
    var i := 0;
    while i < params.ParamsNumber()
      invariant i <= |params.keys|
      invariant c.items == Reversed(Converted(params.keys[..i], conv)) + old(c.items)
    {
      assert params.keys[..i + 1][..i] == params.keys[..i];
      c.items := [conv(params.Param(i))] + c.items;
      i := i + 1;
    }
    assert params.keys[..i] == params.keys;
  }

  /** `insert(var)`: every parameter, converted, is now in the set, and nothing else joins. */
  method Insert<T(==)>(c: Collection<T>, params: CmdList.List, conv: Value -> T)
    modifies c
    ensures c.elems == old(c.elems) + set k | 0 <= k < |params.keys| :: conv(params.keys[k])
  {
    var i := 0;
    while i < params.ParamsNumber()
      invariant i <= |params.keys|
      invariant c.elems == old(c.elems) + set k | 0 <= k < i :: conv(params.keys[k])
    {
      c.elems := c.elems + {conv(params.Param(i))};
      i := i + 1;
    }
  }

  /** `set_const(var, val)`: the stored constant, whatever the parameters. */
  method SetConst<T>(v: Cell<T>, val: T, params: CmdList.List)
    modifies v
    ensures v.value == val
  {
    v.value := val;
  }

  /** `assign_logic_bool(var)`: the meaning of the first parameter as a switch, false with no
      parameter. */
  method AssignLogicBool(v: Cell<bool>, params: CmdList.List)
    modifies v
    ensures v.value == (params.keys != [] && CmdOptionValue.ToLogicBool(params.keys[0]))
  {
    if params.ParamsNumber() > 0 {
      v.value := CmdOptionValue.ToLogicBool(params.Param(0));
    } else {
      v.value := false;
    }
  }

  /** The actions read nothing but the parameters: running `push_back` on a list of words
      and `push_front` on another gives the same words in opposite orders. */
  method OppositeOrders(params: CmdList.List) returns (back: seq<Value>, front: seq<Value>)
    ensures back == params.keys && front == Reversed(params.keys)
  {
    var b := new Sequence<Value>([]);
    var f := new Sequence<Value>([]);
    var id := (x: Value) => x;
    PushBack(b, params, id);
    PushFront(f, params, id);
    back, front := b.items, f.items;
    assert Converted(params.keys, id) == params.keys;
  }
}
