/** The parameters a command callback receives (cli/cmd_option_list.h and .cpp): the list of
    parameter values, the `key:value` map built from them on first use, the stack of commands
    that led to the callback and an opaque extra parameter.

    The parameters are shared, immutable values, so the list holds them as values. A bound
    command object is named by an id (`BindId`), the extra parameter by an address, 0 being
    the null pointer. */
module CmdList {
  import opened CString
  import opened Optional
  import CmdSegment
  import CmdOptionValue

  type Value = CmdOptionValue.Value

  /** The id of a bound command object (`std::shared_ptr<cmd_option_bind_base>`). */
  type BindId = nat

  /** The null `ext_param_`. */
  const NullParam: nat := 0

  /** `init_key_value_map`'s scan for the separator: from `i`, the first `:` or `=`, or the
      end of the C string. */
  function SepEnd(s: string, i: nat): (r: nat)
    ensures i <= r && (i <= |s| ==> r <= |s|)
    ensures At(s, r) == NUL || At(s, r) == ':' || At(s, r) == '='
    decreases |s| - i
  {
    if At(s, i) != NUL && At(s, i) != ':' && At(s, i) != '=' then SepEnd(s, i + 1) else i
  }

  /** The entry one parameter adds to the map: the text before the separator as the key and
      the first segment after it as the value; none when there is no separator. Only the word
      of `get_segment` is used, which its two readings agree on. */
  function Entry(s: string): (r: Option<(string, Value)>)
  {
    var p := SepEnd(s, 0);
    if At(s, p) == NUL then None
    else Some((s[..p], CmdOptionValue.Value(CmdSegment.Segment(s, p + 1).0)))
  }

  /** The map built from `keys`, in order, so that a later parameter with the same key wins. */
  function BuildMap(keys: seq<Value>): (r: map<string, Value>)
  {
    if keys == [] then map[]
    else
      var m := BuildMap(keys[..|keys| - 1]);
      match Entry(keys[|keys| - 1].data)
      case None => m
      case Some(e) => m[e.0 := e.1]
  }

  // ---------------------------------------------------------------- entries

  /** A key holds no separator and no NUL. */
  predicate IsKey(k: string)
  {
    forall j :: 0 <= j < |k| ==> k[j] != NUL && k[j] != ':' && k[j] != '='
  }

  lemma {:induction false} SepEndOfKey(k: string, sep: char, v: string, i: nat)
    requires IsKey(k) && (sep == ':' || sep == '=') && i <= |k|
    ensures SepEnd(k + [sep] + v, i) == |k|
    decreases |k| - i
  {
    var s := k + [sep] + v;
    if i < |k| {
      assert s[i] == k[i];
      SepEndOfKey(k, sep, v, i + 1);
    } else {
      assert s[i] == sep;
    }
  }

  /** A parameter `key:value` or `key=value` maps the key to the first segment of the value. */
  lemma EntryOfKey(k: string, sep: char, v: string)
    requires IsKey(k) && (sep == ':' || sep == '=')
    ensures Entry(k + [sep] + v) == Some((k, CmdOptionValue.Value(CmdSegment.Segment(k + [sep] + v, |k| + 1).0)))
  {
    var s := k + [sep] + v;
    SepEndOfKey(k, sep, v, 0);
    assert s[|k|] == sep;
    assert s[..|k|] == k;
  }

  lemma {:induction false} SepEndFindsNone(s: string, i: nat)
    requires i <= |s|
    ensures At(s, SepEnd(s, i)) == NUL <==> ':' !in CmdOptionValue.CStringText(s[i..]) && '=' !in CmdOptionValue.CStringText(s[i..])
    decreases |s| - i
  {
    if At(s, i) != NUL {
      assert s[i..] == [s[i]] + s[i + 1..];
      SepEndFindsNone(s, i + 1);
    }
  }

  /** A parameter adds nothing exactly when its C string holds neither `:` nor `=`. */
  lemma EntryNone(s: string)
    ensures Entry(s).None? <==> ':' !in CmdOptionValue.CStringText(s) && '=' !in CmdOptionValue.CStringText(s)
  {
    SepEndFindsNone(s, 0);
    assert s[0..] == s;
  }

  /** The map holds a key with the value of the last parameter that names it. */
  lemma {:induction false} BuildMapLastWins(keys: seq<Value>, i: nat, k: string, v: Value)
    requires i < |keys| && Entry(keys[i].data) == Some((k, v))
    requires forall j :: i < j < |keys| ==> Entry(keys[j].data).None? || Entry(keys[j].data).value.0 != k
    ensures k in BuildMap(keys) && BuildMap(keys)[k] == v
    decreases |keys|
  {
    var front := keys[..|keys| - 1];
    if i < |keys| - 1 {
      assert forall j :: i < j < |front| ==> front[j] == keys[j];
      BuildMapLastWins(front, i, k, v);
    }
  }

  /** Every key of the map comes from some parameter. */
  lemma {:induction false} BuildMapKeys(keys: seq<Value>, k: string)
    requires k in BuildMap(keys)
    ensures exists i :: 0 <= i < |keys| && Entry(keys[i].data).Some? && Entry(keys[i].data).value.0 == k
    decreases |keys|
  {
    var front := keys[..|keys| - 1];
    var last := Entry(keys[|keys| - 1].data);
    if last.Some? && last.value.0 == k {
      assert Entry(keys[|keys| - 1].data).Some?;
    } else {
      BuildMapKeys(front, k);
      var i :| 0 <= i < |front| && Entry(front[i].data).Some? && Entry(front[i].data).value.0 == k;
      assert front[i] == keys[i];
    }
  }

  // ---------------------------------------------------------------- scanning methods

  /** The separator loop of `init_key_value_map`. */
  method ScanKey(s: string) returns (p: nat)
    ensures p == SepEnd(s, 0)
  {
    p := 0;
    while At(s, p) != NUL && ':' != At(s, p) && '=' != At(s, p)
      invariant p <= |s| && SepEnd(s, p) == SepEnd(s, 0)
      decreases |s| - p
    {
      p := p + 1;
    }
  }

  /** One parameter's contribution to the map. */
  method ParseEntry(s: string) returns (e: Option<(string, Value)>)
    ensures e == Entry(s)
  {
    var p := ScanKey(s);
    if At(s, p) != NUL {
      var val, _ := CmdSegment.GetSegment(s, p + 1);
      CmdSegment.SegmentAsWrittenAgrees(s, p + 1);
      e := Some((s[..p], CmdOptionValue.Value(val)));
    } else {
      e := None;
    }
  }

  /** The map loop of `init_key_value_map`, over all the parameters. */
  method MapOf(keys: seq<Value>) returns (m: map<string, Value>)
    ensures m == BuildMap(keys)
  {
    m := map[];
    var i := 0;
    while i < |keys|
      invariant i <= |keys| && m == BuildMap(keys[..i])
    {
      assert keys[..i + 1][..i] == keys[..i];
      var e := ParseEntry(keys[i].data);
      if e.Some? {
        m := m[e.value.0 := e.value.1];
      }
      i := i + 1;
    }
    assert keys[..|keys|] == keys;
  }

  // ---------------------------------------------------------------- the list

  class List {
    /** `keys_`: the parameters, in order. */
    var keys: seq<Value>
    /** `key_value_`: `None` until the map is built. */
    var keyValue: Option<map<string, Value>>
    /** `cmd_array_`: each command name with the object bound to it. */
    var cmdArray: seq<(string, BindId)>
    /** `ext_param_`. */
    var extParam: nat

    /** `cmd_option_list()`: empty, no map, null extra parameter. */
    constructor()
      ensures keys == [] && keyValue == None && cmdArray == [] && extParam == NullParam
    {
      keys := [];
      keyValue := None;
      cmdArray := [];
      extParam := NullParam;
    }

    /** `cmd_option_list(argv, argc)` and `cmd_option_list(cmds)`: one parameter per argument,
        each read as a C string. */
    constructor FromArgs(args: seq<string>)
      ensures |keys| == |args| && forall i :: 0 <= i < |args| ==> keys[i] == CmdOptionValue.FromCString(args[i])
      ensures keyValue == None && cmdArray == [] && extParam == NullParam
    {
      keyValue := None;
      cmdArray := [];
      extParam := NullParam;
      var ks: seq<Value> := [];
      var i := 0;
      while i < |args|
        invariant i <= |args| && |ks| == i
        invariant forall j :: 0 <= j < i ==> ks[j] == CmdOptionValue.FromCString(args[j])
      {
        ks := ks + [CmdOptionValue.FromCString(args[i])];
        i := i + 1;
      }
      keys := ks;
    }

    /** `init_key_value_map`: builds the map unless it is already built. */
    method InitKeyValueMap()
      modifies this
      ensures keyValue == Some(if old(keyValue).Some? then old(keyValue).value else BuildMap(keys))
      ensures keys == old(keys) && cmdArray == old(cmdArray) && extParam == old(extParam)
    {
      if keyValue.Some? {
        return;
      }
      var m := MapOf(keys);
      keyValue := Some(m);
    }

    /** `add`: one more parameter, read as a C string. The map is not rebuilt. */
    method Add(param: string)
      modifies this
      ensures keys == old(keys) + [CmdOptionValue.FromCString(param)]
      ensures keyValue == old(keyValue) && cmdArray == old(cmdArray) && extParam == old(extParam)
    {
      keys := keys + [CmdOptionValue.FromCString(param)];
    }

    /** `clear`: no parameters, no map, no commands, null extra parameter. */
    method Clear()
      modifies this
      ensures keys == [] && keyValue == None && cmdArray == [] && extParam == NullParam
    {
      keyValue := None;
      keys := [];
      cmdArray := [];
      extParam := NullParam;
    }

    /** `load_cmd_array`. */
    method LoadCmdArray(cmds: seq<(string, BindId)>)
      modifies this
      ensures cmdArray == cmds
      ensures keys == old(keys) && keyValue == old(keyValue) && extParam == old(extParam)
    {
      cmdArray := cmds;
    }

    /** `append_cmd`: pushes the command name, read as a C string, with its bound object. */
    method AppendCmd(content: string, node: BindId)
      modifies this
      ensures cmdArray == old(cmdArray) + [(CmdOptionValue.CStringText(content), node)]
      ensures keys == old(keys) && keyValue == old(keyValue) && extParam == old(extParam)
    {
      cmdArray := cmdArray + [(CmdOptionValue.CStringText(content), node)];
    }

    /** `pop_cmd`: drops the last command; the stack must not be empty. */
    method PopCmd()
      requires cmdArray != []
      modifies this
      ensures cmdArray == old(cmdArray)[..|old(cmdArray)| - 1]
      ensures keys == old(keys) && keyValue == old(keyValue) && extParam == old(extParam)
    {
      cmdArray := cmdArray[..|cmdArray| - 1];
    }

    /** `get(key)`: builds the map if needed, then looks the key up; `None` is the null
        pointer. A map built earlier is used as it is, even if parameters were added since. */
    method Get(key: string) returns (r: Option<Value>)
      modifies this
      ensures keyValue == Some(if old(keyValue).Some? then old(keyValue).value else BuildMap(keys))
      ensures r == if key in keyValue.value then Some(keyValue.value[key]) else None
      ensures keys == old(keys) && cmdArray == old(cmdArray) && extParam == old(extParam)
    {
      InitKeyValueMap();
      var m := keyValue.value;
      if key !in m {
        return None;
      }
      return Some(m[key]);
    }

    /** `get(key, default_val)`: the value, or the default read as a C string. */
    method GetOr(key: string, defaultVal: string) returns (r: Value)
      modifies this
      ensures keyValue == Some(if old(keyValue).Some? then old(keyValue).value else BuildMap(keys))
      ensures r == if key in keyValue.value then keyValue.value[key] else CmdOptionValue.FromCString(defaultVal)
      ensures keys == old(keys) && cmdArray == old(cmdArray) && extParam == old(extParam)
    {
      var found := Get(key);
      if found.None? {
        return CmdOptionValue.FromCString(defaultVal);
      }
      return found.value;
    }

    /** `get(index)` and `operator[]`: the parameter at `index`, which must exist. */
    function Param(index: nat): Value
      reads this
      requires index < |keys|
    {
      keys[index]
    }

    /** `get_params_number`. */
    function ParamsNumber(): nat
      reads this
    {
      |keys|
    }

    /** `reset_key_value_map`: the next lookup rebuilds the map. */
    method ResetKeyValueMap()
      modifies this
      ensures keyValue == None
      ensures keys == old(keys) && cmdArray == old(cmdArray) && extParam == old(extParam)
    {
      keyValue := None;
    }

    /** `set_ext_param`. */
    method SetExtParam(param: nat)
      modifies this
      ensures extParam == param
      ensures keys == old(keys) && keyValue == old(keyValue) && cmdArray == old(cmdArray)
    {
      extParam := param;
    }
  }

  /** The map is built once: a parameter added after a lookup is not seen until the map is
      reset. `p1` and `p2` are parameters for the same key `k` (`EntryOfKey` gives some). */
  method StaleMapScenario(p1: string, p2: string, k: string, w1: Value, w2: Value)
    returns (a: Option<Value>, b: Option<Value>, c: Option<Value>)
    requires Entry(CmdOptionValue.FromCString(p1).data) == Some((k, w1))
    requires Entry(CmdOptionValue.FromCString(p2).data) == Some((k, w2))
    ensures a == b == Some(w1) && c == Some(w2)
  {
    var x, y := CmdOptionValue.FromCString(p1), CmdOptionValue.FromCString(p2);
    assert BuildMap([x]) == map[k := w1] by {
      assert [x][..0] == [];
    }
    assert BuildMap([x, y]) == map[k := w2] by {
      assert [x, y][..1] == [x];
    }
    var l := new List();
    l.Add(p1);
    a := l.Get(k);
    l.Add(p2);
    b := l.Get(k);
    l.ResetKeyValueMap();
    c := l.Get(k);
  }
}
