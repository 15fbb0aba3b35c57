/** The command dispatcher (cli/cmd_option.h, `cmd_option_bind<std::string>`): a map from
    command names to bound callbacks, a second map for the names bound to child dispatchers,
    the dispatch of one command (`run_cmd`), the grouping of an argument list into commands
    (`start`), and the help listing (`list_help_msg`, `dump`).

    Callbacks are code this model cannot see: a bound object is an id, and calling it is the
    `Call` record `run_cmd` produces, which says which object runs and what it receives.
    Callbacks are taken not to rebind commands while `start` runs. */
module CmdOption {
  import opened CString
  import opened Optional
  import CmdSegment
  import CmdOptionValue
  import CmdList

  type Value = CmdOptionValue.Value
  type BindId = CmdList.BindId

  /** `ROOT_NODE_CMD`. */
  const RootNodeCmd: string := "@Root"
  const OnDefault: string := "@OnDefault"
  const OnError: string := "@OnError"
  /** The parameter `run_cmd` adds before calling `@OnError`. */
  const ErrorMsgParam: string := "@ErrorMsg=Command Invalid"

  /** The default `help_cmd_style_`: yellow (0x0800) and bold (0x01). */
  const DefaultHelpCmdStyle: int := 0x0801

  /** A call of a bound object: which one, with which parameters and command stack. */
  datatype Call = Call(target: BindId, params: seq<Value>, cmdArray: seq<(string, BindId)>)

  /** The command stack once `run_cmd` has put the root entry on an empty one. */
  function WithRoot(cmdArray: seq<(string, BindId)>, self: BindId): (r: seq<(string, BindId)>)
    ensures r != [] && (cmdArray != [] ==> r == cmdArray)
  {
    if cmdArray == [] then [(RootNodeCmd, self)] else cmdArray
  }

  /** What `run_cmd(cmd, params)` calls, if anything. */
  function Dispatch(funcs: map<string, BindId>, self: BindId, cmd: string, params: seq<Value>,
                    cmdArray: seq<(string, BindId)>): (r: Option<Call>)
  {
    var stack := WithRoot(cmdArray, self);
    if cmd in funcs then Some(Call(funcs[cmd], params, stack + [(CmdOptionValue.CStringText(cmd), funcs[cmd])]))
    else if cmd == OnDefault then None
    else if OnError in funcs then
      Some(Call(funcs[OnError], params + [CmdOptionValue.FromCString(ErrorMsgParam)],
                stack + [(CmdOptionValue.CStringText(cmd), funcs[OnError])]))
    else None
  }

  /** The fixed names hold no NUL, so reading them as C strings changes nothing. */
  lemma LiteralTexts()
    ensures CmdOptionValue.CStringText(RootNodeCmd) == RootNodeCmd
    ensures CmdOptionValue.FromCString(ErrorMsgParam) == CmdOptionValue.Value(ErrorMsgParam)
  {
    assert NUL !in RootNodeCmd;
    assert NUL !in ErrorMsgParam;
    assert CmdOptionValue.FromCString(RootNodeCmd).data == RootNodeCmd;
  }

  /** A bound command runs its own callback with the parameters as they are; an unknown one
      runs `@OnError`, with the error message as one more parameter, unless it is
      `@OnDefault` or no `@OnError` is bound. */
  lemma DispatchRules(funcs: map<string, BindId>, self: BindId, cmd: string, params: seq<Value>,
                      cmdArray: seq<(string, BindId)>)
    ensures Dispatch(funcs, self, cmd, params, cmdArray).Some? <==> cmd in funcs || (cmd != OnDefault && OnError in funcs)
    ensures cmd in funcs ==> Dispatch(funcs, self, cmd, params, cmdArray).value.target == funcs[cmd]
    ensures cmd in funcs ==> Dispatch(funcs, self, cmd, params, cmdArray).value.params == params
    ensures cmd !in funcs && cmd != OnDefault && OnError in funcs ==>
      Dispatch(funcs, self, cmd, params, cmdArray).value.target == funcs[OnError]
    ensures cmd !in funcs && cmd != OnDefault && OnError in funcs ==>
      Dispatch(funcs, self, cmd, params, cmdArray).value.params == params + [CmdOptionValue.Value(ErrorMsgParam)]
  {
    LiteralTexts();
  }

  /** Whatever runs finds itself on top of the command stack, above the root entry when the
      stack was empty and above the caller's stack otherwise. */
  lemma DispatchStack(funcs: map<string, BindId>, self: BindId, cmd: string, params: seq<Value>,
                      cmdArray: seq<(string, BindId)>)
    requires Dispatch(funcs, self, cmd, params, cmdArray).Some?
    ensures var c := Dispatch(funcs, self, cmd, params, cmdArray).value;
      |c.cmdArray| >= 2 && c.cmdArray[|c.cmdArray| - 1] == (CmdOptionValue.CStringText(cmd), c.target)
    ensures var c := Dispatch(funcs, self, cmd, params, cmdArray).value;
      cmdArray == [] ==> c.cmdArray == [(RootNodeCmd, self), (CmdOptionValue.CStringText(cmd), c.target)]
    ensures var c := Dispatch(funcs, self, cmd, params, cmdArray).value;
      cmdArray != [] ==> c.cmdArray == cmdArray + [(CmdOptionValue.CStringText(cmd), c.target)]
  {
  }

  // ---------------------------------------------------------------- start

  /** Whether an argument names a bound command; the lookup reads it as a C string. */
  predicate IsCmd(funcs: map<string, BindId>, v: Value)
  {
    CmdOptionValue.CStringText(v.data) in funcs
  }

  /** An argument passed on as a parameter: `add(args[i]->to_string())`. */
  function ParamsOf(args: seq<Value>): (r: seq<Value>)
    ensures |r| == |args|
  {
    seq(|args|, k requires 0 <= k < |args| => CmdOptionValue.FromCString(args[k].data))
  }

  /** For each argument, whether it names a bound command. */
  function Marks(funcs: map<string, BindId>, args: seq<Value>): (r: seq<bool>)
    ensures |r| == |args| && forall k :: 0 <= k < |args| ==> r[k] == IsCmd(funcs, args[k])
  {
    seq(|args|, k requires 0 <= k < |args| => IsCmd(funcs, args[k]))
  }

  /** The first argument from `i` on that names a command, or the end. */
  function NextCmd(marks: seq<bool>, i: nat): (r: nat)
    requires i <= |marks|
    ensures i <= r <= |marks| && (r < |marks| ==> marks[r])
    decreases |marks| - i
  {
    if i == |marks| || marks[i] then i else NextCmd(marks, i + 1)
  }

  /** The `run_cmd` calls of `start` from argument `i` on, `cmd` being the command the
      arguments from `i` belong to: each command takes the arguments up to the next one. */
  function PlanFrom(marks: seq<bool>, args: seq<Value>, cmd: string, i: nat): (r: seq<(string, seq<Value>)>)
    requires |marks| == |args| && i <= |args|
    ensures r != [] && r[0].0 == cmd
    decreases |args| - i
  {
    var j := NextCmd(marks, i);
    [(cmd, ParamsOf(args[i..j]))] + (if j < |args| then PlanFrom(marks, args, args[j].data, j + 1) else [])
  }

  /** The `run_cmd` calls of `start(args, is_single_cmd)`. Several commands: the arguments
      before the first command go to `@OnDefault`, then each command with its own arguments.
      A single command: the first command takes every argument after it, those before it go
      to `@OnError`, and with no command at all everything goes to `@OnError`. */
  function Plan(funcs: map<string, BindId>, args: seq<Value>, isSingle: bool): (r: seq<(string, seq<Value>)>)
  {
    var marks := Marks(funcs, args);
    if !isSingle then PlanFrom(marks, args, OnDefault, 0)
    else
      var j := NextCmd(marks, 0);
      if j == |args| then [(OnError, ParamsOf(args))]
      else (if j > 0 then [(OnError, ParamsOf(args[..j]))] else []) + [(args[j].data, ParamsOf(args[j + 1..]))]
  }

  /** How many arguments from `i` on name a command. */
  function CountCmds(marks: seq<bool>, i: nat): (r: nat)
    requires i <= |marks|
    decreases |marks| - i
  {
    if i == |marks| then 0 else (if marks[i] then 1 else 0) + CountCmds(marks, i + 1)
  }

  /** The parameters of all the calls, in order. */
  function AllParams(plan: seq<(string, seq<Value>)>): seq<Value>
  {
    if plan == [] then [] else plan[0].1 + AllParams(plan[1..])
  }

  lemma {:induction false} CountCmdsSkip(marks: seq<bool>, i: nat)
    requires i <= |marks|
    ensures CountCmds(marks, i) == CountCmds(marks, NextCmd(marks, i))
    decreases |marks| - i
  {
    if i < |marks| && !marks[i] {
      CountCmdsSkip(marks, i + 1);
    }
  }

  /** Unfolding `PlanFrom` once: the call for `cmd`, then the plan from the next command. */
  lemma PlanFromStep(marks: seq<bool>, args: seq<Value>, cmd: string, i: nat)
    requires |marks| == |args| && i <= |args|
    ensures var j := NextCmd(marks, i); var p := PlanFrom(marks, args, cmd, i);
      p[0] == (cmd, ParamsOf(args[i..j])) && p[1..] == (if j < |args| then PlanFrom(marks, args, args[j].data, j + 1) else [])
  {
  }

  /** The calls made so far, followed by the plan from `i`, are the calls made once the
      arguments from `i` have gone to `cmd`, followed by the plan from the next command. */
  lemma PlanFromAdvance(marks: seq<bool>, args: seq<Value>, cmd: string, i: nat, j: nat,
                        before: seq<(string, seq<Value>)>, target: seq<(string, seq<Value>)>)
    requires |marks| == |args| && i <= |args| && j == NextCmd(marks, i) && j < |args|
    requires before + PlanFrom(marks, args, cmd, i) == target
    ensures (before + [(cmd, ParamsOf(args[i..j]))]) + PlanFrom(marks, args, args[j].data, j + 1) == target
  {
    var head := (cmd, ParamsOf(args[i..j]));
    var rest := PlanFrom(marks, args, args[j].data, j + 1);
    assert PlanFrom(marks, args, cmd, i) == [head] + rest;
    assert before + ([head] + rest) == (before + [head]) + rest;
  }

  /** The same at the end of the arguments: the call for `cmd` is the last one. */
  lemma PlanFromLast(marks: seq<bool>, args: seq<Value>, cmd: string, i: nat,
                     before: seq<(string, seq<Value>)>, target: seq<(string, seq<Value>)>)
    requires |marks| == |args| && i <= |args| && NextCmd(marks, i) == |args|
    requires before + PlanFrom(marks, args, cmd, i) == target
    ensures before + [(cmd, ParamsOf(args[i..|args|]))] == target
  {
    assert PlanFrom(marks, args, cmd, i) == [(cmd, ParamsOf(args[i..|args|]))];
  }

  /** One round of the `start` loop with several commands keeps it on the plan: the calls
      made so far, then the plan from the next command on, are the whole plan. */
  lemma PlanFromNext(marks: seq<bool>, args: seq<Value>, cmd: string, i: nat, j: nat,
                     before: seq<(string, seq<Value>)>, runs: seq<(string, seq<Value>)>, target: seq<(string, seq<Value>)>)
    requires |marks| == |args| && i <= |args| && j == NextCmd(marks, i)
    requires before + PlanFrom(marks, args, cmd, i) == target
    requires runs == before + [(cmd, ParamsOf(args[i..j]))]
    ensures j < |args| ==> runs + PlanFrom(marks, args, args[j].data, j + 1) == target
    ensures j == |args| ==> runs == target
  {
    if j < |args| {
      PlanFromAdvance(marks, args, cmd, i, j, before, target);
    } else {
      PlanFromLast(marks, args, cmd, i, before, target);
    }
  }

  /** With several commands, `start` makes one call per command plus the first one. */
  lemma {:induction false} PlanFromCount(marks: seq<bool>, args: seq<Value>, cmd: string, i: nat)
    requires |marks| == |args| && i <= |args|
    ensures |PlanFrom(marks, args, cmd, i)| == 1 + CountCmds(marks, i)
    decreases |args| - i
  {
    var j := NextCmd(marks, i);
    var p := PlanFrom(marks, args, cmd, i);
    CountCmdsSkip(marks, i);
    PlanFromStep(marks, args, cmd, i);
    assert |p| == 1 + |p[1..]|;
    if j < |args| {
      PlanFromCount(marks, args, args[j].data, j + 1);
      assert CountCmds(marks, j) == 1 + CountCmds(marks, j + 1);
    } else {
      assert CountCmds(marks, j) == 0 && p[1..] == [];
    }
  }

  /** Every call after the first runs an argument that names a command. */
  lemma {:induction false} PlanFromCmds(marks: seq<bool>, args: seq<Value>, cmd: string, i: nat)
    requires |marks| == |args| && i <= |args|
    ensures forall k :: 1 <= k < |PlanFrom(marks, args, cmd, i)| ==>
      exists m :: i <= m < |args| && marks[m] && args[m].data == PlanFrom(marks, args, cmd, i)[k].0
    decreases |args| - i
  {
    var j := NextCmd(marks, i);
    var p := PlanFrom(marks, args, cmd, i);
    PlanFromStep(marks, args, cmd, i);
    if j < |args| {
      var rest := PlanFrom(marks, args, args[j].data, j + 1);
      PlanFromCmds(marks, args, args[j].data, j + 1);
      forall k | 1 <= k < |p| ensures exists m :: i <= m < |args| && marks[m] && args[m].data == p[k].0 {
        assert p[k] == rest[k - 1];
        if k == 1 {
          assert marks[j] && args[j].data == p[k].0;
        } else {
          var m :| j + 1 <= m < |args| && marks[m] && args[m].data == rest[k - 1].0;
          assert i <= m;
        }
      }
    }
  }

  /** Every call `start` makes with several commands, after the first, runs a bound command. */
  lemma ManyCallsBound(funcs: map<string, BindId>, args: seq<Value>)
    ensures |Plan(funcs, args, false)| == 1 + CountCmds(Marks(funcs, args), 0)
    ensures Plan(funcs, args, false)[0].0 == OnDefault
    ensures forall k :: 1 <= k < |Plan(funcs, args, false)| ==> CmdOptionValue.CStringText(Plan(funcs, args, false)[k].0) in funcs
  {
    var marks := Marks(funcs, args);
    var p := Plan(funcs, args, false);
    PlanFromCount(marks, args, OnDefault, 0);
    PlanFromCmds(marks, args, OnDefault, 0);
    forall k | 1 <= k < |p| ensures CmdOptionValue.CStringText(p[k].0) in funcs {
      var m :| 0 <= m < |args| && marks[m] && args[m].data == p[k].0;
      assert IsCmd(funcs, args[m]);
    }
  }

  /** The arguments from `i` on that do not name a command, in order. */
  function Unmarked(marks: seq<bool>, args: seq<Value>, i: nat): (r: seq<Value>)
    requires |marks| == |args| && i <= |args|
    ensures |r| == |args| - i - CountCmds(marks, i)
    decreases |args| - i
  {
    if i == |args| then []
    else if marks[i] then Unmarked(marks, args, i + 1)
    else [args[i]] + Unmarked(marks, args, i + 1)
  }

  /** Up to the next command every argument is unmarked. */
  lemma {:induction false} UnmarkedSkip(marks: seq<bool>, args: seq<Value>, i: nat)
    requires |marks| == |args| && i <= |args|
    ensures Unmarked(marks, args, i) == args[i..NextCmd(marks, i)] + Unmarked(marks, args, NextCmd(marks, i))
    decreases |args| - i
  {
    if i < |args| && !marks[i] {
      var j := NextCmd(marks, i);
      UnmarkedSkip(marks, args, i + 1);
      assert args[i..j] == [args[i]] + args[i + 1..j];
    }
  }

  lemma ParamsOfAppend(a: seq<Value>, b: seq<Value>)
    ensures ParamsOf(a + b) == ParamsOf(a) + ParamsOf(b)
  {
    assert forall k :: 0 <= k < |a| ==> (a + b)[k] == a[k];
    assert forall k :: |a| <= k < |a| + |b| ==> (a + b)[k] == b[k - |a|];
  }

  /** Every argument that is not a command is passed on, in order, to exactly one call, and
      nothing else is passed on. */
  lemma {:induction false} PlanFromParams(marks: seq<bool>, args: seq<Value>, cmd: string, i: nat)
    requires |marks| == |args| && i <= |args|
    ensures AllParams(PlanFrom(marks, args, cmd, i)) == ParamsOf(Unmarked(marks, args, i))
    ensures |AllParams(PlanFrom(marks, args, cmd, i))| == |args| - i - CountCmds(marks, i)
    decreases |args| - i
  {
    var j := NextCmd(marks, i);
    var p := PlanFrom(marks, args, cmd, i);
    PlanFromStep(marks, args, cmd, i);
    UnmarkedSkip(marks, args, i);
    assert AllParams(p) == p[0].1 + AllParams(p[1..]);
    ParamsOfAppend(args[i..j], Unmarked(marks, args, j));
    if j < |args| {
      PlanFromParams(marks, args, args[j].data, j + 1);
      assert Unmarked(marks, args, j) == Unmarked(marks, args, j + 1);
    } else {
      assert Unmarked(marks, args, j) == [] && p[1..] == [];
    }
  }

  /** With no command among the arguments, the search runs to the end. */
  lemma {:induction false} NoCmdsNext(marks: seq<bool>, i: nat)
    requires i <= |marks| && CountCmds(marks, i) == 0
    ensures NextCmd(marks, i) == |marks|
    decreases |marks| - i
  {
    if i < |marks| {
      NoCmdsNext(marks, i + 1);
    }
  }

  /** A single command makes at most two calls: `@OnError` for the leading arguments when
      there are some, then the first command with all the rest; without a command, one
      `@OnError` call with everything. No argument but the command is lost. */
  lemma SinglePlanShape(funcs: map<string, BindId>, args: seq<Value>)
    ensures var p := Plan(funcs, args, true);
      1 <= |p| <= 2 && |AllParams(p)| + (if CountCmds(Marks(funcs, args), 0) > 0 then 1 else 0) == |args|
    ensures CountCmds(Marks(funcs, args), 0) == 0 ==> Plan(funcs, args, true) == [(OnError, ParamsOf(args))]
  {
    var marks := Marks(funcs, args);
    var j := NextCmd(marks, 0);
    var p := Plan(funcs, args, true);
    if CountCmds(marks, 0) == 0 {
      NoCmdsNext(marks, 0);
    }
    CountCmdsSkip(marks, 0);
    if j < |args| {
      var last := (args[j].data, ParamsOf(args[j + 1..]));
      assert AllParams([last]) == last.1 + AllParams([]);
      if j > 0 {
        var first := (OnError, ParamsOf(args[..j]));
        assert p == [first, last];
        assert p[1..] == [last];
        assert AllParams(p) == first.1 + AllParams([last]);
      } else {
        assert p == [last];
      }
    } else {
      assert p[1..] == [];
    }
  }

  /** The calls of single-command `start` once the command at `j` is found. */
  lemma SingleRuns(funcs: map<string, BindId>, args: seq<Value>, j: nat, runs: seq<(string, seq<Value>)>)
    requires j == NextCmd(Marks(funcs, args), 0) && j < |args|
    requires runs == if j > 0 then [(OnError, ParamsOf(args[0..j]))] else []
    ensures runs + [(args[j].data, ParamsOf(args[j + 1..]))] == Plan(funcs, args, true)
  {
    assert args[0..j] == args[..j];
  }

  /** One more argument, one more parameter. */
  lemma ParamsOfSnoc(args: seq<Value>, i0: nat, i: nat)
    requires i0 <= i < |args|
    ensures ParamsOf(args[i0..i + 1]) == ParamsOf(args[i0..i]) + [CmdOptionValue.FromCString(args[i].data)]
  {
  }

  /** The argument loop of `start`: collects the arguments up to the next command. */
  method CollectParams(funcs: map<string, BindId>, args: seq<Value>, i0: nat) returns (params: seq<Value>, i: nat)
    requires i0 <= |args|
    ensures i == NextCmd(Marks(funcs, args), i0) && params == ParamsOf(args[i0..i])
  {
    ghost var marks := Marks(funcs, args);
    params := [];
    i := i0;
    while i < |args|
      invariant i0 <= i <= |args| && NextCmd(marks, i) == NextCmd(marks, i0)
      invariant params == ParamsOf(args[i0..i])
    {
      if IsCmd(funcs, args[i]) {
        break;
      }
      ParamsOfSnoc(args, i0, i);
      params := params + [CmdOptionValue.FromCString(args[i].data)];
      i := i + 1;
    }
  }

  /** `for (++i; i < argv; ++i) cmd_args.add(...)`: every remaining argument. */
  method CollectRest(args: seq<Value>, i0: nat) returns (params: seq<Value>)
    requires i0 <= |args|
    ensures params == ParamsOf(args[i0..])
  {
    params := [];
    var i := i0;
    while i < |args|
      invariant i0 <= i <= |args| && params == ParamsOf(args[i0..i])
    {
      ParamsOfSnoc(args, i0, i);
      params := params + [CmdOptionValue.FromCString(args[i].data)];
      i := i + 1;
    }
    assert args[i0..|args|] == args[i0..];
  }

  // ---------------------------------------------------------------- help listing

  /** `help_msg_t`: the command paths of one bound object, their joined text and the
      object's help text. */
  datatype HelpMsg = HelpMsg(cmdPaths: seq<string>, allCmds: string, description: string, binded: BindId)

  /** What `list_help_msg` sees of a dispatcher: its command names in the map's order, the
      command map and the names bound to children. */
  datatype Level = Level(names: seq<string>, funcs: map<string, BindId>, children: set<string>)

  /** Names `list_help_msg` skips: empty, or starting with `@`. */
  predicate Reserved(name: string)
  {
    name == [] || name[0] == '@'
  }

  /** The first entry for `obj`, or the end. */
  function FindEntry(msg: seq<HelpMsg>, obj: BindId, k: nat): (r: nat)
    requires k <= |msg|
    ensures k <= r <= |msg| && (r < |msg| ==> msg[r].binded == obj)
    decreases |msg| - k
  {
    if k == |msg| || msg[k].binded == obj then k else FindEntry(msg, obj, k + 1)
  }

  /** One more path for `obj`: on its entry, or on a new entry with its help text. */
  function AddPath(msg: seq<HelpMsg>, obj: BindId, description: string, path: string): (r: seq<HelpMsg>)
  {
    var k := FindEntry(msg, obj, 0);
    if k < |msg| then msg[k := msg[k].(cmdPaths := msg[k].cmdPaths + [path])]
    else msg + [HelpMsg([path], [], description, obj)]
  }

  /** `full_cmd`: the prefix, a space when there is a prefix, and the name as a C string. */
  function FullCmd(prefix: string, name: string): string
  {
    (if prefix == [] then [] else prefix + " ") + CmdOptionValue.CStringText(name)
  }

  /** `list_help_msg` from the `i`-th name on. A child dispatcher is listed in its place with
      the prefix extended by a space and its name, down to `fuel` levels; `describe` is each
      bound object's `get_help_msg()`. */
  function ListFrom(nodes: map<BindId, Level>, lv: Level, msg: seq<HelpMsg>, prefix: string, i: nat, fuel: nat,
                    describe: BindId -> string): (r: seq<HelpMsg>)
    decreases fuel, |lv.names| - i
  {
    if i >= |lv.names| then msg
    else
      var name := lv.names[i];
      if Reserved(name) || name !in lv.funcs then ListFrom(nodes, lv, msg, prefix, i + 1, fuel, describe)
      else if name in lv.children then
        var obj := lv.funcs[name];
        var inner := if fuel == 0 || obj !in nodes then msg
          else ListFrom(nodes, nodes[obj], msg, prefix + " " + CmdOptionValue.CStringText(name), 0, fuel - 1, describe);
        ListFrom(nodes, lv, inner, prefix, i + 1, fuel, describe)
      else
        var obj := lv.funcs[name];
        ListFrom(nodes, lv, AddPath(msg, obj, describe(obj), FullCmd(prefix, name)), prefix, i + 1, fuel, describe)
  }

  /** No two entries belong to the same object. */
  predicate OnePerObject(msg: seq<HelpMsg>)
  {
    forall a, b :: 0 <= a < b < |msg| ==> msg[a].binded != msg[b].binded
  }

  /** The number of paths over all entries. */
  function TotalPaths(msg: seq<HelpMsg>): nat
  {
    if msg == [] then 0 else |msg[0].cmdPaths| + TotalPaths(msg[1..])
  }

  /** The names at or after `i` that `list_help_msg` lists on this level itself. */
  function CountListed(lv: Level, i: nat): nat
    decreases |lv.names| - i
  {
    if i >= |lv.names| then 0
    else
      var name := lv.names[i];
      (if !Reserved(name) && name in lv.funcs && name !in lv.children then 1 else 0) + CountListed(lv, i + 1)
  }

  lemma {:induction false} TotalPathsUpdate(msg: seq<HelpMsg>, k: nat, path: string)
    requires k < |msg|
    ensures TotalPaths(msg[k := msg[k].(cmdPaths := msg[k].cmdPaths + [path])]) == TotalPaths(msg) + 1
    decreases |msg|
  {
    var m2 := msg[k := msg[k].(cmdPaths := msg[k].cmdPaths + [path])];
    if k > 0 {
      assert m2[1..] == msg[1..][k - 1 := msg[1..][k - 1].(cmdPaths := msg[1..][k - 1].cmdPaths + [path])];
      TotalPathsUpdate(msg[1..], k - 1, path);
    } else {
      assert m2[1..] == msg[1..];
    }
  }

  lemma {:induction false} TotalPathsAppend(msg: seq<HelpMsg>, m: HelpMsg)
    ensures TotalPaths(msg + [m]) == TotalPaths(msg) + |m.cmdPaths|
    decreases |msg|
  {
    if msg == [] {
      assert [m][1..] == [];
    } else {
      assert (msg + [m])[1..] == msg[1..] + [m];
      TotalPathsAppend(msg[1..], m);
    }
  }

  /** Adding a path adds exactly one path and keeps one entry per object. */
  lemma AddPathKeeps(msg: seq<HelpMsg>, obj: BindId, description: string, path: string)
    requires OnePerObject(msg)
    ensures OnePerObject(AddPath(msg, obj, description, path))
    ensures TotalPaths(AddPath(msg, obj, description, path)) == TotalPaths(msg) + 1
  {
    var k := FindEntry(msg, obj, 0);
    if k < |msg| {
      TotalPathsUpdate(msg, k, path);
    } else {
      FindEntryMisses(msg, obj, 0);
      TotalPathsAppend(msg, HelpMsg([path], [], description, obj));
    }
  }

  lemma {:induction false} FindEntryMisses(msg: seq<HelpMsg>, obj: BindId, k: nat)
    requires k <= |msg| && FindEntry(msg, obj, k) == |msg|
    ensures forall j :: k <= j < |msg| ==> msg[j].binded != obj
    decreases |msg| - k
  {
    if k < |msg| {
      FindEntryMisses(msg, obj, k + 1);
    }
  }

  /** `list_help_msg` keeps one entry per bound object, and on a level with no children to
      descend into it adds one path per listed name: reserved names add nothing. */
  lemma {:induction false} ListKeeps(nodes: map<BindId, Level>, lv: Level, msg: seq<HelpMsg>, prefix: string, i: nat,
                                     fuel: nat, describe: BindId -> string)
    requires OnePerObject(msg)
    ensures OnePerObject(ListFrom(nodes, lv, msg, prefix, i, fuel, describe))
    ensures fuel == 0 ==> TotalPaths(ListFrom(nodes, lv, msg, prefix, i, fuel, describe)) == TotalPaths(msg) + CountListed(lv, i)
    decreases fuel, |lv.names| - i
  {
    if i < |lv.names| {
      var name := lv.names[i];
      if Reserved(name) || name !in lv.funcs {
        ListKeeps(nodes, lv, msg, prefix, i + 1, fuel, describe);
      } else if name in lv.children {
        var obj := lv.funcs[name];
        if fuel == 0 || obj !in nodes {
          ListKeeps(nodes, lv, msg, prefix, i + 1, fuel, describe);
        } else {
          var inner := ListFrom(nodes, nodes[obj], msg, prefix + " " + CmdOptionValue.CStringText(name), 0, fuel - 1, describe);
          ListKeeps(nodes, nodes[obj], msg, prefix + " " + CmdOptionValue.CStringText(name), 0, fuel - 1, describe);
          ListKeeps(nodes, lv, inner, prefix, i + 1, fuel, describe);
        }
      } else {
        var obj := lv.funcs[name];
        var added := AddPath(msg, obj, describe(obj), FullCmd(prefix, name));
        AddPathKeeps(msg, obj, describe(obj), FullCmd(prefix, name));
        ListKeeps(nodes, lv, added, prefix, i + 1, fuel, describe);
      }
    }
  }

  /** The search loop of `list_help_msg` for the entry of an object. */
  method FindEntryOf(msg: seq<HelpMsg>, obj: BindId) returns (k: nat)
    ensures k == FindEntry(msg, obj, 0)
  {
    k := 0;
    while k < |msg|
      invariant k <= |msg| && FindEntry(msg, obj, k) == FindEntry(msg, obj, 0)
    {
      if msg[k].binded == obj {
        break;
      }
      k := k + 1;
    }
  }

  /** `list_help_msg(msg, prefix)` on a level, descending into children `fuel` levels deep. */
  method ListHelpMsg(nodes: map<BindId, Level>, lv: Level, msg0: seq<HelpMsg>, prefix: string, fuel: nat,
                     describe: BindId -> string) returns (msg: seq<HelpMsg>)
    ensures msg == ListFrom(nodes, lv, msg0, prefix, 0, fuel, describe)
    decreases fuel
  {
    msg := msg0;
    var i := 0;
    while i < |lv.names|
      invariant i <= |lv.names|
      invariant ListFrom(nodes, lv, msg, prefix, i, fuel, describe) == ListFrom(nodes, lv, msg0, prefix, 0, fuel, describe)
    {
      var name := lv.names[i];
      if name == [] || '@' == name[0] || name !in lv.funcs {
        i := i + 1;
        continue;
      }
      var obj := lv.funcs[name];
      var k := FindEntryOf(msg, obj);
      if name in lv.children {
        if fuel > 0 && obj in nodes {
          msg := ListHelpMsg(nodes, nodes[obj], msg, prefix + " " + CmdOptionValue.CStringText(name), fuel - 1, describe);
        }
        i := i + 1;
        continue;
      }
      ghost var next := AddPath(msg, obj, describe(obj), FullCmd(prefix, name));
      ghost var found := k < |msg|;
      if k == |msg| {
        msg := msg + [HelpMsg([], [], describe(obj), obj)];
      }
      var fullCmd: string := [];
      if prefix != [] {
        fullCmd := prefix + " ";
      }
      fullCmd := fullCmd + CmdOptionValue.CStringText(name);
      assert fullCmd == FullCmd(prefix, name);
      ghost var pushed := msg;
      msg := msg[k := msg[k].(cmdPaths := msg[k].cmdPaths + [fullCmd])];
      if !found {
        assert pushed[k].cmdPaths + [fullCmd] == [fullCmd];
        assert msg == pushed[..k] + [HelpMsg([fullCmd], [], describe(obj), obj)];
      }
      assert msg == next;
      i := i + 1;
    }
  }

  // ---------------------------------------------------------------- dump

  /** The paths joined with `", "`, as the `stringstream` loop of `dump` writes them. */
  function Joined(paths: seq<string>): (r: string)
  {
    if paths == [] then [] else if |paths| == 1 then paths[0] else Joined(paths[..|paths| - 1]) + ", " + paths[|paths| - 1]
  }

  /** The joining loop of `dump`. */
  method JoinPaths(paths: seq<string>) returns (r: string)
    ensures r == Joined(paths)
  {
    r := [];
    var notFirst := false;
    var i := 0;
    while i < |paths|
      invariant i <= |paths| && r == Joined(paths[..i]) && (notFirst <==> i > 0)
    {
      assert paths[..i + 1][..i] == paths[..i];
      if notFirst {
        r := r + ", ";
      }
      r := r + paths[i];
      notFirst := true;
      i := i + 1;
    }
    assert paths[..|paths|] == paths;
  }

  /** `n` spaces. */
  function Spaces(n: nat): (r: string)
    ensures |r| == n && forall k :: 0 <= k < n ==> r[k] == ' '
  {
    if n == 0 then [] else Spaces(n - 1) + " "
  }

  /** One line of `dump`, without its colours: the prefix, the commands padded to the column
      width, the help text. */
  function DumpLine(prefix: string, allCmds: string, pad: nat, description: string): string
  {
    prefix + allCmds + (if |allCmds| < pad then Spaces(pad - |allCmds|) else []) + description + "\n"
  }

  /** `dump`: joins each entry's paths and widens the command column, in steps of 4, past
      every joined text, to the narrowest such width; then writes one line per entry. */
  method Dump(msgs0: seq<HelpMsg>, prefix: string) returns (msgs: seq<HelpMsg>, lines: seq<string>, pad: nat)
    ensures |msgs| == |msgs0| && forall k :: 0 <= k < |msgs| ==> msgs[k] == msgs0[k].(allCmds := Joined(msgs0[k].cmdPaths))
    ensures pad % 4 == 0 && pad >= 4 && forall k :: 0 <= k < |msgs| ==> |msgs[k].allCmds| < pad
    ensures pad == 4 || exists k :: 0 <= k < |msgs| && pad - 4 <= |msgs[k].allCmds|
    ensures |lines| == |msgs| && forall k :: 0 <= k < |lines| ==> lines[k] == DumpLine(prefix, msgs[k].allCmds, pad, msgs[k].description)
  {
    msgs := [];
    pad := 4;
    var i := 0;
    while i < |msgs0|
      invariant i <= |msgs0| && |msgs| == i
      invariant forall k :: 0 <= k < i ==> msgs[k] == msgs0[k].(allCmds := Joined(msgs0[k].cmdPaths))
      invariant pad % 4 == 0 && pad >= 4 && forall k :: 0 <= k < i ==> |msgs[k].allCmds| < pad
      invariant pad == 4 || exists k :: 0 <= k < i && pad - 4 <= |msgs[k].allCmds|
    {
      var all := JoinPaths(msgs0[i].cmdPaths);
      msgs := msgs + [msgs0[i].(allCmds := all)];
      if |all| >= pad {
        pad := (|all| / 4 + 1) * 4;
        assert pad - 4 <= |msgs[i].allCmds|;
      }
      i := i + 1;
    }
    lines := DumpLines(msgs, prefix, pad);
  }

  /** The writing loop of `dump`: one line per entry. */
  method DumpLines(msgs: seq<HelpMsg>, prefix: string, pad: nat) returns (lines: seq<string>)
    ensures |lines| == |msgs| && forall k :: 0 <= k < |lines| ==> lines[k] == DumpLine(prefix, msgs[k].allCmds, pad, msgs[k].description)
  {
    lines := [];
    var i := 0;
    while i < |msgs|
      invariant i <= |msgs| && |lines| == i
      invariant forall k :: 0 <= k < i ==> lines[k] == DumpLine(prefix, msgs[k].allCmds, pad, msgs[k].description)
    {
      lines := lines + [DumpLine(prefix, msgs[i].allCmds, pad, msgs[i].description)];
      i := i + 1;
    }
  }

  /** Every line of `dump` has its description start right after the column. */
  lemma DumpLineColumn(prefix: string, allCmds: string, pad: nat, description: string)
    requires |allCmds| < pad
    ensures DumpLine(prefix, allCmds, pad, description)[..|prefix| + |allCmds|] == prefix + allCmds
    ensures forall k :: |prefix| + |allCmds| <= k < |prefix| + pad ==> DumpLine(prefix, allCmds, pad, description)[k] == ' '
    ensures DumpLine(prefix, allCmds, pad, description)[|prefix| + pad..] == description + "\n"
  {
    var head := prefix + allCmds + Spaces(pad - |allCmds|);
    assert |head| == |prefix| + pad;
    assert DumpLine(prefix, allCmds, pad, description) == head + (description + "\n");
  }

  // ---------------------------------------------------------------- the dispatcher

  class Bind {
    /** `callback_funcs_`. */
    var funcs: map<string, BindId>
    /** `callback_children_`. */
    var children: map<string, BindId>
    var helpCmdStyle: int
    var helpDescriptionStyle: int
    /** The id of this dispatcher, what `shared_from_this()` returns. */
    const self: BindId

    /** `create()`: nothing bound, bold yellow commands in the help. The character tables the
        constructor fills are the fixed classes of `CmdSegment`. */
    constructor(id: BindId)
      ensures self == id && funcs == map[] && children == map[]
      ensures helpCmdStyle == DefaultHelpCmdStyle && helpDescriptionStyle == 0
    {
      self := id;
      funcs := map[];
      children := map[];
      helpCmdStyle := DefaultHelpCmdStyle;
      helpDescriptionStyle := 0;
    }

    /** `run_cmd(cmd_content, params)`: puts the root entry on an empty command stack, then
        pushes the command and hands `params` to the object `Dispatch` picks. */
    method RunCmd(cmd: string, params: CmdList.List) returns (called: Option<Call>)
      modifies params
      ensures called == Dispatch(funcs, self, cmd, old(params.keys), old(params.cmdArray))
      ensures called.Some? ==> params.keys == called.value.params && params.cmdArray == called.value.cmdArray
      ensures called.None? ==> params.keys == old(params.keys) && params.cmdArray == WithRoot(old(params.cmdArray), self)
      ensures params.keyValue == old(params.keyValue) && params.extParam == old(params.extParam)
    {
      LiteralTexts();
      ghost var stack := WithRoot(params.cmdArray, self);
      if params.cmdArray == [] {
        params.AppendCmd(RootNodeCmd, self);
      }
      assert params.cmdArray == stack && params.keys == old(params.keys);
      if cmd !in funcs {
        if cmd == OnDefault {
          return None;
        }
        if OnError !in funcs {
          return None;
        }
        var target := funcs[OnError];
        params.Add(ErrorMsgParam);
        params.AppendCmd(cmd, target);
        return Some(Call(target, params.keys, params.cmdArray));
      }
      var target := funcs[cmd];
      params.AppendCmd(cmd, target);
      return Some(Call(target, params.keys, params.cmdArray));
    }

    /** `start(args, is_single_cmd)`: the `run_cmd` calls, in order, each with a fresh list
        holding the caller's command stack and extra parameter. */
    method Start(args: seq<Value>, isSingle: bool) returns (runs: seq<(string, seq<Value>)>)
      ensures runs == Plan(funcs, args, isSingle)
    {
      var argv := |args|;
      var cmdContent := if isSingle then OnError else OnDefault;
      ghost var marks := Marks(funcs, args);
      ghost var target := Plan(funcs, args, isSingle);
      runs := [];
      var i: int := -1;
      while i < argv
        invariant -1 <= i < argv
        invariant isSingle ==> i == -1 && runs == [] && cmdContent == OnError
        invariant !isSingle ==> runs + PlanFrom(marks, args, cmdContent, i + 1) == target
        decreases argv - i
      {
        i := i + 1;
        ghost var from: nat := i;
        ghost var before := runs;
        ghost var current := cmdContent;
        var cmdArgs, j := CollectParams(funcs, args, i);
        if isSingle && j < argv {
          if |cmdArgs| > 0 {
            runs := runs + [(cmdContent, cmdArgs)];
            cmdArgs := [];
          }
          cmdContent := args[j].data;
          cmdArgs := CollectRest(args, j + 1);
          SingleRuns(funcs, args, j, runs);
          j := argv;
        } else if isSingle {
          assert args[0..j] == args;
        }
        i := j;
        runs := runs + [(cmdContent, cmdArgs)];
        if !isSingle {
          PlanFromNext(marks, args, current, from, j, before, runs, target);
        }
        if i >= argv {
          break;
        }
        cmdContent := args[i].data;
      }
    }

    /** `start(cmd_content)` on a whole command line: cut into segments, each passed on as an
        argument. */
    method StartText(text: string, isSingle: bool) returns (runs: seq<(string, seq<Value>)>)
      ensures runs == Plan(funcs, Segments(text, 0), isSingle)
    {
      var args: seq<Value> := [];
      var p := 0;
      while At(text, p) != NUL
        invariant p <= |text| + 1 && args + Segments(text, p) == Segments(text, 0)
        decreases |text| + 1 - p
      {
        var seg, next := CmdSegment.GetSegment(text, p);
        SegmentsStep(text, p);
        args := args + [CmdOptionValue.FromCString(seg)];
        p := next;
      }
      assert Segments(text, p) == [];
      assert args == Segments(text, 0);
      runs := Start(args, isSingle);
    }

    /** `bind_cmd(cmd_content, fn)` as written: every name of `split_cmd(cmd_content)` now
        runs `fn`; the children map is left alone. */
    method BindCmdAsWritten(content: string, fn: BindId)
      modifies this
      ensures forall c :: c in funcs <==> c in old(funcs) || c in CmdSegment.Names(content, 0)
      ensures forall c :: c in funcs ==> funcs[c] == if c in CmdSegment.Names(content, 0) then fn else old(funcs)[c]
      ensures children == old(children)
      ensures helpCmdStyle == old(helpCmdStyle) && helpDescriptionStyle == old(helpDescriptionStyle)
    {
      var cmds := CmdSegment.SplitCmd(content);
      var index := 0;
      while index < |cmds|
        invariant index <= |cmds|
        invariant forall c :: c in funcs <==> c in old(funcs) || c in cmds[..index]
        invariant forall c :: c in funcs ==> funcs[c] == if c in cmds[..index] then fn else old(funcs)[c]
        invariant children == old(children)
        invariant helpCmdStyle == old(helpCmdStyle) && helpDescriptionStyle == old(helpDescriptionStyle)
      {
        assert cmds[..index + 1] == cmds[..index] + [cmds[index]];
        funcs := funcs[cmds[index] := fn];
        index := index + 1;
      }
      assert cmds[..|cmds|] == cmds;
    }

    /** `bind_cmd(cmd_content, fn)` as intended: every name of `split_cmd(cmd_content)` now
        runs `fn`, and no longer names a child dispatcher. */
    method BindCmd(content: string, fn: BindId)
      modifies this
      ensures forall c :: c in funcs <==> c in old(funcs) || c in CmdSegment.Names(content, 0)
      ensures forall c :: c in funcs ==> funcs[c] == if c in CmdSegment.Names(content, 0) then fn else old(funcs)[c]
      ensures forall c :: c in children <==> c in old(children) && c !in CmdSegment.Names(content, 0)
      ensures forall c :: c in children ==> children[c] == old(children)[c]
      ensures helpCmdStyle == old(helpCmdStyle) && helpDescriptionStyle == old(helpDescriptionStyle)
    {
      var cmds := CmdSegment.SplitCmd(content);
      var index := 0;
      while index < |cmds|
        invariant index <= |cmds|
        invariant forall c :: c in funcs <==> c in old(funcs) || c in cmds[..index]
        invariant forall c :: c in funcs ==> funcs[c] == if c in cmds[..index] then fn else old(funcs)[c]
        invariant forall c :: c in children <==> c in old(children) && c !in cmds[..index]
        invariant forall c :: c in children ==> children[c] == old(children)[c]
        invariant helpCmdStyle == old(helpCmdStyle) && helpDescriptionStyle == old(helpDescriptionStyle)
      {
        assert cmds[..index + 1] == cmds[..index] + [cmds[index]];
        funcs := funcs[cmds[index] := fn];
        children := children - {cmds[index]};
        index := index + 1;
      }
      assert cmds[..|cmds|] == cmds;
    }

    /** `bind_child_cmd(cmd_content, node)`: every name now runs the child dispatcher `node`
        and is listed as a child. */
    method BindChildCmd(content: string, node: BindId)
      modifies this
      ensures forall c :: c in funcs <==> c in old(funcs) || c in CmdSegment.Names(content, 0)
      ensures forall c :: c in funcs ==> funcs[c] == if c in CmdSegment.Names(content, 0) then node else old(funcs)[c]
      ensures forall c :: c in children <==> c in old(children) || c in CmdSegment.Names(content, 0)
      ensures forall c :: c in children ==> children[c] == if c in CmdSegment.Names(content, 0) then node else old(children)[c]
      ensures helpCmdStyle == old(helpCmdStyle) && helpDescriptionStyle == old(helpDescriptionStyle)
    {
      var cmds := CmdSegment.SplitCmd(content);
      var index := 0;
      while index < |cmds|
        invariant index <= |cmds|
        invariant forall c :: c in funcs <==> c in old(funcs) || c in cmds[..index]
        invariant forall c :: c in funcs ==> funcs[c] == if c in cmds[..index] then node else old(funcs)[c]
        invariant forall c :: c in children <==> c in old(children) || c in cmds[..index]
        invariant forall c :: c in children ==> children[c] == if c in cmds[..index] then node else old(children)[c]
        invariant helpCmdStyle == old(helpCmdStyle) && helpDescriptionStyle == old(helpDescriptionStyle)
      {
        assert cmds[..index + 1] == cmds[..index] + [cmds[index]];
        funcs := funcs[cmds[index] := node];
        children := children[cmds[index] := node];
        index := index + 1;
      }
      assert cmds[..|cmds|] == cmds;
    }

    /** `unbind_cmd(cmd_content)`: the name leaves both maps. */
    method UnbindCmd(content: string)
      modifies this
      ensures funcs == old(funcs) - {content} && children == old(children) - {content}
      ensures helpCmdStyle == old(helpCmdStyle) && helpDescriptionStyle == old(helpDescriptionStyle)
    {
      funcs := funcs - {content};
      children := children - {content};
    }

    /** `unbind_all_cmd`. */
    method UnbindAllCmd()
      modifies this
      ensures funcs == map[] && children == map[]
      ensures helpCmdStyle == old(helpCmdStyle) && helpDescriptionStyle == old(helpDescriptionStyle)
    {
      funcs := map[];
      children := map[];
    }

    /** `get_binded_cmd(cmd_name)`: the bound object, `None` for the null pointer. */
    function GetBindedCmd(name: string): (r: Option<BindId>)
      reads this
      ensures r.Some? <==> CmdOptionValue.CStringText(name) in funcs
    {
      var key := CmdOptionValue.CStringText(name);
      if key in funcs then Some(funcs[key]) else None
    }
  }

  /** The text a command line is cut into by `start`: segment after segment, as `get_segment`
      is written, until a NUL is read. After an unclosed quote the position is one past the
      terminator, where the model reads another NUL. */
  function Segments(text: string, p: nat): (r: seq<Value>)
    requires p <= |text| + 1
    decreases |text| + 1 - p
  {
    if At(text, p) == NUL then []
    else
      CmdSegment.SegmentAsWrittenProgress(text, p);
      var s := CmdSegment.SegmentAsWritten(text, p);
      [CmdOptionValue.FromCString(s.0)] + Segments(text, s.1)
  }

  lemma SegmentsStep(text: string, p: nat)
    requires p <= |text| && At(text, p) != NUL
    ensures p < CmdSegment.SegmentAsWritten(text, p).1 <= |text| + 1
    ensures Segments(text, p)
            == [CmdOptionValue.FromCString(CmdSegment.SegmentAsWritten(text, p).0)]
               + Segments(text, CmdSegment.SegmentAsWritten(text, p).1)
  {
    CmdSegment.SegmentAsWrittenProgress(text, p);
  }

  /** Rebinding a child's name with `bind_cmd` as written leaves the name in the children
      map, pointing at the child, while the command map points at the new callback: the help
      listing then treats the callback as a dispatcher. Unbinding does remove both. */
  method StaleChildScenario(id: BindId, child: BindId, fn: BindId, name: string)
    returns (asWritten: Bind, intended: Bind)
    requires child != fn && CmdSegment.Names(name, 0) == [name]
    ensures name in asWritten.children && asWritten.children[name] == child
    ensures name in asWritten.funcs && asWritten.funcs[name] == fn
    ensures name !in intended.children && name in intended.funcs && intended.funcs[name] == fn
  {
    asWritten := new Bind(id);
    asWritten.BindChildCmd(name, child);
    asWritten.BindCmdAsWritten(name, fn);
    intended := new Bind(id);
    intended.BindChildCmd(name, child);
    intended.BindCmd(name, fn);
  }
}
