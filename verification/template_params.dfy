/** The template-parameter text generators of include/libcotask/core/util.php, which write the
    allocator overloads for each arity. PHP's `"$i"` is the decimal numeral of `i`, `empty($s)`
    holds for "" and "0", and `PHP_EOL` is the line feed of the Unix build. */
module TemplateParams {
  import StringOprs
  import Text

  /** `$max_param_number`: overloads are generated for 0 to 9 parameters. */
  const MaxParamNumber: nat := 10

  /** PHP's line end on the Unix build. */
  const Eol: char := '\n'

  /** PHP `empty()` on a string. */
  predicate PhpEmpty(s: string)
  {
    s == [] || s == "0"
  }

  function Num(i: nat): string
  {
    StringOprs.Decimal(i)
  }

  // ---------------------------------------------------------------- gen_template_params_comment

  /** The text of the comment line for parameter `i`. */
  function LineText(i: nat, indent: string, msg: string): string
  {
    indent + " * @param arg" + Num(i) + " " + msg + " parameter " + Num(i)
  }

  /** The comment line for parameter `i`, with its line end. */
  function CommentLine(i: nat, indent: string, msg: string): string
  {
    LineText(i, indent, msg) + [Eol]
  }

  /** The comment lines for parameters 0 to n-1, one after the other. */
  function Comment(n: nat, indent: string, msg: string): (r: string)
  {
    if n == 0 then [] else Comment(n - 1, indent, msg) + CommentLine(n - 1, indent, msg)
  }

  /** `gen_template_params_comment`. */
  method GenComment(n: nat, indent: string, msg: string) returns (ret: string)
    ensures ret == Comment(n, indent, msg)
  {
    ret := "";
    var i := 0;
    while i < n
      invariant i <= n && ret == Comment(i, indent, msg)
    {
      ret := ret + CommentLine(i, indent, msg);
      i := i + 1;
    }
  }

  /** Numerals have no line feed. */
  lemma NumHasNoEol(i: nat)
    ensures Eol !in Num(i)
  {
    var d := Num(i);
    forall k | 0 <= k < |d| ensures d[k] != Eol {
      assert StringOprs.IsDigit(d[k], 10);
    }
  }

  /** With an indent and a message free of line feeds, the comment is exactly `n` lines, line
      `i` documenting `argi`, each ended by `PHP_EOL`. */
  lemma {:induction false} CommentLines(n: nat, indent: string, msg: string)
    requires Eol !in indent && Eol !in msg
    ensures Text.Split(Comment(n, indent, msg), Eol) == Lines(n, indent, msg) + [[]]
  {
    if n > 0 {
      CommentLines(n - 1, indent, msg);
      var lines := Lines(n - 1, indent, msg);
      var body := LineText(n - 1, indent, msg);
      LineTextHasNoEol(n - 1, indent, msg);
      var before := Comment(n - 1, indent, msg);
      assert (lines + [[]])[..|lines|] == lines;
      SplitTail(before, body);
      assert Text.Split(before + body + [Eol], Eol) == lines + [body] + [[]];
      CommentStep(n - 1, indent, msg);
      assert Lines(n, indent, msg) == lines + [body];
    }
  }

  lemma CommentStep(i: nat, indent: string, msg: string)
    ensures Comment(i + 1, indent, msg) == Comment(i, indent, msg) + LineText(i, indent, msg) + [Eol]
  {
  }

  /** The texts of the lines for parameters 0 to n-1. */
  function Lines(n: nat, indent: string, msg: string): (r: seq<string>)
    ensures |r| == n && forall i :: 0 <= i < n ==> r[i] == LineText(i, indent, msg)
  {
    if n == 0 then [] else Lines(n - 1, indent, msg) + [LineText(n - 1, indent, msg)]
  }

  lemma LineTextHasNoEol(i: nat, indent: string, msg: string)
    requires Eol !in indent && Eol !in msg
    ensures Eol !in LineText(i, indent, msg)
  {
    NumHasNoEol(i);
  }

  /** Appending a separator-free piece and a line end to a text whose last piece is empty
      turns that piece into the new one and opens an empty piece after it. */
  lemma {:induction false} SplitTail(before: string, body: string)
    requires Eol !in body
    requires Text.Split(before, Eol)[|Text.Split(before, Eol)| - 1] == []
    ensures Text.Split(before + body + [Eol], Eol) ==
      Text.Split(before, Eol)[..|Text.Split(before, Eol)| - 1] + [body] + [[]]
  {
    var parts := Text.Split(before, Eol);
    if before == [] {
      Text.SplitAt(body, [], Eol);
      Text.SplitWithout(body, Eol);
      assert before + body + [Eol] == body + [Eol] + [];
    } else if before[|before| - 1] == Eol {
      var head := before[..|before| - 1];
      assert before == head + [Eol] + [];
      Text.SplitAt(head, [], Eol);
      Text.SplitAt(head, body, Eol);
      Text.SplitAt(head + [Eol] + body, [], Eol);
      Text.SplitWithout(body, Eol);
      assert before + body + [Eol] == (head + [Eol] + body) + [Eol] + [];
    } else {
      LastPieceOf(before);
    }
  }

  /** The last piece of a text that does not end in a line end is not empty. */
  lemma {:induction false} LastPieceOf(s: string)
    requires s != [] && s[|s| - 1] != Eol
    ensures Text.Split(s, Eol)[|Text.Split(s, Eol)| - 1] != []
  {
    if |s| > 1 {
      LastPieceOf(s[1..]);
    }
  }

  // ---------------------------------------------------------------- gen_template_params_typename

  /** Item `i` of the `typename` list: the prefix goes before the first one, the items after
      it follow a ','. */
  function TypenameItem(i: nat, prefix: string): string
  {
    (if i == 0 then prefix else " ") + "typename TARG" + Num(i)
  }

  /** The first `n` items, each after a ','. */
  function Typename(n: nat, prefix: string): (r: string)
  {
    Text.Join(seq(n, i requires 0 <= i < n => TypenameItem(i, prefix)), ',')
  }

  /** One more item: the first stands alone, the others follow the text so far. */
  lemma TypenameStep(i: nat, prefix: string)
    ensures Typename(i + 1, prefix) == if i == 0 then prefix + "typename TARG" + Num(i) else Typename(i, prefix) + ", typename TARG" + Num(i)
    ensures |Typename(i + 1, prefix)| > 1
  {
    TypenameSnoc(i, prefix);
    if i > 0 {
      assert ", typename TARG" + Num(i) == [','] + TypenameItem(i, prefix);
    }
  }

  lemma TypenameSnoc(i: nat, prefix: string)
    ensures Typename(i + 1, prefix) == if i == 0 then TypenameItem(0, prefix) else Typename(i, prefix) + [','] + TypenameItem(i, prefix)
  {
    var items := seq(i, k requires 0 <= k < i => TypenameItem(k, prefix));
    assert seq(i + 1, k requires 0 <= k < i + 1 => TypenameItem(k, prefix)) == items + [TypenameItem(i, prefix)];
    Text.JoinSnoc(items, TypenameItem(i, prefix), ',');
  }

  /** `gen_template_params_typename`: the first item replaces the empty text, the others are
      appended after ", ". */
  method GenTypename(n: nat, prefix: string) returns (ret: string)
    ensures ret == Typename(n, prefix)
    ensures ret == [] <==> n == 0
  {
    ret := "";
    var i := 0;
    while i < n
      invariant i <= n && ret == Typename(i, prefix)
      invariant i > 0 ==> |ret| > 1
    {
      TypenameStep(i, prefix);
      if PhpEmpty(ret) {
        ret := prefix + "typename TARG" + Num(i);
      } else {
        ret := ret + ", typename TARG" + Num(i);
      }
      i := i + 1;
    }
  }

  /** Split at ',' the list reads back as its `n` items, when the prefix has no ','. */
  lemma TypenameItems(n: nat, prefix: string)
    requires n > 0 && ',' !in prefix
    ensures Text.Split(Typename(n, prefix), ',') == seq(n, i requires 0 <= i < n => TypenameItem(i, prefix))
  {
    var items := seq(n, i requires 0 <= i < n => TypenameItem(i, prefix));
    forall k | 0 <= k < n ensures ',' !in items[k] {
      NumHasNoComma(k);
    }
    Text.SplitJoin(items, ',');
  }

  lemma NumHasNoComma(i: nat)
    ensures ',' !in Num(i)
  {
    var d := Num(i);
    forall k | 0 <= k < |d| ensures d[k] != ',' {
      assert StringOprs.IsDigit(d[k], 10);
    }
  }

  // ---------------------------------------------------------------- gen_template_params_type_param

  /** Item `i` of a parameter declaration list: `TARGi argi`, after the prefix and the
      qualifier for the first, after the qualifier and a space for the others. */
  function TypeParamItem(i: nat, prefix: string, vol: string): string
  {
    (if i == 0 then prefix + vol else vol + " ") + "TARG" + Num(i) + " arg" + Num(i)
  }

  function TypeParam(n: nat, prefix: string, vol: string): (r: string)
  {
    Text.Join(seq(n, i requires 0 <= i < n => TypeParamItem(i, prefix, vol)), ',')
  }

  /** One more item: the first stands alone, the others follow the text so far. */
  lemma TypeParamStep(i: nat, prefix: string, vol: string)
    ensures TypeParam(i + 1, prefix, vol) == if i == 0 then prefix + vol + "TARG" + Num(i) + " arg" + Num(i) else TypeParam(i, prefix, vol) + "," + vol + " TARG" + Num(i) + " arg" + Num(i)
    ensures |TypeParam(i + 1, prefix, vol)| > 1
  {
    TypeParamSnoc(i, prefix, vol);
    if i > 0 {
      assert "," + vol + " TARG" + Num(i) + " arg" + Num(i) == [','] + TypeParamItem(i, prefix, vol);
    }
  }

  lemma TypeParamSnoc(i: nat, prefix: string, vol: string)
    ensures TypeParam(i + 1, prefix, vol) == if i == 0 then TypeParamItem(0, prefix, vol) else TypeParam(i, prefix, vol) + [','] + TypeParamItem(i, prefix, vol)
  {
    var items := seq(i, k requires 0 <= k < i => TypeParamItem(k, prefix, vol));
    assert seq(i + 1, k requires 0 <= k < i + 1 => TypeParamItem(k, prefix, vol)) == items + [TypeParamItem(i, prefix, vol)];
    Text.JoinSnoc(items, TypeParamItem(i, prefix, vol), ',');
  }

  /** `gen_template_params_type_param`. */
  method GenTypeParam(n: nat, prefix: string, vol: string) returns (ret: string)
    ensures ret == TypeParam(n, prefix, vol)
    ensures ret == [] <==> n == 0
  {
    ret := "";
    var i := 0;
    while i < n
      invariant i <= n && ret == TypeParam(i, prefix, vol)
      invariant i > 0 ==> |ret| > 1
    {
      TypeParamStep(i, prefix, vol);
      if PhpEmpty(ret) {
        ret := prefix + vol + "TARG" + Num(i) + " arg" + Num(i);
      } else {
        ret := ret + "," + vol + " TARG" + Num(i) + " arg" + Num(i);
      }
      i := i + 1;
    }
  }

  /** Split at ',' the declarations read back as the `n` items, when the prefix and the
      qualifier have no ','. */
  lemma TypeParamItems(n: nat, prefix: string, vol: string)
    requires n > 0 && ',' !in prefix && ',' !in vol
    ensures Text.Split(TypeParam(n, prefix, vol), ',') == seq(n, i requires 0 <= i < n => TypeParamItem(i, prefix, vol))
  {
    var items := seq(n, i requires 0 <= i < n => TypeParamItem(i, prefix, vol));
    forall k | 0 <= k < n ensures ',' !in items[k] {
      NumHasNoComma(k);
    }
    Text.SplitJoin(items, ',');
  }

  // ---------------------------------------------------------------- gen_template_params_use_param

  /** Item `i` of an argument list: `argi`, after the prefix and the qualifier for the first,
      after the qualifier and a space for the others. */
  function UseParamItem(i: nat, prefix: string, vol: string): string
  {
    (if i == 0 then prefix + vol else vol + " ") + "arg" + Num(i)
  }

  function UseParam(n: nat, prefix: string, vol: string): (r: string)
  {
    Text.Join(seq(n, i requires 0 <= i < n => UseParamItem(i, prefix, vol)), ',')
  }

  /** One more item: the first stands alone, the others follow the text so far. */
  lemma UseParamStep(i: nat, prefix: string, vol: string)
    ensures UseParam(i + 1, prefix, vol) == if i == 0 then prefix + vol + "arg" + Num(i) else UseParam(i, prefix, vol) + "," + vol + " arg" + Num(i)
    ensures |UseParam(i + 1, prefix, vol)| > 1
  {
    UseParamSnoc(i, prefix, vol);
    if i > 0 {
      assert "," + vol + " arg" + Num(i) == [','] + UseParamItem(i, prefix, vol);
    }
  }

  lemma UseParamSnoc(i: nat, prefix: string, vol: string)
    ensures UseParam(i + 1, prefix, vol) == if i == 0 then UseParamItem(0, prefix, vol) else UseParam(i, prefix, vol) + [','] + UseParamItem(i, prefix, vol)
  {
    var items := seq(i, k requires 0 <= k < i => UseParamItem(k, prefix, vol));
    assert seq(i + 1, k requires 0 <= k < i + 1 => UseParamItem(k, prefix, vol)) == items + [UseParamItem(i, prefix, vol)];
    Text.JoinSnoc(items, UseParamItem(i, prefix, vol), ',');
  }

  /** `gen_template_params_use_param`. */
  method GenUseParam(n: nat, prefix: string, vol: string) returns (ret: string)
    ensures ret == UseParam(n, prefix, vol)
    ensures ret == [] <==> n == 0
  {
    ret := "";
    var i := 0;
    while i < n
      invariant i <= n && ret == UseParam(i, prefix, vol)
      invariant i > 0 ==> |ret| > 1
    {
      UseParamStep(i, prefix, vol);
      if PhpEmpty(ret) {
        ret := prefix + vol + "arg" + Num(i);
      } else {
        ret := ret + "," + vol + " arg" + Num(i);
      }
      i := i + 1;
    }
  }

  /** Split at ',' the arguments read back as the `n` items, when the prefix and the
      qualifier have no ','. */
  lemma UseParamItems(n: nat, prefix: string, vol: string)
    requires n > 0 && ',' !in prefix && ',' !in vol
    ensures Text.Split(UseParam(n, prefix, vol), ',') == seq(n, i requires 0 <= i < n => UseParamItem(i, prefix, vol))
  {
    var items := seq(n, i requires 0 <= i < n => UseParamItem(i, prefix, vol));
    forall k | 0 <= k < n ensures ',' !in items[k] {
      NumHasNoComma(k);
    }
    Text.SplitJoin(items, ',');
  }

  /** Below the generated bound every index is a single digit, so every `TARGi` and `argi` of
      a generated overload has a one-character number. */
  lemma SingleDigitIndices(i: nat)
    requires i < MaxParamNumber
    ensures |Num(i)| == 1 && '0' <= Num(i)[0] <= '9'
  {
  }
}
