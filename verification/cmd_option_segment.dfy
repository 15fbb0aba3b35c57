/** The tokenizer of the command-line binder (cli/cmd_option.h): the character tables that the
    first binder's constructor fills, `get_segment`, which reads one shell-like word starting at
    a position of a C string, and `split_cmd`, which cuts a list of command names.

    Strings are C strings as `CString` reads them. A returned position is the pointer
    `get_segment` hands back, as an index into the same string. */
module CmdSegment {
  import opened CString

  /** `SPLITCHAR`: the word separators. */
  predicate IsSplitChar(c: char)
  {
    c == ' ' || c == '\t' || c == '\r' || c == '\n'
  }

  /** `STRINGSYM`: the two quote characters. */
  predicate IsStringSym(c: char)
  {
    c == '\'' || c == '"'
  }

  /** `TRANSLATE`: the escape character. */
  predicate IsTranslate(c: char)
  {
    c == '\\'
  }

  /** `CMDSPLIT`: what separates command names in a binding. */
  predicate IsCmdSplit(c: char)
  {
    c == ' ' || c == ',' || c == ';'
  }

  /** `trans_value_`: what an escaped character stands for. Every character stands for itself
      except the eight C escape letters. */
  function TransValue(c: char): (r: char)
    ensures c !in "0abfrntv" ==> r == c
    ensures c in "0abfrntv" ==> r in "\0\U{7}\U{8}\U{C}\r\n\t\U{B}"
  {
    match c
    case '0' => '\0'
    case 'a' => '\U{7}'
    case 'b' => '\U{8}'
    case 'f' => '\U{C}'
    case 'r' => '\r'
    case 'n' => '\n'
    case 't' => '\t'
    case 'v' => '\U{B}'
    case _ => c
  }

  // ---------------------------------------------------------------- get_segment

  /** The first position at or after `i` that is not a separator. */
  function SkipSplit(s: string, i: nat): (r: nat)
    ensures i <= r && (i <= |s| ==> r <= |s|)
    ensures At(s, r) == NUL || !IsSplitChar(At(s, r))
    decreases |s| - i
  {
    if At(s, i) != NUL && IsSplitChar(At(s, i)) then SkipSplit(s, i + 1) else i
  }

  /** The end of the unquoted run starting at `i`: the first terminator, separator or quote. */
  function WordEnd(s: string, i: nat): (r: nat)
    ensures i <= r && (i <= |s| ==> r <= |s|)
    decreases |s| - i
  {
    if At(s, i) != NUL && !IsSplitChar(At(s, i)) && !IsStringSym(At(s, i)) then WordEnd(s, i + 1) else i
  }

  /** The text of a quoted section whose opening quote `q` lies before `i`, and the position of
      its closing quote (or of the terminator when it is not closed). An escape character that
      is not the last one before the terminator takes the next character through
      `TransValue`; the last one is kept as it is. */
  function QuoteBody(s: string, i: nat, q: char): (r: (string, nat))
    ensures i <= r.1 && (i <= |s| ==> r.1 <= |s|)
    ensures At(s, r.1) == NUL || At(s, r.1) == q
    decreases |s| - i
  {
    if At(s, i) == NUL || At(s, i) == q then ([], i)
    else if IsTranslate(At(s, i)) && At(s, i + 1) != NUL then
      var rest := QuoteBody(s, i + 2, q);
      ([TransValue(s[i + 1])] + rest.0, rest.1)
    else
      var rest := QuoteBody(s, i + 1, q);
      ([s[i]] + rest.0, rest.1)
  }

  /** The word `get_segment` reads from position `from`, and where the unread text starts: the
      separators before it are skipped, then an unquoted run is taken verbatim, then a quoted
      section (if one follows) ends the word, then the separators after it are skipped. A quote
      that is never closed ends the word at the terminator. */
  function Segment(s: string, from: nat): (r: (string, nat))
    requires from <= |s|
  {
    var a := SkipSplit(s, from);
    var b := WordEnd(s, a);
    if IsStringSym(At(s, b)) then
      var body := QuoteBody(s, b + 1, s[b]);
      var close := body.1;
      (s[a..b] + body.0, SkipSplit(s, if At(s, close) != NUL then close + 1 else close))
    else
      (s[a..b], SkipSplit(s, b))
  }

  /** `get_segment` as the source writes it: after a quoted section the pointer is stepped
      once more whether it rests on the closing quote or on the terminator. */
  function SegmentAsWritten(s: string, from: nat): (r: (string, nat))
    requires from <= |s|
  {
    var a := SkipSplit(s, from);
    var b := WordEnd(s, a);
    if IsStringSym(At(s, b)) then
      var body := QuoteBody(s, b + 1, s[b]);
      (s[a..b] + body.0, SkipSplit(s, body.1 + 1))
    else
      (s[a..b], SkipSplit(s, b))
  }

  lemma {:induction false} SkipSplitBounds(s: string, i: nat)
    ensures i <= SkipSplit(s, i)
    ensures i <= |s| ==> SkipSplit(s, i) <= |s|
    ensures At(s, SkipSplit(s, i)) == NUL || !IsSplitChar(At(s, SkipSplit(s, i)))
    ensures forall k :: i <= k < SkipSplit(s, i) ==> IsSplitChar(s[k])
    decreases |s| - i
  {
    if At(s, i) != NUL && IsSplitChar(At(s, i)) {
      SkipSplitBounds(s, i + 1);
    }
  }

  lemma {:induction false} WordEndBounds(s: string, i: nat)
    requires i <= |s|
    ensures i <= WordEnd(s, i) <= |s|
    ensures forall k :: i <= k < WordEnd(s, i) ==> s[k] != NUL && !IsSplitChar(s[k]) && !IsStringSym(s[k])
    ensures WordEnd(s, i) < |s| ==> s[WordEnd(s, i)] == NUL || IsSplitChar(s[WordEnd(s, i)]) || IsStringSym(s[WordEnd(s, i)])
    decreases |s| - i
  {
    if At(s, i) != NUL && !IsSplitChar(At(s, i)) && !IsStringSym(At(s, i)) {
      WordEndBounds(s, i + 1);
    }
  }

  /** Where the corrected `get_segment` stops: never past the terminator, never on a
      separator, and strictly beyond `from` whenever there was text to read, so the loop in
      `start` that calls it until the terminator ends. */
  lemma SegmentProgress(s: string, from: nat)
    requires from <= |s|
    ensures from <= Segment(s, from).1 <= |s|
    ensures At(s, Segment(s, from).1) == NUL || !IsSplitChar(At(s, Segment(s, from).1))
    ensures At(s, from) != NUL ==> from < Segment(s, from).1
  {
    var a := SkipSplit(s, from);
    SkipSplitBounds(s, from);
    WordEndBounds(s, a);
    var b := WordEnd(s, a);
    if IsStringSym(At(s, b)) {
      var close := QuoteBody(s, b + 1, s[b]).1;
      SkipSplitBounds(s, if At(s, close) != NUL then close + 1 else close);
    } else {
      SkipSplitBounds(s, b);
    }
  }

  /** The two readings of `get_segment` cut the same word, and rest on the same position
      except after a quoted section that is never closed: there the corrected reading stops on
      the terminator that ended the section, while the source's steps over it and goes on
      skipping separators in whatever follows. */
  lemma SegmentAsWrittenAgrees(s: string, from: nat)
    requires from <= |s|
    ensures SegmentAsWritten(s, from).0 == Segment(s, from).0
    ensures var b := WordEnd(s, SkipSplit(s, from));
      if IsStringSym(At(s, b)) && At(s, QuoteBody(s, b + 1, s[b]).1) == NUL then
        var close := QuoteBody(s, b + 1, s[b]).1;
        Segment(s, from).1 == close && SegmentAsWritten(s, from).1 == SkipSplit(s, close + 1) > close
      else
        SegmentAsWritten(s, from).1 == Segment(s, from).1
  {
    var a := SkipSplit(s, from);
    WordEndBounds(s, a);
  }

  /** Where `get_segment` as written stops: at most one past the end of the text, and strictly
      beyond `from` whenever there was text to read, so the loop in `start` still ends. */
  lemma SegmentAsWrittenProgress(s: string, from: nat)
    requires from <= |s|
    ensures from <= SegmentAsWritten(s, from).1 <= |s| + 1
    ensures At(s, from) != NUL ==> from < SegmentAsWritten(s, from).1
  {
    SegmentProgress(s, from);
    SegmentAsWrittenAgrees(s, from);
    var a := SkipSplit(s, from);
    WordEndBounds(s, a);
    var b := WordEnd(s, a);
    if IsStringSym(At(s, b)) {
      var close := QuoteBody(s, b + 1, s[b]).1;
      if close < |s| {
        SkipSplitBounds(s, close + 1);
      }
    }
  }

  /** Outside quotes, the word is the unquoted run copied verbatim: no separator, quote or
      terminator in it, and nothing else in the text before its end but separators. */
  lemma PlainWord(s: string, from: nat)
    requires from <= |s|
    requires !IsStringSym(At(s, WordEnd(s, SkipSplit(s, from))))
    ensures Segment(s, from).0 == s[SkipSplit(s, from)..WordEnd(s, SkipSplit(s, from))]
    ensures forall c :: c in Segment(s, from).0 ==> c != NUL && !IsSplitChar(c) && !IsStringSym(c)
    ensures forall k :: from <= k < SkipSplit(s, from) ==> IsSplitChar(s[k])
  {
    SkipSplitBounds(s, from);
    WordEndBounds(s, SkipSplit(s, from));
  }

  /** Writes `t` as the body of a section quoted with `q`: escape characters and `q` itself get
      an escape character in front. */
  function Quote(t: string, q: char): (r: string)
    ensures |t| <= |r|
  {
    if t == [] then []
    else (if IsTranslate(t[0]) || t[0] == q then ['\\', t[0]] else [t[0]]) + Quote(t[1..], q)
  }

  lemma QuoteBodyEscapedStep(s: string, i: nat, q: char, c: char)
    requires At(s, i) == '\\' && At(s, i + 1) == c && c != NUL && (IsTranslate(c) || c == q)
    requires IsStringSym(q)
    ensures QuoteBody(s, i, q) == ([c] + QuoteBody(s, i + 2, q).0, QuoteBody(s, i + 2, q).1)
  {
    assert TransValue(c) == c;
  }

  lemma QuoteBodyPlainStep(s: string, i: nat, q: char, c: char)
    requires At(s, i) == c && c != NUL && c != q && !IsTranslate(c)
    ensures QuoteBody(s, i, q) == ([c] + QuoteBody(s, i + 1, q).0, QuoteBody(s, i + 1, q).1)
  {
  }

  /** `t` stands written by `Quote` at position `i` of `s`, followed by the closing quote. */
  predicate QuotedAt(s: string, i: nat, t: string, q: char)
    decreases |t|
  {
    if t == [] then At(s, i) == q
    else if t[0] == NUL then false
    else if IsTranslate(t[0]) || t[0] == q then
      At(s, i) == '\\' && At(s, i + 1) == t[0] && QuotedAt(s, i + 2, t[1..], q)
    else
      At(s, i) == t[0] && QuotedAt(s, i + 1, t[1..], q)
  }

  /** Reading a quoted section that holds `t` as `Quote` writes it: the text comes back and the
      scan stops on the closing quote. */
  lemma {:induction false} QuoteBodyOfQuotedAt(s: string, i: nat, t: string, q: char)
    requires IsStringSym(q) && QuotedAt(s, i, t, q)
    ensures QuoteBody(s, i, q) == (t, i + |Quote(t, q)|)
    decreases |t|
  {
    if t != [] {
      var c := t[0];
      assert [c] + t[1..] == t;
      if IsTranslate(c) || c == q {
        assert |Quote(t, q)| == 2 + |Quote(t[1..], q)|;
        QuoteBodyOfQuotedAt(s, i + 2, t[1..], q);
        QuoteBodyEscapedStep(s, i, q, c);
      } else {
        assert |Quote(t, q)| == 1 + |Quote(t[1..], q)|;
        QuoteBodyOfQuotedAt(s, i + 1, t[1..], q);
        QuoteBodyPlainStep(s, i, q, c);
      }
    } else {
      assert Quote(t, q) == [];
    }
  }

  /** What `Quote` writes, closed by `q`, stands at the position after whatever precedes it. */
  lemma {:induction false} QuoteIsQuotedAt(p: string, t: string, q: char, suffix: string)
    requires NUL !in t
    ensures QuotedAt(p + Quote(t, q) + [q] + suffix, |p|, t, q)
    decreases |t|
  {
    var s := p + Quote(t, q) + [q] + suffix;
    if t == [] {
      assert s[|p|] == q;
    } else {
      var c := t[0];
      var e := if IsTranslate(c) || c == q then ['\\', c] else [c];
      assert c in t;
      assert NUL !in t[1..] by {
        forall x | x in t[1..] ensures x in t {}
      }
      assert Quote(t, q) == e + Quote(t[1..], q);
      assert s == (p + e) + Quote(t[1..], q) + [q] + suffix;
      QuoteIsQuotedAt(p + e, t[1..], q, suffix);
      assert s[|p|] == e[0];
      if |e| == 2 {
        assert s[|p| + 1] == c;
      }
    }
  }

  /** A word that is one quoted section filling the whole text. */
  lemma SegmentOfQuotedText(s: string, q: char)
    requires |s| > 0 && s[0] == q && IsStringSym(q)
    requires QuoteBody(s, 1, q).1 + 1 == |s| && s[|s| - 1] == q
    ensures Segment(s, 0) == (QuoteBody(s, 1, q).0, |s|)
  {
    assert SkipSplit(s, 0) == 0;
    assert WordEnd(s, 0) == 0;
    assert SkipSplit(s, |s|) == |s|;
    assert s[0..0] + QuoteBody(s, 1, q).0 == QuoteBody(s, 1, q).0;
  }

  /** Quoting round trip: a text written with `Quote` between a pair of quotes is read back by
      `get_segment` as exactly that text, separators and quotes inside included, and the
      whole input is consumed. */
  lemma QuotedRoundTrip(t: string, q: char)
    requires NUL !in t && IsStringSym(q)
    ensures Segment([q] + Quote(t, q) + [q], 0) == (t, |Quote(t, q)| + 2)
  {
    var s := [q] + Quote(t, q) + [q];
    QuoteIsQuotedAt([q], t, q, []);
    assert [q] + Quote(t, q) + [q] + [] == s;
    QuoteBodyOfQuotedAt(s, 1, t, q);
    SegmentOfQuotedText(s, q);
  }

  lemma {:induction false} QuoteBodyUnclosed(s: string, i: nat, q: char)
    requires i <= |s|
    requires forall k :: i <= k < |s| ==> s[k] != NUL && s[k] != q && !IsTranslate(s[k])
    ensures QuoteBody(s, i, q) == (s[i..], |s|)
    decreases |s| - i
  {
    if i < |s| {
      QuoteBodyUnclosed(s, i + 1, q);
      assert s[i..] == [s[i]] + s[i + 1..];
    }
  }

  /** The source's `get_segment` on a quote that is never closed: it steps one position past
      the terminator, so the pointer it returns lies outside the string (and the caller reads
      beyond it). */
  lemma UnclosedQuoteOverrun(t: string)
    requires forall k :: 0 <= k < |t| ==> t[k] != NUL && t[k] != '"' && !IsTranslate(t[k])
    ensures SegmentAsWritten(['"'] + t, 0).1 == |t| + 2 == |['"'] + t| + 1
  {
    var s := ['"'] + t;
    assert SkipSplit(s, 0) == 0;
    assert WordEnd(s, 0) == 0;
    QuoteBodyUnclosed(s, 1, '"');
  }

  /** The corrected `get_segment` on the same input stops at the terminator and reads the
      rest of the text as the word. */
  lemma UnclosedQuoteStops(t: string)
    requires forall k :: 0 <= k < |t| ==> t[k] != NUL && t[k] != '"' && !IsTranslate(t[k])
    ensures Segment(['"'] + t, 0) == (t, |t| + 1)
  {
    var s := ['"'] + t;
    assert SkipSplit(s, 0) == 0;
    assert WordEnd(s, 0) == 0;
    QuoteBodyUnclosed(s, 1, '"');
    assert s[0..0] + s[1..] == t;
    assert SkipSplit(s, |s|) == |s|;
  }

  /** The quoted-section loop of `get_segment`: appends the section's text to `val` and stops
      on the closing quote or the terminator. */
  method ReadQuoted(s: string, i0: nat, flag: char, val0: string) returns (val: string, i: nat)
    requires i0 <= |s|
    ensures val == val0 + QuoteBody(s, i0, flag).0 && i == QuoteBody(s, i0, flag).1
  {
    val, i := val0, i0;
    while At(s, i) != NUL && At(s, i) != flag
      invariant i0 <= i <= |s|
      invariant QuoteBody(s, i0, flag).1 == QuoteBody(s, i, flag).1
      invariant val0 + QuoteBody(s, i0, flag).0 == val + QuoteBody(s, i, flag).0
      decreases |s| - i
    {
      var cur := s[i];
      if IsTranslate(s[i]) && At(s, i + 1) != NUL {
        i := i + 1;
        cur := TransValue(s[i]);
      }
      val := val + [cur];
      i := i + 1;
    }
  }

  /** The separator-skipping loop of `get_segment`, run before and after the word. */
  method SkipSeparators(s: string, i0: nat) returns (i: nat)
    requires i0 <= |s| + 1
    ensures i == SkipSplit(s, i0)
  {
    i := i0;
    while At(s, i) != NUL && IsSplitChar(At(s, i))
      invariant i0 <= i <= |s| + 1 && SkipSplit(s, i) == SkipSplit(s, i0)
      decreases |s| + 1 - i
    {
      i := i + 1;
    }
  }

  /** `get_segment`: the pointer-walking loops, leaving the word in `val` and returning where
      the unread text starts. */
  method GetSegment(s: string, from: nat) returns (val: string, next: nat)
    requires from <= |s|
    ensures (val, next) == SegmentAsWritten(s, from)
  {
    val := [];
    var i := SkipSeparators(s, from);
    var a := i;
    ghost var quoted := false;
    while At(s, i) != NUL && !IsSplitChar(At(s, i))
      invariant a <= i <= |s| && WordEnd(s, a) == WordEnd(s, i) && val == s[a..i]
      invariant !IsStringSym(At(s, i)) || At(s, i) == NUL || IsSplitChar(At(s, i)) || WordEnd(s, a) == i
      decreases |s| - i
    {
      if !IsStringSym(At(s, i)) {
        val := val + [s[i]];
        i := i + 1;
      } else {
        var flag := s[i];
        ghost var b := i;
        assert WordEnd(s, a) == b;
        val, i := ReadQuoted(s, i + 1, flag, val);
        assert val == SegmentAsWritten(s, from).0;
        i := i + 1;
        quoted := true;
        assert SkipSplit(s, i) == SegmentAsWritten(s, from).1;
        break;
      }
    }
    if !quoted {
      assert WordEnd(s, a) == i;
      assert (val, SkipSplit(s, i)) == SegmentAsWritten(s, from);
    }
    next := SkipSeparators(s, i);
  }

  // ---------------------------------------------------------------- split_cmd

  /** The first position at or after `i` that is not a command separator. */
  function SkipCmdSplit(s: string, i: nat): (r: nat)
    ensures i <= r && (i <= |s| ==> r <= |s|)
    ensures At(s, r) == NUL || !IsCmdSplit(At(s, r))
    decreases |s| - i
  {
    if At(s, i) != NUL && IsCmdSplit(At(s, i)) then SkipCmdSplit(s, i + 1) else i
  }

  /** The end of the command name starting at `i`. */
  function NameEnd(s: string, i: nat): (r: nat)
    ensures i <= r && (i <= |s| ==> r <= |s|)
    ensures At(s, i) != NUL && !IsCmdSplit(At(s, i)) ==> i < r
    decreases |s| - i
  {
    if At(s, i) != NUL && !IsCmdSplit(At(s, i)) then NameEnd(s, i + 1) else i
  }

  lemma {:induction false} SkipCmdSplitBounds(s: string, i: nat)
    requires i <= |s|
    ensures i <= SkipCmdSplit(s, i) <= |s|
    ensures forall k :: i <= k < SkipCmdSplit(s, i) ==> IsCmdSplit(s[k])
    decreases |s| - i
  {
    if At(s, i) != NUL && IsCmdSplit(At(s, i)) {
      SkipCmdSplitBounds(s, i + 1);
    }
  }

  lemma {:induction false} NameEndBounds(s: string, i: nat)
    requires i <= |s|
    ensures i <= NameEnd(s, i) <= |s|
    ensures forall k :: i <= k < NameEnd(s, i) ==> s[k] != NUL && !IsCmdSplit(s[k])
    ensures NameEnd(s, i) < |s| ==> s[NameEnd(s, i)] == NUL || IsCmdSplit(s[NameEnd(s, i)])
    decreases |s| - i
  {
    if At(s, i) != NUL && !IsCmdSplit(At(s, i)) {
      NameEndBounds(s, i + 1);
    }
  }

  /** The names `split_cmd` collects from position `i` on. */
  function Names(s: string, i: nat): (r: seq<string>)
    requires i <= |s|
    decreases |s| - i
  {
    var a := SkipCmdSplit(s, i);
    SkipCmdSplitBounds(s, i);
    if At(s, a) == NUL then []
    else
      NameEndBounds(s, a);
      [s[a..NameEnd(s, a)]] + Names(s, NameEnd(s, a))
  }

  /** The text without its command separators. */
  function WithoutCmdSplit(t: string): (r: string)
  {
    if t == [] then []
    else (if IsCmdSplit(t[0]) then [] else [t[0]]) + WithoutCmdSplit(t[1..])
  }

  function Concat(names: seq<string>): string
  {
    if names == [] then [] else names[0] + Concat(names[1..])
  }

  lemma ConcatCons(n: string, names: seq<string>)
    ensures Concat([n] + names) == n + Concat(names)
  {
    assert ([n] + names)[1..] == names;
  }

  lemma {:induction false} WithoutCmdSplitAppend(a: string, b: string)
    ensures WithoutCmdSplit(a + b) == WithoutCmdSplit(a) + WithoutCmdSplit(b)
    decreases |a|
  {
    if a != [] {
      assert (a + b)[1..] == a[1..] + b;
      WithoutCmdSplitAppend(a[1..], b);
    } else {
      assert a + b == b;
    }
  }

  lemma {:induction false} WithoutCmdSplitFixes(t: string)
    requires forall k :: 0 <= k < |t| ==> !IsCmdSplit(t[k])
    ensures WithoutCmdSplit(t) == t
    decreases |t|
  {
    if t != [] {
      WithoutCmdSplitFixes(t[1..]);
    }
  }

  lemma {:induction false} WithoutCmdSplitDrops(t: string)
    requires forall k :: 0 <= k < |t| ==> IsCmdSplit(t[k])
    ensures WithoutCmdSplit(t) == []
    decreases |t|
  {
    if t != [] {
      WithoutCmdSplitDrops(t[1..]);
    }
  }

  /** Every name `split_cmd` collects is non-empty and free of command separators. */
  lemma {:induction false} NamesWellFormed(s: string, i: nat)
    requires i <= |s|
    ensures forall n :: n in Names(s, i) ==> n != [] && forall k :: 0 <= k < |n| ==> !IsCmdSplit(n[k])
    decreases |s| - i
  {
    var a := SkipCmdSplit(s, i);
    if At(s, a) != NUL {
      var b := NameEnd(s, a);
      NameEndBounds(s, a);
      NamesWellFormed(s, b);
      assert Names(s, i) == [s[a..b]] + Names(s, b);
    }
  }

  /** The text from `i` on, cut where the separators before a name end and where the name
      ends, loses only those separators. */
  lemma WithoutCmdSplitOfName(s: string, i: nat, a: nat, b: nat)
    requires i <= a <= b <= |s|
    requires forall k :: i <= k < a ==> IsCmdSplit(s[k])
    requires forall k :: a <= k < b ==> !IsCmdSplit(s[k])
    ensures WithoutCmdSplit(s[i..]) == s[a..b] + WithoutCmdSplit(s[b..])
  {
    WithoutCmdSplitDrops(s[i..a]);
    WithoutCmdSplitFixes(s[a..b]);
    assert s[i..] == s[i..a] + (s[a..b] + s[b..]);
    WithoutCmdSplitAppend(s[i..a], s[a..b] + s[b..]);
    WithoutCmdSplitAppend(s[a..b], s[b..]);
  }

  /** On a text without a terminator inside, the names `split_cmd` collects, put together, are
      the text with its command separators removed. */
  lemma {:induction false} NamesCoverText(s: string, i: nat)
    requires i <= |s| && NUL !in s
    ensures Concat(Names(s, i)) == WithoutCmdSplit(s[i..])
    decreases |s| - i
  {
    var a := SkipCmdSplit(s, i);
    SkipCmdSplitBounds(s, i);
    if At(s, a) == NUL {
      assert a == |s|;
      WithoutCmdSplitOfName(s, i, a, a);
      assert Names(s, i) == [];
    } else {
      var b := NameEnd(s, a);
      NameEndBounds(s, a);
      NamesCoverText(s, b);
      assert Names(s, i) == [s[a..b]] + Names(s, b);
      ConcatCons(s[a..b], Names(s, b));
      WithoutCmdSplitOfName(s, i, a, b);
    }
  }

  /** One round of `split_cmd`: the name found after the separators at `i`, if any, and where
      the scan goes on. */
  lemma NamesStep(s: string, i: nat)
    requires i <= |s|
    ensures At(s, SkipCmdSplit(s, i)) == NUL ==> Names(s, i) == []
    ensures At(s, SkipCmdSplit(s, i)) != NUL ==>
      Names(s, i) == [s[SkipCmdSplit(s, i)..NameEnd(s, SkipCmdSplit(s, i))]] + Names(s, NameEnd(s, SkipCmdSplit(s, i)))
  {
    SkipCmdSplitBounds(s, i);
    NameEndBounds(s, SkipCmdSplit(s, i));
  }

  /** The separator-skipping loop of `split_cmd`. */
  method SkipCmdSeparators(s: string, i0: nat) returns (i: nat)
    requires i0 <= |s|
    ensures i == SkipCmdSplit(s, i0)
  {
    i := i0;
    while At(s, i) != NUL && IsCmdSplit(At(s, i))
      invariant i0 <= i <= |s| && SkipCmdSplit(s, i) == SkipCmdSplit(s, i0)
      decreases |s| - i
    {
      i := i + 1;
    }
  }

  /** The name-collecting loop of `split_cmd`. */
  method ReadName(s: string, a: nat) returns (content: string, i: nat)
    requires a <= |s|
    ensures i == NameEnd(s, a) && content == s[a..i]
  {
    content, i := [], a;
    while At(s, i) != NUL && !IsCmdSplit(At(s, i))
      invariant a <= i <= |s| && NameEnd(s, i) == NameEnd(s, a) && content == s[a..i]
      decreases |s| - i
    {
      content := content + [s[i]];
      i := i + 1;
    }
  }

  /** `split_cmd`: collects every non-empty run of non-separators, in order. */
  method SplitCmd(s: string) returns (ret: seq<string>)
    ensures ret == Names(s, 0)
  {
    ret := [];
    var p := 0;
    while At(s, p) != NUL
      invariant p <= |s|
      invariant ret + Names(s, p) == Names(s, 0)
      decreases |s| - p
    {
      NamesStep(s, p);
      var a := SkipCmdSeparators(s, p);
      var content;
      content, p := ReadName(s, a);
      if |content| > 0 {
        ret := ret + [content];
      } else {
        assert At(s, a) == NUL;
      }
    }
    NamesStep(s, p);
  }
}
