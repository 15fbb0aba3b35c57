/** Joining a list of words with a separator and splitting a text at every separator, as
    Python's `sep.join(words)` and `text.split(sep)` do for a one-character separator. The
    colour printer and the template generator both build their lists this way. */
module Text {
  import StringOprs

  /** The words with `sep` between neighbours. */
  function Join(words: seq<string>, sep: char): (r: string)
  {
    if words == [] then []
    else if |words| == 1 then words[0]
    else Join(words[..|words| - 1], sep) + [sep] + words[|words| - 1]
  }

  /** One more word puts a separator before it unless it is the first. */
  lemma JoinSnoc(words: seq<string>, w: string, sep: char)
    ensures Join(words + [w], sep) == if words == [] then w else Join(words, sep) + [sep] + w
  {
    assert (words + [w])[..|words|] == words;
  }

  /** The pieces between the separators: one more piece than separators. */
  function Split(s: string, sep: char): (r: seq<string>)
    ensures |r| >= 1
  {
    if s == [] then [[]]
    else
      var rest := Split(s[1..], sep);
      if s[0] == sep then [[]] + rest else [[s[0]] + rest[0]] + rest[1..]
  }

  /** A text free of the separator is a single piece. */
  lemma {:induction false} SplitWithout(s: string, sep: char)
    requires sep !in s
    ensures Split(s, sep) == [s]
  {
    if s != [] {
      SplitWithout(s[1..], sep);
      assert [s[0]] + s[1..] == s;
    }
  }

  /** Splitting at a separator splits the two sides on their own. */
  lemma {:induction false} SplitAt(a: string, b: string, sep: char)
    ensures Split(a + [sep] + b, sep) == Split(a, sep) + Split(b, sep)
  {
    if a == [] {
      assert ([sep] + b)[1..] == b;
      assert a + [sep] + b == [sep] + b;
    } else {
      assert (a + [sep] + b)[1..] == a[1..] + [sep] + b;
      SplitAt(a[1..], b, sep);
    }
  }

  /** Splitting a join of separator-free words gives the words back. */
  lemma {:induction false} SplitJoin(words: seq<string>, sep: char)
    requires words != []
    requires forall k :: 0 <= k < |words| ==> sep !in words[k]
    ensures Split(Join(words, sep), sep) == words
  {
    var last := words[|words| - 1];
    SplitWithout(last, sep);
    if |words| > 1 {
      var init := words[..|words| - 1];
      SplitJoin(init, sep);
      SplitAt(Join(init, sep), last, sep);
      assert init + [last] == words;
    }
  }

  /** Python's `str.lower()` on ASCII text: `A`..`Z` lowered. */
  function Lower(s: string): (r: string)
    ensures |r| == |s| && forall k :: 0 <= k < |s| ==> r[k] == StringOprs.ToLower(s[k])
  {
    seq(|s|, k requires 0 <= k < |s| => StringOprs.ToLower(s[k]))
  }

  /** Python's `str.upper()` on ASCII text: `a`..`z` raised. */
  function Upper(s: string): (r: string)
    ensures |r| == |s| && forall k :: 0 <= k < |s| ==> r[k] == StringOprs.ToUpper(s[k])
  {
    seq(|s|, k requires 0 <= k < |s| => StringOprs.ToUpper(s[k]))
  }

  /** Lowering forgets the case a text had: raising first makes no difference. */
  lemma LowerUpper(s: string)
    ensures Lower(Upper(s)) == Lower(s) && Lower(Lower(s)) == Lower(s)
  {
    forall k | 0 <= k < |s| ensures Lower(Upper(s))[k] == Lower(s)[k] && Lower(Lower(s))[k] == Lower(s)[k] {
      StringOprs.CaseRoundTrip(s[k]);
    }
  }
}
