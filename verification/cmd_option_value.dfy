/** One parameter of a command (cli/cmd_option_value.h and .cpp): the text it holds and its
    conversions. The value never changes once built, so it is a value here.

    The integer conversions go through `str2int` into a type of the named width; the ones that
    fall back to a `std::stringstream` extraction are not part of this model. */
module CmdOptionValue {
  import opened CString
  import opened Optional
  import StringOprs
  import SizeArith

  datatype Value = Value(data: string)

  /** The text of a C string: everything before its first NUL. */
  function CStringText(s: string): (r: string)
    ensures |r| <= |s|
  {
    if s == [] || s[0] == NUL then [] else [s[0]] + CStringText(s[1..])
  }

  /** The text of a C string is the part of it before the first NUL: a prefix free of NUL,
      followed by a NUL unless it is the whole string. */
  lemma {:induction false} CStringTextMeaning(s: string)
    ensures var r := CStringText(s); r == s[..|r|] && NUL !in r && (|r| < |s| ==> s[|r|] == NUL)
  {
    if s != [] && s[0] != NUL {
      CStringTextMeaning(s[1..]);
    }
  }

  /** `cmd_option_value(const char *)`: the C string's text. */
  function FromCString(s: string): (r: Value)
    ensures NUL !in s ==> r.data == s
  {
    CStringTextMeaning(s);
    Value(CStringText(s))
  }

  /** `cmd_option_value(begin, end)`: exactly the characters in the range. */
  function FromRange(s: string, begin: nat, end: nat): (r: Value)
    requires begin <= end <= |s|
    ensures |r.data| == end - begin
  {
    Value(s[begin..end])
  }

  /** `to_cpp_string` and `to_string`: the stored text. */
  function ToString(v: Value): string
  {
    v.data
  }

  // ---------------------------------------------------------------- integer conversions

  /** `to_int16`, `to_int32`, `to_int64` and their unsigned twins: `str2int` into a type of
      `bits` bits (`to_uint16` parses into `int16_t`, the same 16 bits). `to_int` and `to_uint`
      are the 32-bit ones. */
  function ToIntBits(v: Value, bits: nat): (r: nat)
    ensures r < StringOprs.Modulus(bits)
    ensures v.data == [] ==> r == 0
  {
    StringOprs.ToInt(Some(v.data), bits)
  }

  /** `to_int8` and `to_uint8`: `to_int()` or `to_uint()` cast down to 8 bits. */
  function ToInt8(v: Value): (r: nat)
    ensures r < 256
  {
    ToIntBits(v, 32) % 256
  }

  /** `to_bool`: false exactly for the empty text and `0`. */
  function ToBool(v: Value): bool
  {
    !(v.data == []) && "0" != v.data
  }

  /** `to_char` and `to_uchar`: the first character, NUL for the empty text. */
  function ToChar(v: Value): char
  {
    if v.data == [] then NUL else v.data[0]
  }

  lemma ModMod(x: int, m1: nat, m2: nat, k: nat)
    requires m2 >= 1 && m1 >= 1 && m1 % m2 == 0 && k == m1 / m2
    ensures (x % m1) % m2 == x % m2
  {
    assert m1 == k * m2;
    var q, r := x / m1, x % m1;
    var n := q * k + r / m2;
    assert x == n * m2 + r % m2 by {
      assert x == q * m1 + r;
      assert r == (r / m2) * m2 + r % m2;
      assert q * m1 == (q * k) * m2;
    }
    SizeArith.LemmaModUnique(x, m2, n, r % m2);
  }

  lemma NegateNarrows(x: nat, m1: nat, m2: nat, k: nat)
    requires m2 >= 1 && k >= 1 && m1 == m2 * k && x < m1
    ensures StringOprs.Negate(x, m1) % m2 == StringOprs.Negate(x % m2, m2)
  {
    var r := x % m2;
    if x == 0 {
      assert r == 0;
    } else {
      ComplementMod(x, m1, m2, k, x / m2, r);
      assert StringOprs.Negate(x, m1) == m1 - x;
      assert StringOprs.Negate(r, m2) == if r == 0 then 0 else m2 - r;
    }
  }

  /** What is left to a multiple of `m2` below `m1`, taken modulo `m2`. */
  lemma ComplementMod(x: nat, m1: nat, m2: nat, k: nat, q: nat, r: nat)
    requires m2 >= 1 && m1 == m2 * k && 0 < x < m1 && x == q * m2 + r && r < m2
    ensures (m1 - x) % m2 == if r == 0 then 0 else m2 - r
  {
    assert q < k by {
      SizeArith.LemmaMulStrict(q, k, m2);
    }
    assert (k - q) * m2 == k * m2 - q * m2;
    if r == 0 {
      SizeArith.LemmaModUnique(m1 - x, m2, k - q, 0);
    } else {
      assert (k - q - 1) * m2 == (k - q) * m2 - m2;
      SizeArith.LemmaModUnique(m1 - x, m2, k - q - 1, m2 - r);
    }
  }

  lemma {:induction false} DigitsNarrow(t: string, i: nat, acc: nat, base: nat, m1: nat, m2: nat)
    requires m2 >= 1 && m1 >= 1 && m1 % m2 == 0 && acc < m1
    ensures StringOprs.DigitsFrom(t, i, acc, base, m1) % m2 == StringOprs.DigitsFrom(t, i, acc % m2, base, m2)
    decreases |t| - i
  {
    if i < |t| && StringOprs.IsDigit(t[i], base) {
      var d := StringOprs.DigitValue(t[i], base);
      var a1, a2 := (acc * base + d) % m1, ((acc % m2) * base + d) % m2;
      assert StringOprs.DigitsFrom(t, i, acc, base, m1) == StringOprs.DigitsFrom(t, i + 1, a1, base, m1);
      assert StringOprs.DigitsFrom(t, i, acc % m2, base, m2) == StringOprs.DigitsFrom(t, i + 1, a2, base, m2);
      DigitsNarrow(t, i + 1, a1, base, m1, m2);
      StepNarrows(acc, base, d, m1, m2);
    }
  }

  /** One digit step, reduced modulo the wide modulus and then the narrow one, is the step on
      the narrow accumulator. */
  lemma StepNarrows(acc: nat, base: nat, d: nat, m1: nat, m2: nat)
    requires m2 >= 1 && m1 >= 1 && m1 % m2 == 0
    ensures ((acc * base + d) % m1) % m2 == ((acc % m2) * base + d) % m2
  {
    ModMod(acc * base + d, m1, m2, m1 / m2);
    StringOprs.ModAddMul(acc, base, d, m2);
  }

  lemma MagnitudeNarrows(t: string, m1: nat, m2: nat, k: nat)
    requires m2 >= 1 && k >= 1 && m1 == m2 * k
    ensures StringOprs.Magnitude(t, m1) % m2 == StringOprs.Magnitude(t, m2)
  {
    SizeArith.LemmaMulMod(k, m2);
    DigitsNarrow(t, 2, 0, 16, m1, m2);
    DigitsNarrow(t, 1, 0, 8, m1, m2);
    DigitsNarrow(t, 0, 0, 10, m1, m2);
  }

  lemma SignedNarrows(d: nat, t: string, m1: nat, m2: nat, k: nat)
    requires m2 >= 1 && k >= 1 && m1 == m2 * k
    ensures StringOprs.Signed(d, t, m1) % m2 == StringOprs.Signed(d, t, m2)
  {
    MagnitudeNarrows(t, m1, m2, k);
    NegateNarrows(StringOprs.Magnitude(t, m1), m1, m2, k);
  }

  /** Parsing into a wide type and cutting the result down is parsing into the narrow type:
      the conversions of every width agree on the low bits. */
  lemma ToIntNarrows(s: string, wide: nat, narrow: nat)
    requires narrow <= wide
    ensures StringOprs.ToInt(Some(s), wide) % StringOprs.Modulus(narrow) == StringOprs.ToInt(Some(s), narrow)
  {
    var w, n := StringOprs.ToInt(Some(s), wide), StringOprs.ToInt(Some(s), narrow);
    if At(s, 0) == NUL {
      assert w == 0 && n == 0;
    } else {
      var (d, t) := StringOprs.StripDashes(s);
      assert w == StringOprs.Signed(d, t, StringOprs.Modulus(wide));
      assert n == StringOprs.Signed(d, t, StringOprs.Modulus(narrow));
      SignedNarrowsBits(d, t, wide, narrow);
    }
  }

  /** `SignedNarrows` for the moduli of two widths. */
  lemma SignedNarrowsBits(d: nat, t: string, wide: nat, narrow: nat)
    requires narrow <= wide
    ensures StringOprs.Signed(d, t, StringOprs.Modulus(wide)) % StringOprs.Modulus(narrow)
      == StringOprs.Signed(d, t, StringOprs.Modulus(narrow))
  {
    var k := SizeArith.Pow2(wide - narrow);
    SizeArith.LemmaPow2Add(narrow, wide - narrow);
    SignedNarrows(d, t, StringOprs.Modulus(wide), StringOprs.Modulus(narrow), k);
  }

  /** `to_int8` is `str2int` straight into eight bits. */
  lemma ToInt8IsEightBitParse(v: Value)
    ensures ToInt8(v) == ToIntBits(v, 8)
  {
    ToIntNarrows(v.data, 32, 8);
    assert SizeArith.Pow2(8) == 256 by {
      assert SizeArith.Pow2(4) == 16;
      SizeArith.LemmaPow2Add(4, 4);
    }
  }

  // ---------------------------------------------------------------- to_logic_bool

  /** The text with every `A`..`Z` lowered, as the `std::transform` in `to_logic_bool`. */
  function Lower(s: string): (r: string)
    ensures |r| == |s| && forall k :: 0 <= k < |s| ==> r[k] == StringOprs.ToLower(s[k])
  {
    if s == [] then [] else [StringOprs.ToLower(s[0])] + Lower(s[1..])
  }

  /** The texts `to_logic_bool` reads as false, once lowered. */
  predicate IsFalseWord(w: string)
  {
    w == [] || w == "no" || w == "false" || w == "disabled" || w == "disable" || w == "0"
  }

  /** `to_logic_bool`: false for the empty text and, in any case, for the false words. */
  function ToLogicBool(v: Value): (r: bool)
  {
    var lowercase := Lower(v.data);
    if lowercase == [] then false
    else if "no" == lowercase || "false" == lowercase || "disabled" == lowercase
      || "disable" == lowercase || "0" == lowercase then false
    else true
  }

  lemma LowerIdempotent(s: string)
    ensures Lower(Lower(s)) == Lower(s)
  {
    forall k | 0 <= k < |s|
      ensures Lower(Lower(s))[k] == Lower(s)[k]
    {
      StringOprs.CaseRoundTrip(s[k]);
    }
  }

  /** `to_logic_bool` is false exactly when the lowered text is a false word, and it ignores
      letter case. */
  lemma LogicBoolMeaning(v: Value, w: Value)
    ensures !ToLogicBool(v) <==> IsFalseWord(Lower(v.data))
    ensures Lower(v.data) == Lower(w.data) ==> ToLogicBool(v) == ToLogicBool(w)
    ensures ToLogicBool(Value(Lower(v.data))) == ToLogicBool(v)
  {
    LowerIdempotent(v.data);
  }

  /** Spelled in capitals, the false words are still false. */
  lemma LogicBoolFalseWords()
    ensures !ToLogicBool(Value("FALSE")) && !ToLogicBool(Value("No")) && !ToLogicBool(Value(""))
  {
    assert Lower("FALSE") == "false";
    assert Lower("No") == "no";
  }

  /** Any other word is true, `00` and `off` among them. */
  lemma LogicBoolTrueWords()
    ensures ToLogicBool(Value("Yes")) && ToLogicBool(Value("00")) && ToLogicBool(Value("off"))
  {
    assert Lower("Yes") == "yes";
    assert Lower("00") == "00";
    assert Lower("off") == "off";
  }

  /** Whatever `to_logic_bool` reads as true, `to_bool` does too; the converse fails, for
      `no` among others. */
  lemma LogicBoolStricterThanBool(v: Value)
    ensures ToLogicBool(v) ==> ToBool(v)
    ensures ToBool(Value("no")) && !ToLogicBool(Value("no"))
  {
    assert Lower("0") == "0";
    assert Lower("no") == "no";
    if v.data == "0" {
      assert Lower(v.data) == "0";
    }
  }

  // ---------------------------------------------------------------- split

  /** `data_.find(delim, from)`: the first position at or after `from` holding `delim`, or
      `None` for `npos`. */
  function Find(s: string, delim: char, from: nat): (r: Option<nat>)
    ensures r.Some? ==> from <= r.value < |s| && s[r.value] == delim
    decreases |s| - from
  {
    if from >= |s| then None
    else if s[from] == delim then Some(from)
    else Find(s, delim, from + 1)
  }

  /** `Find` gives the first occurrence: none is skipped. */
  lemma {:induction false} FindFirst(s: string, delim: char, from: nat)
    ensures Find(s, delim, from).Some? ==> forall k :: from <= k < Find(s, delim, from).value ==> s[k] != delim
    ensures Find(s, delim, from).None? ==> forall k :: from <= k < |s| ==> s[k] != delim
    decreases |s| - from
  {
    if from < |s| && s[from] != delim {
      FindFirst(s, delim, from + 1);
    }
  }

  /** The pieces `split` appends from position `begin` on: up to each delimiter, and the rest
      as a C string once no delimiter is left. */
  function PiecesFrom(s: string, delim: char, begin: nat): (r: seq<Value>)
    ensures r != [] <==> begin < |s|
    decreases |s| - begin
  {
    if begin >= |s| then []
    else match Find(s, delim, begin)
      case None => [FromCString(s[begin..])]
      case Some(e) => [FromRange(s, begin, e)] + PiecesFrom(s, delim, e + 1)
  }

  /** How many times `delim` occurs in `s` from `i` on. */
  function Count(s: string, delim: char, i: nat): (r: nat)
    decreases |s| - i
  {
    if i >= |s| then 0 else (if s[i] == delim then 1 else 0) + Count(s, delim, i + 1)
  }

  /** The counting loop of `split`: one plus the number of delimiters. */
  method CountPieces(data: string, delim: char) returns (len: nat)
    ensures len == Count(data, delim, 0) + 1
  {
    len := 1;
    var i := 0;
    while i < |data|
      invariant i <= |data| && len + Count(data, delim, i) == Count(data, delim, 0) + 1
    {
      if delim == data[i] {
        len := len + 1;
      }
      i := i + 1;
    }
  }

  /** One round of the `split` loop: the next piece, then the pieces after it. */
  lemma PiecesStep(s: string, delim: char, begin: nat, out: seq<Value>)
    requires begin < |s|
    ensures Find(s, delim, begin).None? ==> out + PiecesFrom(s, delim, begin) == out + [FromCString(s[begin..])]
    ensures Find(s, delim, begin).Some? ==>
      (out + PiecesFrom(s, delim, begin)
       == (out + [FromRange(s, begin, Find(s, delim, begin).value)]) + PiecesFrom(s, delim, Find(s, delim, begin).value + 1))
  {
  }

  /** `split`: counts the delimiters for the reservation, then appends each piece to `out`.
      `reserved` is the length reserved. */
  method Split(v: Value, delim: char, out0: seq<Value>) returns (out: seq<Value>, reserved: nat)
    ensures out == out0 + PiecesFrom(v.data, delim, 0)
    ensures reserved == Count(v.data, delim, 0) + 1
  {
    var data := v.data;
    reserved := CountPieces(data, delim);
    out := out0;
    var beginPos: nat := 0;
    var endPos: Option<nat> := Some(0);
    while endPos.Some? && beginPos < |data|
      invariant out + PiecesFrom(data, delim, beginPos) == out0 + PiecesFrom(data, delim, 0)
      invariant endPos.None? ==> beginPos >= |data|
      decreases |data| - beginPos
    {
      PiecesStep(data, delim, beginPos, out);
      endPos := Find(data, delim, beginPos);
      if endPos.None? && beginPos < |data| {
        out := out + [FromCString(data[beginPos..])];
        beginPos := |data|;
      } else {
        out := out + [FromRange(data, beginPos, endPos.value)];
        beginPos := endPos.value + 1;
      }
    }
  }

  /** The pieces joined with `delim`. */
  function Join(pieces: seq<Value>, delim: char): (r: string)
  {
    if pieces == [] then []
    else if |pieces| == 1 then pieces[0].data
    else pieces[0].data + [delim] + Join(pieces[1..], delim)
  }

  /** No piece holds the delimiter. */
  lemma {:induction false} PiecesFreeOfDelim(s: string, delim: char, begin: nat)
    ensures forall p :: p in PiecesFrom(s, delim, begin) ==> delim !in p.data
    decreases |s| - begin
  {
    if begin < |s| {
      match Find(s, delim, begin)
      case None =>
        LastPieceFree(s, delim, begin);
      case Some(e) =>
        PiecesFreeOfDelim(s, delim, e + 1);
        PieceFree(s, delim, begin, e);
    }
  }

  /** The piece after the last delimiter holds none. */
  lemma LastPieceFree(s: string, delim: char, begin: nat)
    requires begin < |s| && Find(s, delim, begin).None?
    ensures forall p :: p in PiecesFrom(s, delim, begin) ==> delim !in p.data
  {
    FindFirst(s, delim, begin);
    var text := CStringText(s[begin..]);
    CStringTextMeaning(s[begin..]);
    assert delim !in text by {
      forall k | 0 <= k < |text| ensures text[k] != delim {
        assert text[k] == s[begin + k];
      }
    }
    assert PiecesFrom(s, delim, begin) == [FromCString(s[begin..])];
  }

  /** The piece before the next delimiter holds none, so neither do the pieces from `begin`
      when the later ones hold none. */
  lemma PieceFree(s: string, delim: char, begin: nat, e: nat)
    requires begin < |s| && Find(s, delim, begin) == Some(e)
    requires forall p :: p in PiecesFrom(s, delim, e + 1) ==> delim !in p.data
    ensures forall p :: p in PiecesFrom(s, delim, begin) ==> delim !in p.data
  {
    FindFirst(s, delim, begin);
    assert delim !in s[begin..e] by {
      forall j | 0 <= j < e - begin ensures s[begin..e][j] != delim {
        assert s[begin..e][j] == s[begin + j];
      }
    }
    PiecesAt(s, delim, begin, e);
  }

  /** Joining the pieces with the delimiter gives back the text from `begin` on, when that text
      holds no NUL and does not end with the delimiter. */
  lemma {:induction false} JoinPieces(s: string, delim: char, begin: nat)
    requires begin <= |s| && NUL !in s
    requires s == [] || s[|s| - 1] != delim
    ensures Join(PiecesFrom(s, delim, begin), delim) == s[begin..]
    decreases |s| - begin
  {
    if begin < |s| {
      match Find(s, delim, begin)
      case None =>
        assert NUL !in s[begin..] by {
          forall c | c in s[begin..] ensures c in s {}
        }
        assert PiecesFrom(s, delim, begin) == [FromCString(s[begin..])];
      case Some(e) =>
        assert e + 1 < |s|;
        JoinPieces(s, delim, e + 1);
        JoinPiecesAt(s, delim, begin, e);
    }
  }

  /** One step of `JoinPieces`: the piece before the delimiter at `e`, the delimiter, and the
      rest joined back. */
  lemma JoinPiecesAt(s: string, delim: char, begin: nat, e: nat)
    requires begin < |s| && Find(s, delim, begin) == Some(e) && e + 1 < |s|
    requires Join(PiecesFrom(s, delim, e + 1), delim) == s[e + 1..]
    ensures Join(PiecesFrom(s, delim, begin), delim) == s[begin..]
  {
    var rest := PiecesFrom(s, delim, e + 1);
    var piece := FromRange(s, begin, e);
    PiecesAt(s, delim, begin, e);
    JoinCons(piece, rest, delim);
    assert piece.data == s[begin..e];
    SliceAround(s, begin, e);
  }

  lemma JoinCons(p: Value, rest: seq<Value>, delim: char)
    requires rest != []
    ensures Join([p] + rest, delim) == p.data + [delim] + Join(rest, delim)
  {
    assert ([p] + rest)[1..] == rest;
  }

  /** A suffix is the text before position `e`, the character there, and the text after. */
  lemma SliceAround(s: string, begin: nat, e: nat)
    requires begin <= e < |s|
    ensures s[begin..] == s[begin..e] + [s[e]] + s[e + 1..]
  {
  }

  /** Splitting counts pieces: no more than the delimiters plus one, the reservation. */
  lemma {:induction false} PiecesCount(s: string, delim: char, begin: nat)
    ensures |PiecesFrom(s, delim, begin)| <= Count(s, delim, begin) + 1
    decreases |s| - begin
  {
    if begin < |s| {
      match Find(s, delim, begin)
      case None =>
      case Some(e) =>
        PiecesCount(s, delim, e + 1);
        FindFirst(s, delim, begin);
        CountFrom(s, delim, begin, e);
    }
  }

  lemma {:induction false} CountFrom(s: string, delim: char, begin: nat, e: nat)
    requires begin <= e < |s| && s[e] == delim
    requires forall k :: begin <= k < e ==> s[k] != delim
    ensures Count(s, delim, begin) == 1 + Count(s, delim, e + 1)
    decreases e - begin
  {
    if begin < e {
      CountFrom(s, delim, begin + 1, e);
    }
  }

  /** A leading delimiter gives an empty first piece; a trailing one adds no empty piece. */
  lemma SplitEnds(s: string, delim: char)
    requires s != [] && s[|s| - 1] != delim && NUL !in s
    ensures PiecesFrom([delim] + s, delim, 0)[0] == Value([])
    ensures PiecesFrom(s + [delim], delim, 0) == PiecesFrom(s, delim, 0)
  {
    assert Find([delim] + s, delim, 0) == Some(0);
    TrailingDelim(s, delim, 0);
  }

  lemma {:induction false} FindExtended(s: string, delim: char, begin: nat)
    requires begin <= |s|
    ensures Find(s + [delim], delim, begin) == if Find(s, delim, begin).Some? then Find(s, delim, begin) else Some(|s|)
    decreases |s| - begin
  {
    if begin < |s| {
      assert (s + [delim])[begin] == s[begin];
      FindExtended(s, delim, begin + 1);
    } else {
      assert (s + [delim])[begin] == delim;
    }
  }

  /** The last piece: read as a C string without the trailing delimiter, as a range with it. */
  lemma LastPiece(s: string, delim: char, begin: nat)
    requires NUL !in s && begin < |s| && Find(s, delim, begin).None?
    ensures PiecesFrom(s + [delim], delim, begin) == PiecesFrom(s, delim, begin)
  {
    var t := s + [delim];
    FindExtended(s, delim, begin);
    assert Find(t, delim, begin) == Some(|s|);
    assert t[begin..|s|] == s[begin..];
    assert NUL !in s[begin..] by {
      forall c | c in s[begin..] ensures c in s {}
    }
    assert PiecesFrom(t, delim, |s| + 1) == [];
  }

  lemma {:induction false} TrailingDelim(s: string, delim: char, begin: nat)
    requires s != [] && s[|s| - 1] != delim && NUL !in s && begin < |s|
    ensures PiecesFrom(s + [delim], delim, begin) == PiecesFrom(s, delim, begin)
    decreases |s| - begin
  {
    if Find(s, delim, begin).None? {
      LastPiece(s, delim, begin);
    } else {
      var t := s + [delim];
      var e := Find(s, delim, begin).value;
      FindExtended(s, delim, begin);
      assert Find(t, delim, begin) == Some(e);
      assert FromRange(t, begin, e) == FromRange(s, begin, e) by {
        assert t[begin..e] == s[begin..e];
      }
      TrailingDelim(s, delim, e + 1);
      PiecesAt(s, delim, begin, e);
      PiecesAt(t, delim, begin, e);
    }
  }

  /** `PiecesFrom` where the next delimiter is at `e`. */
  lemma PiecesAt(s: string, delim: char, begin: nat, e: nat)
    requires begin < |s| && Find(s, delim, begin) == Some(e)
    ensures PiecesFrom(s, delim, begin) == [FromRange(s, begin, e)] + PiecesFrom(s, delim, e + 1)
  {
  }
}
