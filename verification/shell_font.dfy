/** Terminal text styles of the test frame (test/cli/shell_font.cpp and its older copy
    test/frame/shell_font.cpp, which behave alike away from the Windows console). A style is an
    `int` flag: the low byte holds attributes, byte 1 foreground colours and byte 2 background
    colours. It is rendered as a Select Graphic Rendition control sequence (section 8.3.117 of
    ECMA-48): ESC '[', the parameters separated by ';', and 'm'. The flag is a `bv32`; only
    its bits 0 to 23 ever matter, so the arithmetic shift of a negative `int` changes nothing. */
module ShellFont {
  import opened Optional
  import StringOprs

  // ---------------------------------------------------------------- styles

  const SpecNull: bv32 := 0x00
  const SpecBold: bv32 := 0x01
  const SpecUnderline: bv32 := 0x02
  const SpecFlash: bv32 := 0x04
  const SpecDark: bv32 := 0x08

  const ColorBlack: bv32 := 0x0100
  const ColorRed: bv32 := 0x0200
  const ColorGreen: bv32 := 0x0400
  const ColorYellow: bv32 := 0x0800
  const ColorBlue: bv32 := 0x1000
  const ColorMagenta: bv32 := 0x2000
  const ColorCyan: bv32 := 0x4000
  const ColorWhite: bv32 := 0x8000

  const BackgroundBlack: bv32 := 0x01_0000
  const BackgroundRed: bv32 := 0x02_0000
  const BackgroundGreen: bv32 := 0x04_0000
  const BackgroundYellow: bv32 := 0x08_0000
  const BackgroundBlue: bv32 := 0x10_0000
  const BackgroundMagenta: bv32 := 0x20_0000
  const BackgroundCyan: bv32 := 0x40_0000
  const BackgroundWhite: bv32 := 0x80_0000

  const Esc: char := 27 as char

  /** `GetStyleCloseCode`: ESC "[0m", which resets every attribute. */
  const CloseCode: string := [Esc] + "[0m"

  // ---------------------------------------------------------------- the style code

  /** Whether bit `k` of `b` is set. */
  predicate BitSet(b: bv32, k: nat)
    requires k < 32
  {
    b & (1 << k) != 0
  }

  /** The first set bit of `b` among bits `i` to 7, or 8 when there is none. */
  function LowestBit(b: bv32, i: nat): (r: nat)
    requires i <= 8
    ensures i <= r <= 8
    decreases 8 - i
  {
    if i == 8 || BitSet(b, i) then i else LowestBit(b, i + 1)
  }

  /** The decimal digit of a number below 10. */
  function Digit(d: nat): (r: char)
    requires d < 10
  {
    ('0' as int + d) as char
  }

  /** The parameter `p` when the attribute `bit` is set. */
  function Attr(flag: bv32, bit: bv32, p: string): seq<string>
  {
    if flag & bit != 0 then [p] else []
  }

  /** The attribute bits and their parameters, in the order `GetStyleCode` tests them. */
  const AttrCodes: seq<(bv32, string)> :=
    [(SpecBold, "1"), (SpecUnderline, "4"), (SpecFlash, "5"), (SpecDark, "2")]

  /** The parameters of the attributes of `table` that are set in `flag`, in table order. */
  function AttrParts(flag: bv32, table: seq<(bv32, string)>): seq<string>
  {
    if table == [] then [] else Attr(flag, table[0].0, table[0].1) + AttrParts(flag, table[1..])
  }

  /** The parameters for the attributes. */
  function Specials(flag: bv32): seq<string>
  {
    AttrParts(flag, AttrCodes)
  }

  /** The attributes come in the order bold, underline, flash, dark. */
  lemma SpecialsInOrder(flag: bv32)
    ensures Specials(flag)
         == Attr(flag, SpecBold, "1") + Attr(flag, SpecUnderline, "4") + Attr(flag, SpecFlash, "5")
            + Attr(flag, SpecDark, "2")
  {
    var t := AttrCodes;
    var a1, a4 := Attr(flag, SpecBold, "1"), Attr(flag, SpecUnderline, "4");
    var a5, a2 := Attr(flag, SpecFlash, "5"), Attr(flag, SpecDark, "2");
    assert t[3..][1..] == [] && t[2..][1..] == t[3..] && t[1..][1..] == t[2..];
    assert AttrParts(flag, t[3..]) == a2 + [];
    assert AttrParts(flag, t[2..]) == a5 + AttrParts(flag, t[3..]);
    assert AttrParts(flag, t[1..]) == a4 + AttrParts(flag, t[2..]);
    assert AttrParts(flag, t) == a1 + AttrParts(flag, t[1..]);
    assert a1 + (a4 + (a5 + (a2 + []))) == a1 + a4 + a5 + a2;
  }

  /** The parameter for one colour byte `b` (already shifted down): `base` followed by the
      index of its lowest set bit, nothing when the byte is 0. */
  function ColorPart(base: char, b: bv32): seq<string>
  {
    if b & 0xff == 0 then []
    else
      var idx := LowestBit(b, 0);
      [[base, if idx < 8 then Digit(idx) else '0']]
  }

  /** All parameters of the code for `flag`. */
  function Parts(flag: bv32): seq<string>
  {
    Specials(flag) + ColorPart('3', flag >> 8) + ColorPart('4', flag >> 16)
  }

  /** The parameters separated by ';'. */
  function Join(parts: seq<string>): (r: string)
  {
    if parts == [] then []
    else if |parts| == 1 then parts[0]
    else Join(parts[..|parts| - 1]) + ";" + parts[|parts| - 1]
  }

  /** The control sequence for `flag`. */
  function StyleCode(flag: bv32): (r: string)
  {
    [Esc, '['] + Join(Parts(flag)) + "m"
  }

  /** Adding one more parameter puts a ';' before it unless it is the first. */
  lemma JoinSnoc(parts: seq<string>, x: string)
    ensures Join(parts + [x]) == if parts == [] then x else Join(parts) + ";" + x
  {
    assert (parts + [x])[..|parts|] == parts;
  }

  /** The loop of `GetStyleCode` over a colour byte: the index of the first set bit. */
  method FirstSetBit(b: bv32) returns (i: nat)
    ensures i == LowestBit(b, 0)
  {
    i := 0;
    while i < 8 && b & (1 << i) == 0
      invariant i <= 8 && LowestBit(b, i) == LowestBit(b, 0)
    {
      i := i + 1;
    }
  }

  /** The step `ret += (bFirst ? "" : ";") + part` of `GetStyleCode`. */
  method PutPart(ghost parts: seq<string>, ret: string, first: bool, part: string) returns (ret': string)
    requires ret == [Esc, '['] + Join(parts) && first == (parts == [])
    ensures ret' == [Esc, '['] + Join(parts + [part])
  {
    ret' := ret + (if first then "" else ";") + part;
    JoinSnoc(parts, part);
  }

  /** One attribute test of `GetStyleCode`: when `bit` is set, `p` is added. */
  method PutAttr(ghost parts: seq<string>, ret: string, first: bool, flag: bv32, bit: bv32, p: string)
    returns (ret': string, first': bool)
    requires ret == [Esc, '['] + Join(parts) && first == (parts == [])
    ensures ret' == [Esc, '['] + Join(parts + Attr(flag, bit, p))
    ensures first' == (parts + Attr(flag, bit, p) == [])
  {
    if flag & bit != 0 {
      ret' := PutPart(parts, ret, first, p);
      first' := false;
    } else {
      assert parts + Attr(flag, bit, p) == parts;
      ret', first' := ret, first;
    }
  }

  /** One colour test of `GetStyleCode`: when the colour byte `b` is not 0, `base` with its
      last digit raised by the index of the first set bit is added. */
  method PutColor(ghost parts: seq<string>, ret: string, first: bool, base: char, b: bv32)
    returns (ret': string, first': bool)
    requires ret == [Esc, '['] + Join(parts) && first == (parts == [])
    ensures ret' == [Esc, '['] + Join(parts + ColorPart(base, b))
    ensures first' == (parts + ColorPart(base, b) == [])
  {
    if b & 0xff != 0 {
      var idx := FirstSetBit(b);
      var part := [base, '0'];
      if idx < 8 {
        part := [base, Digit(idx)];
      }
      ret' := PutPart(parts, ret, first, part);
      first' := false;
    } else {
      assert parts + ColorPart(base, b) == parts;
      ret', first' := ret, first;
    }
  }

  /** The attribute part of `GetStyleCode`: ESC '[' and the attribute parameters. */
  method SpecialsCode(flag: bv32) returns (ret: string, first: bool)
    ensures ret == [Esc, '['] + Join(Specials(flag)) && first == (Specials(flag) == [])
  {
    ret := [Esc, '['];
    first := true;
    ghost var parts: seq<string> := [];
    ret, first := PutAttr(parts, ret, first, flag, SpecBold, "1");
    parts := Attr(flag, SpecBold, "1");
    ret, first := PutAttr(parts, ret, first, flag, SpecUnderline, "4");
    parts := parts + Attr(flag, SpecUnderline, "4");
    ret, first := PutAttr(parts, ret, first, flag, SpecFlash, "5");
    parts := parts + Attr(flag, SpecFlash, "5");
    ret, first := PutAttr(parts, ret, first, flag, SpecDark, "2");
    SpecialsInOrder(flag);
  }

  /** `GetStyleCode(iFlag)`: builds the code part by part, with `first` telling whether a
      separator is due; the flag is shifted down a byte before each colour. */
  method GetStyleCode(flag: bv32) returns (ret: string)
    ensures ret == StyleCode(flag)
  {
    var first;
    ret, first := SpecialsCode(flag);
    var fg := flag >> 8;
    ret, first := PutColor(Specials(flag), ret, first, '3', fg);
    var bg := fg >> 8;
    assert bg == flag >> 16;
    ret, first := PutColor(Specials(flag) + ColorPart('3', fg), ret, first, '4', bg);
    ret := ret + "m";
  }

  // ---------------------------------------------------------------- what the code means

  /** The lowest set bit of a non-zero byte is below 8, set, and has no set bit under it. */
  lemma {:induction false} LowestBitMeaning(b: bv32, i: nat)
    requires i <= 8
    requires exists k: nat :: i <= k < 8 && BitSet(b, k)
    ensures var r := LowestBit(b, i); r < 8 && BitSet(b, r) && forall k: nat :: i <= k < r ==> !BitSet(b, k)
    decreases 8 - i
  {
    if !BitSet(b, i) {
      LowestBitMeaning(b, i + 1);
      var r := LowestBit(b, i + 1);
      assert LowestBit(b, i) == r;
      assert forall k: nat :: i + 1 <= k < r ==> !BitSet(b, k);
    }
  }

  /** A byte is non-zero exactly when one of its eight bits is set. */
  lemma ByteBits(b: bv32)
    ensures b & 0xff != 0 <==> exists k: nat :: 0 <= k < 8 && BitSet(b, k)
  {
    if b & 0xff != 0 {
      if !BitSet(b, 0) && !BitSet(b, 1) && !BitSet(b, 2) && !BitSet(b, 3)
        && !BitSet(b, 4) && !BitSet(b, 5) && !BitSet(b, 6) {
        assert BitSet(b, 7);
      }
    }
  }

  /** What a terminal makes of a style code: the attributes it turns on and the colour
      index (0 to 7) of the foreground and the background. */
  datatype Style = Style(bold: bool, underline: bool, flash: bool, dark: bool,
                         fg: Option<nat>, bg: Option<nat>)

  /** The style before any parameter. */
  const NoStyle := Style(false, false, false, false, None, None)

  /** One parameter applied: an attribute, a foreground (`3d`) or background (`4d`) colour,
      or, for anything else, no change. */
  function Apply(st: Style, p: string): Style
  {
    if p == "1" then st.(bold := true)
    else if p == "4" then st.(underline := true)
    else if p == "5" then st.(flash := true)
    else if p == "2" then st.(dark := true)
    else if |p| == 2 && p[0] == '3' && '0' <= p[1] <= '7' then st.(fg := Some(p[1] as int - '0' as int))
    else if |p| == 2 && p[0] == '4' && '0' <= p[1] <= '7' then st.(bg := Some(p[1] as int - '0' as int))
    else st
  }

  /** The parameters applied from left to right. */
  function ApplyAll(st: Style, ps: seq<string>): Style
    decreases |ps|
  {
    if ps == [] then st else ApplyAll(Apply(st, ps[0]), ps[1..])
  }

  /** The index of the last ';' of `s`, or -1. */
  function LastSemi(s: string): (r: int)
    ensures -1 <= r < |s|
    ensures r >= 0 ==> s[r] == ';'
  {
    if s == [] then -1 else if s[|s| - 1] == ';' then |s| - 1 else LastSemi(s[..|s| - 1])
  }

  /** The parameters of a control sequence, as a terminal splits them at ';'. */
  function Split(s: string): (r: seq<string>)
    decreases |s|
  {
    if s == [] then []
    else
      var i := LastSemi(s);
      if i < 0 then [s] else Split(s[..i]) + [s[i + 1..]]
  }

  /** What a terminal reads from a control sequence: `None` when it is not one, otherwise the
      style its parameters set. */
  function DecodeStyle(code: string): (r: Option<Style>)
  {
    if |code| >= 3 && code[0] == Esc && code[1] == '[' && code[|code| - 1] == 'm' then
      Some(ApplyAll(NoStyle, Split(code[2..|code| - 1])))
    else None
  }

  /** The colour index a colour byte shows: that of its lowest set bit. */
  function ColorIndex(b: bv32): Option<nat>
  {
    if b & 0xff == 0 then None else Some(LowestBit(b, 0))
  }

  /** The style `flag` asks for, as far as a code can show it: the attributes and the lowest
      set bit of each colour byte. */
  function Shown(flag: bv32): Style
  {
    Style(flag & SpecBold != 0, flag & SpecUnderline != 0, flag & SpecFlash != 0,
          flag & SpecDark != 0, ColorIndex(flag >> 8), ColorIndex(flag >> 16))
  }

  /** A ';'-free non-empty parameter. */
  predicate Plain(p: string)
  {
    p != [] && ';' !in p
  }

  /** The last ';' of a joined list is the one before its last parameter. */
  lemma {:induction false} LastSemiOfJoin(front: string, x: string)
    requires ';' !in x
    ensures LastSemi(front + ";" + x) == |front|
    decreases |x|
  {
    var s := front + ";" + x;
    if x != [] {
      assert s[..|s| - 1] == front + ";" + x[..|x| - 1];
      LastSemiOfJoin(front, x[..|x| - 1]);
    }
  }

  /** A ';'-free text has no ';' to find. */
  lemma {:induction false} LastSemiNone(x: string)
    requires ';' !in x
    ensures LastSemi(x) == -1
    decreases |x|
  {
    if x != [] {
      LastSemiNone(x[..|x| - 1]);
    }
  }

  /** Splitting undoes joining plain parameters. */
  lemma {:induction false} SplitJoin(parts: seq<string>)
    requires forall k :: 0 <= k < |parts| ==> Plain(parts[k])
    ensures Split(Join(parts)) == parts
  {
    if |parts| == 1 {
      LastSemiNone(parts[0]);
    } else if |parts| > 1 {
      var front := parts[..|parts| - 1];
      var x := parts[|parts| - 1];
      var s := Join(front) + ";" + x;
      assert Plain(x);
      LastSemiOfJoin(Join(front), x);
      assert s[..|Join(front)|] == Join(front);
      assert s[|Join(front)| + 1..] == x;
      SplitJoin(front);
      assert front + [x] == parts;
    }
  }

  /** Applying a concatenation applies one half after the other. */
  lemma {:induction false} ApplyAllAppend(st: Style, a: seq<string>, b: seq<string>)
    ensures ApplyAll(st, a + b) == ApplyAll(ApplyAll(st, a), b)
    decreases |a|
  {
    if a == [] {
      assert a + b == b;
    } else {
      assert (a + b)[0] == a[0] && (a + b)[1..] == a[1..] + b;
      ApplyAllAppend(Apply(st, a[0]), a[1..], b);
    }
  }

  /** The parameter of a set attribute is applied; an unset one adds nothing. */
  lemma AttrApplies(st: Style, flag: bv32, bit: bv32, p: string)
    requires Plain(p)
    ensures forall k :: 0 <= k < |Attr(flag, bit, p)| ==> Plain(Attr(flag, bit, p)[k])
    ensures ApplyAll(st, Attr(flag, bit, p)) == if flag & bit != 0 then Apply(st, p) else st
  {
    assert ApplyAll(st, [p]) == ApplyAll(Apply(st, p), []);
  }

  /** The parameter of a non-zero colour byte sets the colour index of its lowest set bit. */
  lemma ColorPartApplies(st: Style, base: char, b: bv32)
    requires base == '3' || base == '4'
    ensures forall k :: 0 <= k < |ColorPart(base, b)| ==> Plain(ColorPart(base, b)[k])
    ensures ApplyAll(st, ColorPart(base, b))
         == if ColorIndex(b).None? then st
            else if base == '3' then st.(fg := ColorIndex(b))
            else st.(bg := ColorIndex(b))
  {
    if b & 0xff != 0 {
      ByteBits(b);
      LowestBitMeaning(b, 0);
      var p := [base, Digit(LowestBit(b, 0))];
      assert ColorPart(base, b) == [p];
      assert ApplyAll(st, [p]) == ApplyAll(Apply(st, p), []);
    }
  }

  /** The attribute parameters turn on exactly the attributes of the flag. */
  lemma SpecialsApply(flag: bv32)
    ensures forall k :: 0 <= k < |Specials(flag)| ==> Plain(Specials(flag)[k])
    ensures ApplyAll(NoStyle, Specials(flag))
         == NoStyle.(bold := flag & SpecBold != 0, underline := flag & SpecUnderline != 0,
                     flash := flag & SpecFlash != 0, dark := flag & SpecDark != 0)
  {
    var s1, s4 := Attr(flag, SpecBold, "1"), Attr(flag, SpecUnderline, "4");
    var s5, s2 := Attr(flag, SpecFlash, "5"), Attr(flag, SpecDark, "2");
    var st1 := ApplyAll(NoStyle, s1);
    var st4 := ApplyAll(st1, s4);
    var st5 := ApplyAll(st4, s5);
    SpecialsInOrder(flag);
    SpecialsPlain(flag);
    AttrApplies(NoStyle, flag, SpecBold, "1");
    AttrApplies(st1, flag, SpecUnderline, "4");
    AttrApplies(st4, flag, SpecFlash, "5");
    AttrApplies(st5, flag, SpecDark, "2");
    assert st1 == NoStyle.(bold := flag & SpecBold != 0);
    assert st4 == st1.(underline := flag & SpecUnderline != 0);
    assert st5 == st4.(flash := flag & SpecFlash != 0);
    ApplyAllAppend(NoStyle, s1, s4);
    ApplyAllAppend(NoStyle, s1 + s4, s5);
    ApplyAllAppend(NoStyle, s1 + s4 + s5, s2);
  }

  /** The attribute parameters are single digits. */
  lemma SpecialsPlain(flag: bv32)
    ensures forall k :: 0 <= k < |Specials(flag)| ==> Plain(Specials(flag)[k])
  {
    SpecialsInOrder(flag);
    var sp := Specials(flag);
    forall k | 0 <= k < |sp| ensures Plain(sp[k]) {
      assert sp[k] in Attr(flag, SpecBold, "1") || sp[k] in Attr(flag, SpecUnderline, "4")
        || sp[k] in Attr(flag, SpecFlash, "5") || sp[k] in Attr(flag, SpecDark, "2");
    }
  }

  /** The parameters of the code for `flag` are plain and set the style it shows. */
  lemma PartsApply(flag: bv32)
    ensures forall k :: 0 <= k < |Parts(flag)| ==> Plain(Parts(flag)[k])
    ensures ApplyAll(NoStyle, Parts(flag)) == Shown(flag)
  {
    var sp, fg, bg := Specials(flag), ColorPart('3', flag >> 8), ColorPart('4', flag >> 16);
    SpecialsApply(flag);
    var st1 := ApplyAll(NoStyle, sp);
    ColorPartApplies(st1, '3', flag >> 8);
    ColorPartApplies(ApplyAll(st1, fg), '4', flag >> 16);
    ApplyAllAppend(NoStyle, sp, fg);
    ApplyAllAppend(NoStyle, sp + fg, bg);
  }

  /** A terminal reading the code for `flag` gets back exactly the attributes and the lowest
      foreground and background colour bits. */
  lemma StyleCodeDecodes(flag: bv32)
    ensures DecodeStyle(StyleCode(flag)) == Some(Shown(flag))
  {
    var parts := Parts(flag);
    PartsApply(flag);
    SplitJoin(parts);
    var code := StyleCode(flag);
    assert code[2..|code| - 1] == Join(parts);
  }

  /** Two flags with the same code show the same attributes and lowest colours. */
  lemma SameCodeSameStyle(f: bv32, g: bv32)
    requires StyleCode(f) == StyleCode(g)
    ensures Shown(f) == Shown(g)
  {
    StyleCodeDecodes(f);
    StyleCodeDecodes(g);
  }

  /** The help style of the command dispatcher, yellow and bold, is ESC "[1;33m". */
  lemma YellowBoldCode()
    ensures StyleCode(ColorYellow | SpecBold) == [Esc] + "[1;33m"
  {
    var flag := ColorYellow | SpecBold;
    SpecialsInOrder(flag);
    assert LowestBit(0x08, 0) == 3;
    assert Specials(flag) == ["1"];
    assert ColorPart('3', flag >> 8) == ["33"];
    assert ColorPart('4', flag >> 16) == [];
    assert Parts(flag) == ["1", "33"];
    assert Join(["1", "33"]) == "1;33";
  }

  /** Red and green together show only red, the lower bit: ESC "[31m". */
  lemma LowestColorWins()
    ensures StyleCode(ColorRed | ColorGreen) == StyleCode(ColorRed) == [Esc] + "[31m"
  {
    SpecialsInOrder(ColorRed | ColorGreen);
    SpecialsInOrder(ColorRed);
    assert LowestBit(0x06, 0) == 1;
    assert LowestBit(0x02, 0) == 1;
    assert Specials(ColorRed | ColorGreen) == [] && Specials(ColorRed) == [];
    assert ColorPart('3', (ColorRed | ColorGreen) >> 8) == ["31"] == ColorPart('3', ColorRed >> 8);
    assert ColorPart('4', (ColorRed | ColorGreen) >> 16) == [] == ColorPart('4', ColorRed >> 16);
  }

  /** No style at all is the empty rendition ESC "[m". */
  lemma NullStyleCode()
    ensures StyleCode(SpecNull) == [Esc] + "[m"
  {
    SpecialsInOrder(SpecNull);
    assert Parts(SpecNull) == [];
  }

  // ---------------------------------------------------------------- colour terminals

  /** The terminal types known to show colours (two names the source inserts twice appear
      once). */
  const ColorTerms: set<string> := {
    "eterm", "ansi", "color-xterm", "con132x25", "con132x30", "con132x43", "con132x60",
    "con80x25", "con80x28", "con80x30", "con80x43", "con80x50", "con80x60", "cons25",
    "console", "cygwin", "dtterm", "eterm-color", "gnome", "gnome-256color", "jfbterm",
    "konsole", "kterm", "linux", "linux-c", "mach-color", "mlterm", "putty", "rxvt",
    "rxvt-256color", "rxvt-cygwin", "rxvt-cygwin-native", "rxvt-unicode", "rxvt-unicode256",
    "screen", "screen-256color", "screen-256color-bce", "screen-bce", "screen-w",
    "screen.linux", "vt100", "xterm", "xterm-16color", "xterm-256color", "xterm-88color",
    "xterm-color", "xterm-debian"
  }

  /** A text with every ASCII capital lowered. */
  function Lowered(s: string): (r: string)
  {
    seq(|s|, k requires 0 <= k < |s| => StringOprs.ToLower(s[k]))
  }

  /** The `std::transform` over the terminal name, in place. */
  method LowerInPlace(s: string) returns (r: string)
    ensures r == Lowered(s)
  {
    r := s;
    var i := 0;
    while i < |r|
      invariant i <= |r| == |s|
      invariant forall k :: 0 <= k < i ==> r[k] == StringOprs.ToLower(s[k])
      invariant forall k :: i <= k < |r| ==> r[k] == s[k]
    {
      r := r[i := StringOprs.ToLower(r[i])];
      i := i + 1;
    }
  }

  /** `_check_term_color_status`, with the `TERM` environment variable as `term` (`None`
      when it is not set, which reads as the empty name): 1 for a colour terminal, else -1. */
  function TermColorStatus(term: Option<string>): (r: int)
  {
    var name := if term.Some? then term.value else "";
    if Lowered(name) in ColorTerms then 1 else -1
  }

  /** The same check, step by step. */
  method CheckTermColorStatus(term: Option<string>) returns (status: int)
    ensures status == TermColorStatus(term)
  {
    var name := "";
    if term.Some? {
      name := term.value;
    }
    name := LowerInPlace(name);
    if name !in ColorTerms {
      return -1;
    }
    return 1;
  }

  /** A text with every ASCII small letter raised. */
  function Uppered(s: string): (r: string)
  {
    seq(|s|, k requires 0 <= k < |s| => StringOprs.ToUpper(s[k]))
  }

  /** Lowering forgets how a text was cased. */
  lemma LoweredForgetsCase(s: string)
    ensures Lowered(Lowered(s)) == Lowered(s) && Lowered(Uppered(s)) == Lowered(s)
  {
    forall k | 0 <= k < |s|
      ensures Lowered(Lowered(s))[k] == Lowered(s)[k] && Lowered(Uppered(s))[k] == Lowered(s)[k]
    {
      StringOprs.CaseRoundTrip(s[k]);
    }
  }

  /** The check answers 1 or -1, reads an unset `TERM` as the empty name, and ignores the
      ASCII case of the name: its upper-case and lower-case forms get the same answer. */
  lemma TermStatusMeaning(term: Option<string>)
    ensures TermColorStatus(term) == 1 || TermColorStatus(term) == -1
    ensures term.None? ==> TermColorStatus(term) == TermColorStatus(Some(""))
    ensures term.Some? ==>
      TermColorStatus(Some(Uppered(term.value))) == TermColorStatus(term)
      && TermColorStatus(Some(Lowered(term.value))) == TermColorStatus(term)
  {
    if term.Some? {
      LoweredForgetsCase(term.value);
    }
  }

  // ---------------------------------------------------------------- GenerateString

  /** `GenerateString(strInput, iFlag)` once the terminal status is known: unchanged without
      colour support or style, otherwise wrapped in the style and close codes. */
  function Styled(input: string, flag: bv32, status: int): (r: string)
  {
    if status < 0 || flag == 0 then input else StyleCode(flag) + input + CloseCode
  }

  /** The text inside a styled result is the input, and the result shows the flag's style. */
  lemma StyledRecovers(input: string, flag: bv32, status: int)
    ensures var r := Styled(input, flag, status);
      if status < 0 || flag == 0 then r == input
      else
        var c := StyleCode(flag);
        |r| == |c| + |input| + 4 && r[..|c|] == c && r[|c|..|r| - 4] == input
        && r[|r| - 4..] == CloseCode && DecodeStyle(c) == Some(Shown(flag))
  {
    StyleCodeDecodes(flag);
    if !(status < 0 || flag == 0) {
      var c := StyleCode(flag);
      var r := c + input + CloseCode;
      assert r[..|c|] == c;
      assert r[|c|..|r| - 4] == input;
      assert r[|r| - 4..] == CloseCode;
    }
  }

  /** The function-local static `status_` of `GenerateString`: 0 until the first call reads
      the terminal, and kept from then on. */
  class TermCache {
    var status: int

    constructor()
      ensures status == 0
    {
      status := 0;
    }

    /** `GenerateString`, where `term` is `TERM` at the time of the call; it is read only
        when no status is cached. */
    method GenerateString(input: string, flag: bv32, term: Option<string>) returns (r: string)
      modifies this
      ensures status == if old(status) == 0 then TermColorStatus(term) else old(status)
      ensures r == Styled(input, flag, status)
    {
      if status == 0 {
        status := CheckTermColorStatus(term);
      }
      if status < 0 || flag == 0 {
        return input;
      }
      var code := GetStyleCode(flag);
      r := code + input + CloseCode;
    }
  }

  // ---------------------------------------------------------------- shell_stream_opr

  /** An output stream: what was written to it, one `<<` at a time. */
  class Stream {
    var writes: seq<string>

    constructor()
      ensures writes == []
    {
      writes := [];
    }
  }

  /** The text a stream holds after the writes `ws`. */
  function Flatten(ws: seq<string>): string
  {
    if ws == [] then [] else Flatten(ws[..|ws| - 1]) + ws[|ws| - 1]
  }

  /** What a pending flag is written as: its style code, nothing for no style. */
  function PendingWrite(flag: bv32): seq<string>
  {
    if flag == SpecNull then [] else [StyleCode(flag)]
  }

  /** `shell_stream::shell_stream_opr`: a handle on a stream (`os`, possibly null) that
      collects styles in `flag` and writes them before the next value. Handles copied from one
      another share the stream. */
  class StreamOpr {
    var os: Stream?
    var flag: bv32

    /** `shell_stream_opr(os)`: no style pending. */
    constructor(os: Stream?)
      ensures this.os == os && flag == SpecNull
    {
      this.os := os;
      flag := SpecNull;
    }

    /** The copy constructor: the same stream, no style pending. */
    constructor Copy(other: StreamOpr)
      ensures os == other.os && flag == SpecNull
    {
      os := other.os;
      flag := SpecNull;
    }

    /** `operator=`: the other handle's stream, and the pending style dropped. */
    method Assign(other: StreamOpr)
      modifies this
      ensures os == old(other.os) && flag == SpecNull
    {
      os := other.os;
      flag := SpecNull;
    }

    /** `close`: writes the pending style, if any, and clears it; without a stream nothing
        happens. */
    method Close()
      modifies this, os
      ensures os == old(os)
      ensures os == null ==> flag == old(flag)
      ensures os != null ==> flag == SpecNull && os.writes == old(os.writes) + PendingWrite(old(flag))
    {
      if os == null {
        return;
      }
      if flag == SpecNull {
        return;
      }
      var code := GetStyleCode(flag);
      os.writes := os.writes + [code];
      flag := SpecNull;
    }

    /** `reset`: closes, then writes the close code; without a stream nothing happens. */
    method Reset()
      modifies this, os
      ensures os == old(os)
      ensures os == null ==> flag == old(flag)
      ensures os != null ==>
                flag == SpecNull && os.writes == old(os.writes) + PendingWrite(old(flag)) + [CloseCode]
    {
      if os == null {
        return;
      }
      Close();
      os.writes := os.writes + [CloseCode];
    }

    /** `open(f)` (and `<<` of a style): the null style resets, any other is added to the
        pending one. */
    method Open(f: bv32)
      modifies this, os
      ensures os == old(os)
      ensures f == SpecNull && os != null ==>
                flag == SpecNull && os.writes == old(os.writes) + PendingWrite(old(flag)) + [CloseCode]
      ensures f == SpecNull && os == null ==> flag == old(flag)
      ensures f != SpecNull ==> flag == old(flag) | f && (os != null ==> os.writes == old(os.writes))
    {
      if f == SpecNull {
        Reset();
        return;
      }
      flag := flag | f;
    }

    /** `<<` of any other value, here its printed text (and of a manipulator such as
        `std::endl`, whose text is "\n"): the pending style goes out first. The stream must
        exist, as the operator writes to it unchecked. */
    method Write(v: string)
      requires os != null
      modifies this, os
      ensures os == old(os) && flag == SpecNull
      ensures os.writes == old(os.writes) + PendingWrite(old(flag)) + [v]
    {
      Close();
      os.writes := os.writes + [v];
    }

    /** `<<` of `nullptr`. */
    method WriteNull()
      requires os != null
      modifies this, os
      ensures os == old(os) && flag == SpecNull
      ensures os.writes == old(os.writes) + PendingWrite(old(flag)) + ["nullptr"]
    {
      Write("nullptr");
    }

    /** The destructor: a handle on a stream resets it. */
    method Destroy()
      modifies this, os
      ensures os == old(os)
      ensures os != null ==> os.writes == old(os.writes) + PendingWrite(old(flag)) + [CloseCode]
    {
      if os == null {
        return;
      }
      Reset();
    }
  }

  /** Three writes hold their texts one after the other. */
  lemma FlattenThree(a: string, b: string, c: string)
    ensures Flatten([a, b, c]) == a + b + c
  {
    assert [a, b, c][..2] == [a, b] && [a, b][..1] == [a] && [a][..0] == [];
    assert Flatten([a]) == a;
    assert Flatten([a, b]) == a + b;
  }

  /** `shell_stream()() << style << input` with a style other than the null one, then the
      handle goes away: the stream receives the style code, the input and the close code, which
      together are what `GenerateString` gives on a colour terminal. The handle never asks
      whether the terminal shows colours. */
  method StreamStyled(style: bv32, input: string) returns (writes: seq<string>)
    requires style != SpecNull
    ensures writes == [StyleCode(style), input, CloseCode]
    ensures Flatten(writes) == Styled(input, style, 1)
  {
    var os := new Stream();
    var opr := new StreamOpr(os);
    opr.Open(style);
    opr.Write(input);
    opr.Destroy();
    writes := os.writes;
    FlattenThree(StyleCode(style), input, CloseCode);
  }

  /** `shell_stream()() << SHELL_FONT_SPEC_NULL << input`, then the handle goes away: the null
      style resets at once, so the input sits between two close codes. */
  method StreamReset(input: string) returns (writes: seq<string>)
    ensures writes == [CloseCode, input, CloseCode]
    ensures Flatten(writes) == CloseCode + input + CloseCode
  {
    var os := new Stream();
    var opr := new StreamOpr(os);
    opr.Open(SpecNull);
    opr.Write(input);
    opr.Destroy();
    writes := os.writes;
    FlattenThree(CloseCode, input, CloseCode);
  }
}
