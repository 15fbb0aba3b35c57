/** The colour printer of project/cmake/print_color.py: a message is written through one of
    four back ends (ANSI terminal codes, Windows console attributes, HTML spans, or plain
    text), chosen once by `cprintf_set_mode` from a mode name and the environment. The
    environment and the platform name are an `Env` value, the output stream an `Output`
    object, and Python's `str.format` a function parameter. */
module PrintColor {
  import opened Optional
  import StringOprs
  import Text

  /** The `print_style` constants: foreground colours 0-7, background colours 8-15 (the
      same colours in the same order), bold 16. */
  type StyleCode = x: nat | x <= 16

  const FwBold: StyleCode := 16

  /** The eight colours, in the order of the `print_style` constants. */
  datatype Colour = Black | Blue | Green | Cyan | Red | Magenta | Yellow | White

  /** The colour of foreground code `c` (and of background code `c + 8`). */
  function ColourOf(c: nat): Colour
    requires c < 8
  {
    [Black, Blue, Green, Cyan, Red, Magenta, Yellow, White][c]
  }

  predicate HasBlue(c: Colour)
  {
    c == Blue || c == Cyan || c == Magenta || c == White
  }

  predicate HasGreen(c: Colour)
  {
    c == Green || c == Cyan || c == Yellow || c == White
  }

  predicate HasRed(c: Colour)
  {
    c == Red || c == Magenta || c == Yellow || c == White
  }

  /** The colour's name as the constants and the CSS colour keywords spell it. */
  function ColourName(c: Colour): string
  {
    match c
    case Black => "Black"
    case Blue => "Blue"
    case Green => "Green"
    case Cyan => "Cyan"
    case Red => "Red"
    case Magenta => "Magenta"
    case Yellow => "Yellow"
    case White => "White"
  }

  /** The colour's place among the SGR colour parameters of section 8.3.117 of ECMA-48
      (30 black, 31 red, 32 green, 33 yellow, 34 blue, 35 magenta, 36 cyan, 37 white). */
  function EcmaIndex(c: Colour): nat
  {
    match c
    case Black => 0
    case Red => 1
    case Green => 2
    case Yellow => 3
    case Blue => 4
    case Magenta => 5
    case Cyan => 6
    case White => 7
  }

  /** The constants number the colours by their blue, green and red parts as bits 1, 2 and 4,
      and ECMA-48 by their red, green and blue parts as bits 1, 2 and 4. */
  lemma ColourNumbering(c: nat)
    requires c < 8
    ensures c == (if HasBlue(ColourOf(c)) then 1 else 0) + (if HasGreen(ColourOf(c)) then 2 else 0) + (if HasRed(ColourOf(c)) then 4 else 0)
    ensures EcmaIndex(ColourOf(c)) == (if HasRed(ColourOf(c)) then 1 else 0) + (if HasGreen(ColourOf(c)) then 2 else 0) + (if HasBlue(ColourOf(c)) then 4 else 0)
  {
  }

  // ---------------------------------------------------------------- the three code tables

  /** `TermColor.COLOR_MAP`. */
  function TermCode(o: StyleCode): string
  {
    match o
    case 0 => "30"
    case 1 => "34"
    case 2 => "32"
    case 3 => "36"
    case 4 => "31"
    case 5 => "35"
    case 6 => "33"
    case 7 => "37"
    case 8 => "40"
    case 9 => "44"
    case 10 => "42"
    case 11 => "46"
    case 12 => "41"
    case 13 => "45"
    case 14 => "43"
    case 15 => "47"
    case _ => "1"
  }

  /** The SGR parameter of section 8.3.117 of ECMA-48 for a style: 30 to 37 for a foreground
      colour, 40 to 47 for a background colour, 1 for bold. */
  function SgrParameter(o: StyleCode): nat
  {
    if o < 8 then 30 + EcmaIndex(ColourOf(o))
    else if o < 16 then 40 + EcmaIndex(ColourOf(o - 8))
    else 1
  }

  /** Every terminal code is the decimal numeral of the ECMA-48 parameter for the same
      colour. */
  lemma TermCodeIsSgr(o: StyleCode)
    ensures TermCode(o) == StringOprs.Decimal(SgrParameter(o))
  {
    match o
    case 0 => case 1 => case 2 => case 3 => case 4 => case 5 => case 6 => case 7 =>
    case 8 => case 9 => case 10 => case 11 => case 12 => case 13 => case 14 => case 15 =>
    case _ =>
  }

  /** `HtmlColor.COLOR_MAP`: "color: Black;" to "color: White;" for the foreground codes,
      "background-color: Black;" to "background-color: White;" for the background codes, and
      "font-weight: bold;". */
  function HtmlDecl(o: StyleCode): string
  {
    if o < 8 then "color: " + ColourName(ColourOf(o)) + ";"
    else if o < 16 then "background-color: " + ColourName(ColourOf(o - 8)) + ";"
    else "font-weight: bold;"
  }

  lemma NameLetters(c: Colour)
    ensures '"' !in ColourName(c) && '<' !in ColourName(c)
  {
    match c
    case Black => case Blue => case Green => case Cyan => case Red => case Magenta => case Yellow => case White =>
  }

  lemma DeclPlain(p: string, c: Colour)
    requires '"' !in p && '<' !in p
    ensures '"' !in p + ColourName(c) + ";" && '<' !in p + ColourName(c) + ";"
  {
    NameLetters(c);
  }

  /** No declaration holds a '"' or a '<'. */
  lemma HtmlDeclPlain(o: StyleCode)
    ensures '"' !in HtmlDecl(o) && '<' !in HtmlDecl(o)
  {
    if o < 8 {
      DeclPlain("color: ", ColourOf(o));
    } else if o < 16 {
      DeclPlain("background-color: ", ColourOf(o - 8));
    }
  }

  const ForegroundBlack: bv8 := 0x0
  const ForegroundBlue: bv8 := 0x01
  const ForegroundGreen: bv8 := 0x02
  const ForegroundRed: bv8 := 0x04
  const ForegroundIntensity: bv8 := 0x08
  const BackgroundBlue: bv8 := 0x10
  const BackgroundGreen: bv8 := 0x20
  const BackgroundRed: bv8 := 0x40
  const BackgroundIntensity: bv8 := 0x80

  /** `Win32ConsoleColor.COLOR_MAP`: console character attributes. */
  function Win32Attr(o: StyleCode): bv8
  {
    match o
    case 0 => ForegroundBlack
    case 1 => ForegroundBlue | ForegroundIntensity
    case 2 => ForegroundGreen | ForegroundIntensity
    case 3 => ForegroundGreen | ForegroundBlue | ForegroundIntensity
    case 4 => ForegroundRed | ForegroundIntensity
    case 5 => ForegroundRed | ForegroundBlue | ForegroundIntensity
    case 6 => ForegroundRed | ForegroundGreen | ForegroundIntensity
    case 7 => ForegroundBlue | ForegroundGreen | ForegroundRed
    case 8 => ForegroundBlack
    case 9 => BackgroundBlue
    case 10 => BackgroundGreen
    case 11 => BackgroundBlue | BackgroundGreen
    case 12 => BackgroundRed
    case 13 => BackgroundRed | BackgroundBlue
    case 14 => BackgroundRed | BackgroundGreen
    case 15 => BackgroundRed | BackgroundGreen | BackgroundBlue
    case _ => BackgroundIntensity
  }

  /** The colour's blue, green and red parts as the console's foreground bits. */
  function RgbBits(c: Colour): bv8
  {
    (if HasBlue(c) then ForegroundBlue else 0) | (if HasGreen(c) then ForegroundGreen else 0) | (if HasRed(c) then ForegroundRed else 0)
  }

  /** Every console attribute shows the colour the constant names: a foreground colour other
      than black and white intensified, a background colour in the background bits, and bold
      as the background intensity. */
  lemma Win32AttrShowsColour(o: StyleCode)
    ensures o < 8 ==> Win32Attr(o) == RgbBits(ColourOf(o)) | (if ColourOf(o) == Black || ColourOf(o) == White then 0 else ForegroundIntensity)
    ensures 8 <= o < 16 ==> Win32Attr(o) == RgbBits(ColourOf(o - 8)) << 4
    ensures o == FwBold ==> Win32Attr(o) == BackgroundIntensity
    ensures Win32Attr(o) == 0 <==> o == 0 || o == 8
  {
    match o
    case 0 => case 1 => case 2 => case 3 => case 4 => case 5 => case 6 => case 7 =>
    case 8 => case 9 => case 10 => case 11 => case 12 => case 13 => case 14 => case 15 =>
    case _ =>
  }

  // ---------------------------------------------------------------- the output

  /** A copy of `n` times `a`. */
  function Repeat<T>(a: T, n: nat): (r: seq<T>)
    ensures |r| == n && forall k :: 0 <= k < n ==> r[k] == a
  {
    if n == 0 then [] else Repeat(a, n - 1) + [a]
  }

  /** An output stream (`sys.stdout` or `sys.stderr`; the back ends treat both alike) with
      the console attribute each character was written in. */
  class Output {
    var written: string
    var attrs: seq<bv8>
    var attribute: bv8

    constructor(attribute0: bv8)
      ensures written == [] && attrs == [] && attribute == attribute0
    {
      written, attrs, attribute := [], [], attribute0;
    }

    /** `write`: the text goes out in the current attribute. */
    method Write(s: string)
      modifies this
      ensures written == old(written) + s && attrs == old(attrs) + Repeat(old(attribute), |s|)
      ensures attribute == old(attribute)
    {
      written := written + s;
      attrs := attrs + Repeat(attribute, |s|);
    }
  }

  // ---------------------------------------------------------------- the terminal back end

  const Esc: char := 27 as char

  function TermCodes(options: seq<StyleCode>): (r: seq<string>)
    ensures |r| == |options| && forall k :: 0 <= k < |options| ==> r[k] == TermCode(options[k])
  {
    seq(|options|, k requires 0 <= k < |options| => TermCode(options[k]))
  }

  /** What the terminal back end writes: the text inside an SGR sequence for the codes and
      the reset sequence, or the bare text with no option. */
  function TermText(options: seq<StyleCode>, text: string): string
  {
    if options == [] then text
    else [Esc, '['] + Text.Join(TermCodes(options), ';') + "m" + text + [Esc] + "[0m"
  }

  /** The loop `style.append(COLOR_MAP[opt])` over the options, for the code table of a
      back end. */
  method GatherStyle(options: seq<StyleCode>, table: StyleCode -> string) returns (style: seq<string>)
    ensures |style| == |options| && forall k :: 0 <= k < |options| ==> style[k] == table(options[k])
  {
    style := [];
    for i := 0 to |options|
      invariant |style| == i && forall k :: 0 <= k < i ==> style[k] == table(options[k])
    {
      style := style + [table(options[i])];
    }
  }

  /** `TermColor.stdout_with_color` and `stderr_with_color`. */
  method TermWrite(out: Output, options: seq<StyleCode>, text: string)
    modifies out
    ensures out.written == old(out.written) + TermText(options, text)
    ensures out.attrs == old(out.attrs) + Repeat(old(out.attribute), |TermText(options, text)|)
    ensures out.attribute == old(out.attribute)
  {
    var style := GatherStyle(options, TermCode);
    assert style == TermCodes(options);
    if |style| > 0 {
      out.Write([Esc, '['] + Text.Join(style, ';') + "m" + text + [Esc] + "[0m");
    } else {
      out.Write(text);
    }
  }

  /** A code is digits only. */
  lemma TermCodeDigits(o: StyleCode)
    ensures ';' !in TermCode(o) && 'm' !in TermCode(o)
  {
    TermCodeIsSgr(o);
    var d := TermCode(o);
    forall k | 0 <= k < |d| ensures d[k] != ';' && d[k] != 'm' {
      assert StringOprs.IsDigit(d[k], 10);
    }
  }

  lemma {:induction false} JoinAvoids(words: seq<string>, sep: char, c: char)
    requires c != sep && forall k :: 0 <= k < |words| ==> c !in words[k]
    ensures c !in Text.Join(words, sep)
  {
    if |words| > 1 {
      JoinAvoids(words[..|words| - 1], sep, c);
    }
  }

  /** With options, the terminal text is one SGR control sequence (its parameter string ends
      at the first 'm' and, split at ';', reads back as the codes of the options in order, each
      an ECMA-48 colour or bold parameter), the text, and the reset sequence; with none it is
      the text itself. */
  lemma TermTextMeaning(options: seq<StyleCode>, text: string)
    ensures options == [] ==> TermText(options, text) == text
    ensures options != [] ==>
      var params := Text.Join(TermCodes(options), ';');
      && TermText(options, text) == [Esc, '['] + params + "m" + text + [Esc, '[', '0', 'm']
      && 'm' !in params
      && Text.Split(params, ';') == TermCodes(options)
      && forall k :: 0 <= k < |options| ==> Text.Split(params, ';')[k] == StringOprs.Decimal(SgrParameter(options[k]))
  {
    if options != [] {
      var codes := TermCodes(options);
      forall k | 0 <= k < |codes| ensures ';' !in codes[k] && 'm' !in codes[k] {
        TermCodeDigits(options[k]);
      }
      Text.SplitJoin(codes, ';');
      JoinAvoids(codes, ';', 'm');
      forall k | 0 <= k < |options| ensures codes[k] == StringOprs.Decimal(SgrParameter(options[k])) {
        TermCodeIsSgr(options[k]);
      }
    }
  }

  // ---------------------------------------------------------------- the HTML back end

  /** `str.replace(c, r)`: every `c` replaced by `r`. */
  function Replace(s: string, c: char, r: string): string
  {
    if s == [] then [] else (if s[0] == c then r else [s[0]]) + Replace(s[1..], c, r)
  }

  /** `cgi.escape(s)`: '&', then '<', then '>' replaced by their entities. */
  function Escape(s: string): string
  {
    Replace(Replace(Replace(s, '&', "&amp;"), '<', "&lt;"), '>', "&gt;")
  }

  function EscapeChar(c: char): string
  {
    if c == '&' then "&amp;" else if c == '<' then "&lt;" else if c == '>' then "&gt;" else [c]
  }

  /** The entity of each character in turn. */
  function EscapeEach(s: string): string
  {
    if s == [] then [] else EscapeChar(s[0]) + EscapeEach(s[1..])
  }

  lemma {:induction false} ReplaceAppend(a: string, b: string, c: char, r: string)
    ensures Replace(a + b, c, r) == Replace(a, c, r) + Replace(b, c, r)
  {
    if a != [] {
      assert (a + b)[1..] == a[1..] + b;
      ReplaceAppend(a[1..], b, c, r);
    } else {
      assert a + b == b;
    }
  }

  lemma ReplaceOther(s: string, c: char, r: string)
    requires c !in s
    ensures Replace(s, c, r) == s
  {
    if s != [] {
      ReplaceOther(s[1..], c, r);
      assert [s[0]] + s[1..] == s;
    }
  }

  lemma ReplaceOne(x: char, c: char, r: string)
    ensures Replace([x], c, r) == if x == c then r else [x]
  {
    assert [x][1..] == [];
  }

  /** Escaping distributes over concatenation. */
  lemma EscapeAppend(a: string, b: string)
    ensures Escape(a + b) == Escape(a) + Escape(b)
  {
    ReplaceAppend(a, b, '&', "&amp;");
    var a1, b1 := Replace(a, '&', "&amp;"), Replace(b, '&', "&amp;");
    ReplaceAppend(a1, b1, '<', "&lt;");
    ReplaceAppend(Replace(a1, '<', "&lt;"), Replace(b1, '<', "&lt;"), '>', "&gt;");
  }

  /** One character escapes to its entity: the entities the first replacements put in are not
      touched by the later ones. */
  lemma EscapeOne(x: char)
    ensures Escape([x]) == EscapeChar(x)
  {
    ReplaceOne(x, '&', "&amp;");
    if x == '&' {
      ReplaceOther("&amp;", '<', "&lt;");
      ReplaceOther("&amp;", '>', "&gt;");
    } else {
      ReplaceOne(x, '<', "&lt;");
      if x == '<' {
        ReplaceOther("&lt;", '>', "&gt;");
      } else {
        ReplaceOne(x, '>', "&gt;");
      }
    }
  }

  /** The three replacements in a row escape each character on its own. */
  lemma {:induction false} EscapeByChar(s: string)
    ensures Escape(s) == EscapeEach(s)
  {
    if s != [] {
      EscapeByChar(s[1..]);
      assert s == [s[0]] + s[1..];
      EscapeAppend([s[0]], s[1..]);
      EscapeOne(s[0]);
    } else {
      assert Escape(s) == [];
    }
  }

  /** Reading the entities back. */
  function Unescape(s: string): string
  {
    if s == [] then []
    else if s[0] != '&' then [s[0]] + Unescape(s[1..])
    else if |s| >= 5 && s[..5] == "&amp;" then "&" + Unescape(s[5..])
    else if |s| >= 4 && s[..4] == "&lt;" then "<" + Unescape(s[4..])
    else if |s| >= 4 && s[..4] == "&gt;" then ">" + Unescape(s[4..])
    else [s[0]] + Unescape(s[1..])
  }

  /** An entity, or a character that needs none, followed by more text reads back as its
      character. */
  lemma UnescapeCons(x: char, rest: string)
    ensures Unescape(EscapeChar(x) + rest) == [x] + Unescape(rest)
  {
    var e := EscapeChar(x);
    var s := e + rest;
    assert s[|e|..] == rest;
    if x == '&' {
      assert s[..5] == "&amp;";
      assert Unescape(s) == "&" + Unescape(s[5..]);
    } else if x == '<' {
      assert s[1] == 'l' && s[..4] == "&lt;";
      assert |s| >= 5 ==> s[..5][1] == 'l';
      assert Unescape(s) == "<" + Unescape(s[4..]);
    } else if x == '>' {
      assert s[1] == 'g' && s[..4] == "&gt;";
      assert |s| >= 5 ==> s[..5][1] == 'g';
      assert s[..4][1] == 'g';
      assert Unescape(s) == ">" + Unescape(s[4..]);
    } else {
      assert e == [x] && s[0] == x;
      assert Unescape(s) == [x] + Unescape(s[1..]);
    }
  }

  lemma {:induction false} UnescapeEach(s: string)
    ensures Unescape(EscapeEach(s)) == s
  {
    if s != [] {
      UnescapeEach(s[1..]);
      UnescapeCons(s[0], EscapeEach(s[1..]));
      assert [s[0]] + s[1..] == s;
    }
  }

  lemma {:induction false} EscapeEachPlain(s: string)
    ensures '<' !in EscapeEach(s) && '>' !in EscapeEach(s)
    ensures '"' !in s ==> '"' !in EscapeEach(s)
  {
    if s != [] {
      EscapeEachPlain(s[1..]);
      assert '<' !in EscapeChar(s[0]) && '>' !in EscapeChar(s[0]);
      assert s[0] != '"' ==> '"' !in EscapeChar(s[0]);
    }
  }

  /** Escaping can be undone, and the escaped text has no '<' or '>' left, so it cannot open
      or close a tag. */
  lemma EscapeRoundTrip(s: string)
    ensures Unescape(Escape(s)) == s
    ensures '<' !in Escape(s) && '>' !in Escape(s)
    ensures '"' !in s ==> '"' !in Escape(s)
  {
    EscapeByChar(s);
    UnescapeEach(s);
    EscapeEachPlain(s);
  }

  function HtmlDecls(options: seq<StyleCode>): (r: seq<string>)
    ensures |r| == |options| && forall k :: 0 <= k < |options| ==> r[k] == HtmlDecl(options[k])
  {
    seq(|options|, k requires 0 <= k < |options| => HtmlDecl(options[k]))
  }

  /** What the HTML back end writes. */
  function HtmlText(options: seq<StyleCode>, text: string): string
  {
    if options == [] then Escape(text)
    else "<span style=\"" + Text.Join(HtmlDecls(options), ' ') + "\">" + Escape(text) + "</span>"
  }

  /** `HtmlColor.stdout_with_color` and `stderr_with_color`. */
  method HtmlWrite(out: Output, options: seq<StyleCode>, text: string)
    modifies out
    ensures out.written == old(out.written) + HtmlText(options, text)
    ensures out.attrs == old(out.attrs) + Repeat(old(out.attribute), |HtmlText(options, text)|)
    ensures out.attribute == old(out.attribute)
  {
    var style := GatherStyle(options, HtmlDecl);
    assert style == HtmlDecls(options);
    if |style| > 0 {
      out.Write("<span style=\"" + Text.Join(style, ' ') + "\">" + Escape(text) + "</span>");
    } else {
      out.Write(Escape(text));
    }
  }

  /** With options, the HTML is one span whose style attribute holds the declarations (no '"'
      ends it early) around the escaped text, which reads back as the text; with none it is
      the escaped text alone. */
  lemma HtmlTextMeaning(options: seq<StyleCode>, text: string)
    ensures options == [] ==> HtmlText(options, text) == Escape(text)
    ensures options != [] ==>
      var style := Text.Join(HtmlDecls(options), ' ');
      && HtmlText(options, text) == "<span style=\"" + style + "\">" + Escape(text) + "</span>"
      && '"' !in style && '<' !in style
    ensures Unescape(Escape(text)) == text && '<' !in Escape(text)
  {
    EscapeRoundTrip(text);
    var decls := HtmlDecls(options);
    forall k | 0 <= k < |decls| ensures '"' !in decls[k] && '<' !in decls[k] {
      HtmlDeclPlain(options[k]);
    }
    JoinAvoids(decls, ' ', '"');
    JoinAvoids(decls, ' ', '<');
  }

  // ---------------------------------------------------------------- the plain back end

  /** `NoneColor.stdout_with_color` and `stderr_with_color`: the text, whatever the
      options. */
  method NoneWrite(out: Output, options: seq<StyleCode>, text: string)
    modifies out
    ensures out.written == old(out.written) + text
    ensures out.attrs == old(out.attrs) + Repeat(old(out.attribute), |text|)
    ensures out.attribute == old(out.attribute)
  {
    out.Write(text);
  }

  // ---------------------------------------------------------------- the Windows console back end

  /** The attribute bits of all the options together. */
  function Win32Style(options: seq<StyleCode>): bv8
  {
    if options == [] then ForegroundBlack else Win32Style(options[..|options| - 1]) | Win32Attr(options[|options| - 1])
  }

  /** The loop OR-ing the attribute bits of the options. */
  method GatherWin32Style(options: seq<StyleCode>) returns (style: bv8)
    ensures style == Win32Style(options)
  {
    style := ForegroundBlack;
    for i := 0 to |options|
      invariant style == Win32Style(options[..i])
    {
      assert options[..i + 1][..i] == options[..i];
      style := style | Win32Attr(options[i]);
    }
    assert options[..|options|] == options;
  }

  /** The style of two option lists is the union of their styles, so neither the order nor
      a repetition of options matters. */
  lemma {:induction false} Win32StyleUnion(a: seq<StyleCode>, b: seq<StyleCode>)
    ensures Win32Style(a + b) == Win32Style(a) | Win32Style(b)
  {
    if b == [] {
      assert a + b == a;
    } else {
      assert (a + b)[..|a + b| - 1] == a + b[..|b| - 1];
      Win32StyleUnion(a, b[..|b| - 1]);
    }
  }

  /** The style is plain exactly when every option is black. */
  lemma {:induction false} Win32StylePlain(options: seq<StyleCode>)
    ensures Win32Style(options) == 0 <==> forall k :: 0 <= k < |options| ==> options[k] == 0 || options[k] == 8
  {
    if options != [] {
      var init := options[..|options| - 1];
      Win32StylePlain(init);
      Win32AttrShowsColour(options[|options| - 1]);
      var x, y := Win32Style(init), Win32Attr(options[|options| - 1]);
      assert x | y == 0 <==> x == 0 && y == 0;
      assert forall k :: 0 <= k < |init| ==> init[k] == options[k];
    }
  }

  /** `get_cmd_color`: always white on black, whatever the console shows. */
  const DefaultAttribute: bv8 := ForegroundRed | ForegroundGreen | ForegroundBlue

  /** `Win32ConsoleColor.stdout_with_color` and `stderr_with_color`: with a plain style the
      text goes out as it is; otherwise in the style, after which the attribute becomes what
      `get_cmd_color` reported. */
  method Win32Write(out: Output, options: seq<StyleCode>, text: string)
    modifies out
    ensures out.written == old(out.written) + text
    ensures Win32Style(options) == 0 ==>
      out.attrs == old(out.attrs) + Repeat(old(out.attribute), |text|) && out.attribute == old(out.attribute)
    ensures Win32Style(options) != 0 ==>
      out.attrs == old(out.attrs) + Repeat(Win32Style(options), |text|) && out.attribute == DefaultAttribute
  {
    var style := GatherWin32Style(options);
    if style == ForegroundBlack {
      out.Write(text);
    } else {
      var oldStyle := DefaultAttribute;
      out.attribute := style;
      out.Write(text);
      out.attribute := oldStyle;
    }
  }

  // ---------------------------------------------------------------- choosing the back end

  datatype Engine = NoneColor | TermColor | Win32ConsoleColor | HtmlColor

  /** The environment variables and the platform name `cprintf_set_mode` reads. */
  datatype Env = Env(cprintfMode: Option<string>, system: string, ostype: Option<string>, term: Option<string>, ansiColorsDisabled: bool)

  /** A mode name that asks for the automatic choice. */
  predicate IsAuto(name: string)
  {
    Text.Lower(name) == [] || Text.Lower(name) == "auto"
  }

  /** An explicit mode name, lowered: anything unknown selects plain text. */
  function Named(m: string): Engine
  {
    if m == "none" then NoneColor
    else if m == "term" then TermColor
    else if m == "win32_console" then Win32ConsoleColor
    else if m == "html" then HtmlColor
    else NoneColor
  }

  function StartsWith(s: string, p: string): bool
  {
    |p| <= |s| && s[..|p|] == p
  }

  /** The automatic choice from the platform: on Windows a terminal under MSYS or Cygwin, or
      whose `TERM` starts with "xterm" or "vt", else the console; elsewhere a terminal unless
      `ANSI_COLORS_DISABLED` is set. */
  function Detect(env: Env): Engine
  {
    if Text.Lower(env.system) == "windows" then
      if env.ostype.Some? && (Text.Lower(env.ostype.value) == "msys" || Text.Lower(env.ostype.value) == "cygwin") then TermColor
      else if env.term.Some? && (StartsWith(Text.Lower(env.term.value), "xterm") || StartsWith(Text.Lower(env.term.value), "vt")) then TermColor
      else Win32ConsoleColor
    else if !env.ansiColorsDisabled then TermColor
    else NoneColor
  }

  /** `cprintf_set_mode` as it should read: an explicit name selects its back end; the
      automatic choice follows `CPRINTF_MODE` when it names a mode and detects one otherwise. */
  function SelectEngine(name: string, env: Env): Engine
  {
    if !IsAuto(name) then Named(Text.Lower(name))
    else if env.cprintfMode.Some? && !IsAuto(env.cprintfMode.value) then Named(Text.Lower(env.cprintfMode.value))
    else Detect(env)
  }

  /** One call of `cprintf_set_mode` as written: it either selects a back end or calls itself
      with another name. */
  datatype Step = Chosen(engine: Engine) | Again(name: string)

  function SetModeStep(name: string, env: Env): Step
  {
    if !IsAuto(name) then Chosen(Named(Text.Lower(name)))
    else if env.cprintfMode.Some? then Again(env.cprintfMode.value)
    else if Text.Lower(env.system) == "windows" then
      if env.ostype.Some? && (Text.Lower(env.ostype.value) == "msys" || Text.Lower(env.ostype.value) == "cygwin") then Again("term")
      else if env.term.Some? && (StartsWith(Text.Lower(env.term.value), "xterm") || StartsWith(Text.Lower(env.term.value), "vt")) then Again("term")
      else Again("win32_console")
    else if !env.ansiColorsDisabled then Again("term")
    else Again("none")
  }

  /** `cprintf_set_mode` as written, followed for at most `fuel` nested calls; `None` when it
      has not chosen by then. */
  function SetModeAsWritten(name: string, env: Env, fuel: nat): Option<Engine>
    decreases fuel
  {
    if fuel == 0 then None
    else match SetModeStep(name, env)
      case Chosen(e) => Some(e)
      case Again(n) => SetModeAsWritten(n, env, fuel - 1)
  }

  /** With `CPRINTF_MODE` set to "auto" (in any case) or to the empty text, the automatic
      choice calls itself with that same value for ever and never selects a back end. */
  lemma {:induction false} AutoModeNeverSettles(name: string, env: Env, fuel: nat)
    requires IsAuto(name) && env.cprintfMode.Some? && IsAuto(env.cprintfMode.value)
    ensures SetModeAsWritten(name, env, fuel) == None
    decreases fuel
  {
    if fuel > 0 {
      AutoModeNeverSettles(env.cprintfMode.value, env, fuel - 1);
    }
  }

  /** The literal mode names are their own lowered forms. */
  lemma LiteralNames()
    ensures Text.Lower("term") == "term" && Text.Lower("none") == "none" && Text.Lower("win32_console") == "win32_console"
    ensures !IsAuto("term") && !IsAuto("none") && !IsAuto("win32_console")
  {
    assert Text.Lower("term") == "term";
    assert Text.Lower("none") == "none";
    assert Text.Lower("win32_console") == "win32_console";
  }

  /** Each nested call keeps the choice `SelectEngine` makes. */
  lemma StepKeepsChoice(name: string, env: Env)
    ensures SetModeStep(name, env).Chosen? ==> SetModeStep(name, env).engine == SelectEngine(name, env)
    ensures SetModeStep(name, env).Again? ==> SelectEngine(SetModeStep(name, env).name, env) == SelectEngine(name, env)
  {
    LiteralNames();
  }

  /** Whenever the source's recursion selects a back end, it is the one `SelectEngine`
      selects; and unless `CPRINTF_MODE` asks for the automatic choice it does so within three
      calls. */
  lemma {:induction false} SelectEngineAgrees(name: string, env: Env, fuel: nat)
    ensures SetModeAsWritten(name, env, fuel).Some? ==> SetModeAsWritten(name, env, fuel).value == SelectEngine(name, env)
    ensures fuel >= 3 && !(env.cprintfMode.Some? && IsAuto(env.cprintfMode.value)) ==>
      SetModeAsWritten(name, env, fuel) == Some(SelectEngine(name, env))
    decreases fuel
  {
    StepKeepsChoice(name, env);
    if fuel > 0 && SetModeStep(name, env).Again? {
      var n := SetModeStep(name, env).name;
      SelectEngineAgrees(n, env, fuel - 1);
      StepKeepsChoice(n, env);
      LiteralNames();
    }
  }

  /** An explicit name decides alone, whatever the environment; and the choice ignores the
      ASCII case of the name. */
  lemma SelectEngineMeaning(name: string, env: Env, env': Env)
    ensures !IsAuto(name) ==> SelectEngine(name, env) == SelectEngine(name, env')
    ensures SelectEngine(Text.Upper(name), env) == SelectEngine(name, env)
  {
    Text.LowerUpper(name);
  }

  /** The console back end is chosen only by name or on Windows. */
  lemma ConsoleOnlyOnWindows(name: string, env: Env)
    requires SelectEngine(name, env) == Win32ConsoleColor
    ensures Text.Lower(name) == "win32_console" || (env.cprintfMode.Some? && Text.Lower(env.cprintfMode.value) == "win32_console") || Text.Lower(env.system) == "windows"
  {
  }

  /** `cprintf_unpack_text`: the format filled in by `str.format` when there are arguments,
      the format itself otherwise. */
  function UnpackText(fmt: string, args: seq<string>, format: (string, seq<string>) -> string): (r: string)
    ensures args == [] ==> r == fmt
  {
    if |args| > 0 then format(fmt, args) else fmt
  }

  /** What a back end writes for a text, the console back end writing the text itself. */
  function Shown(engine: Engine, options: seq<StyleCode>, text: string): string
  {
    match engine
    case TermColor => TermText(options, text)
    case HtmlColor => HtmlText(options, text)
    case _ => text
  }

  /** `print_style.engine`, the back end `cprintf_stdout` and `cprintf_stderr` use. */
  class Printer {
    var engine: Engine

    /** Loading the script runs `cprintf_set_mode('auto')`. */
    constructor(env: Env)
      ensures engine == SelectEngine("auto", env)
    {
      var m := "auto";
      assert Text.Lower(m) == m;
      if env.cprintfMode.Some? && !IsAuto(env.cprintfMode.value) {
        engine := Named(Text.Lower(env.cprintfMode.value));
      } else {
        engine := Detect(env);
      }
    }

    /** `cprintf_set_mode(name)`. */
    method SetMode(name: string, env: Env)
      modifies this
      ensures engine == SelectEngine(name, env)
    {
      var m := Text.Lower(name);
      if m == [] || m == "auto" {
        if env.cprintfMode.Some? && !IsAuto(env.cprintfMode.value) {
          engine := Named(Text.Lower(env.cprintfMode.value));
        } else {
          engine := Detect(env);
        }
      } else if m == "none" {
        engine := NoneColor;
      } else if m == "term" {
        engine := TermColor;
      } else if m == "win32_console" {
        engine := Win32ConsoleColor;
      } else if m == "html" {
        engine := HtmlColor;
      } else {
        engine := NoneColor;
      }
    }

    /** `cprintf_stdout` / `cprintf_stderr`: the unpacked text through the chosen back end. */
    method Print(out: Output, options: seq<StyleCode>, fmt: string, args: seq<string>, format: (string, seq<string>) -> string)
      modifies out
      ensures out.written == old(out.written) + Shown(engine, options, UnpackText(fmt, args, format))
    {
      var text := UnpackText(fmt, args, format);
      match engine
      case NoneColor => NoneWrite(out, options, text);
      case TermColor => TermWrite(out, options, text);
      case Win32ConsoleColor => Win32Write(out, options, text);
      case HtmlColor => HtmlWrite(out, options, text);
    }
  }

  // ---------------------------------------------------------------- the command line

  /** The colour part of the `print_style` attribute names. */
  function ColourWord(c: Colour): string
  {
    match c
    case Black => "BLACK"
    case Blue => "BLUE"
    case Green => "GREEN"
    case Cyan => "CYAN"
    case Red => "RED"
    case Magenta => "MAGENTA"
    case Yellow => "YELLOW"
    case White => "WHITE"
  }

  /** The `print_style` attribute names of the codes. */
  function ConstName(o: StyleCode): string
  {
    if o == FwBold then "FW_BOLD"
    else if o < 8 then "FC_" + ColourWord(ColourOf(o))
    else "BC_" + ColourWord(ColourOf(o - 8))
  }

  /** Looking a key up among the attributes from code `from` on. */
  function LookUp(key: string, from: nat): (r: Option<StyleCode>)
    requires from <= 17
    ensures r.Some? ==> ConstName(r.value) == key
    ensures r.None? ==> forall o: StyleCode :: from <= o ==> ConstName(o) != key
    decreases 17 - from
  {
    if from == 17 then None
    else if ConstName(from) == key then Some(from)
    else LookUp(key, from + 1)
  }

  /** `key in print_style.__dict__`, for the colour and style attributes: the code whose
      attribute has that name. */
  function StyleByName(key: string): (r: Option<StyleCode>)
    ensures r.Some? ==> ConstName(r.value) == key
    ensures r.None? ==> forall o: StyleCode :: ConstName(o) != key
  {
    LookUp(key, 0)
  }

  /** What the `-c` (prefix "FC_") or `-b` (prefix "BC_") names select: each name, raised,
      that names an attribute; the others are dropped. */
  function KnownStyles(names: seq<string>, prefix: string): (r: seq<StyleCode>)
    ensures |r| <= |names|
  {
    if names == [] then []
    else
      var key := prefix + Text.Upper(names[|names| - 1]);
      KnownStyles(names[..|names| - 1], prefix) + (if StyleByName(key).Some? then [StyleByName(key).value] else [])
  }

  /** The loop appending the known attributes of one list. */
  method AppendKnown(options0: seq<StyleCode>, names: seq<string>, prefix: string) returns (options: seq<StyleCode>)
    ensures options == options0 + KnownStyles(names, prefix)
  {
    options := options0;
    for i := 0 to |names|
      invariant options == options0 + KnownStyles(names[..i], prefix)
    {
      assert names[..i + 1][..i] == names[..i];
      var key := prefix + Text.Upper(names[i]);
      if StyleByName(key).Some? {
        options := options + [StyleByName(key).value];
      }
    }
    assert names[..|names|] == names;
  }

  /** The loop appending bold once per `-B`. */
  method AppendBold(options0: seq<StyleCode>, bolds: nat) returns (options: seq<StyleCode>)
    ensures options == options0 + Repeat(FwBold, bolds)
  {
    options := options0;
    for i := 0 to bolds
      invariant options == options0 + Repeat(FwBold, i)
    {
      options := options + [FwBold];
    }
  }

  /** The options of the command line: the known colours of `-c`, then the known background
      colours of `-b`, then bold once per `-B`. */
  method CollectOptions(colors: seq<string>, backgrounds: seq<string>, bolds: nat) returns (options: seq<StyleCode>)
    ensures options == KnownStyles(colors, "FC_") + KnownStyles(backgrounds, "BC_") + Repeat(FwBold, bolds)
  {
    options := AppendKnown([], colors, "FC_");
    options := AppendKnown(options, backgrounds, "BC_");
    options := AppendBold(options, bolds);
  }

  /** A name `-c` and `-b` accept: a colour name in some case. */
  predicate IsColourName(name: string)
  {
    IsColourWord(Text.Upper(name))
  }

  predicate IsColourWord(word: string)
  {
    exists c: nat :: c < 8 && word == ColourWord(ColourOf(c))
  }

  /** The attribute prefix of `-c` (foreground) or `-b` (background) names. */
  function Prefix(fore: bool): string
  {
    if fore then "FC_" else "BC_"
  }

  /** A foreground code for `-c`, a background code for `-b`. */
  predicate OnSide(o: StyleCode, fore: bool)
  {
    if fore then o < 8 else 8 <= o < 16
  }

  /** "FC_" and "BC_" followed by a name find a foreground or a background colour exactly
      when the name is a colour name. */
  lemma ColourKey(name: string, fore: bool)
    ensures var r := StyleByName(Prefix(fore) + Text.Upper(name));
      && (r.Some? <==> IsColourName(name))
      && (r.Some? ==> OnSide(r.value, fore))
  {
    var prefix := Prefix(fore);
    var key := prefix + Text.Upper(name);
    assert key[..3] == prefix && key[3..] == Text.Upper(name);
    if StyleByName(key).Some? {
      var o := StyleByName(key).value;
      assert ConstName(o)[..3] == if o == FwBold then "FW_" else if o < 8 then "FC_" else "BC_";
      assert o < 8 ==> ConstName(o)[3..] == ColourWord(ColourOf(o));
      assert 8 <= o < 16 ==> ConstName(o)[3..] == ColourWord(ColourOf(o - 8));
    }
    if IsColourName(name) {
      var c: nat :| c < 8 && Text.Upper(name) == ColourWord(ColourOf(c));
      var o: StyleCode := if fore then c else c + 8;
      assert ConstName(o) == key;
    }
  }

  /** One more name adds its code when it is a colour name and nothing otherwise. */
  lemma KnownStylesSnoc(names: seq<string>, fore: bool)
    requires names != []
    ensures var init, last := names[..|names| - 1], names[|names| - 1];
      var found := StyleByName(Prefix(fore) + Text.Upper(last));
      KnownStyles(names, Prefix(fore)) == KnownStyles(init, Prefix(fore)) + (if found.Some? then [found.value] else [])
  {
  }

  /** `-c` names give foreground codes and `-b` names background codes. */
  lemma {:induction false} KnownStylesRange(names: seq<string>, fore: bool)
    ensures var r := KnownStyles(names, Prefix(fore));
      forall k :: 0 <= k < |r| ==> OnSide(r[k], fore)
  {
    if names != [] {
      var init, last := names[..|names| - 1], names[|names| - 1];
      KnownStylesRange(init, fore);
      ColourKey(last, fore);
      KnownStylesSnoc(names, fore);
    }
  }

  /** A list keeps all its names exactly when every one of them is a colour name in some
      case: the others are dropped. */
  lemma {:induction false} KnownStylesAll(names: seq<string>, fore: bool)
    ensures |KnownStyles(names, Prefix(fore))| == |names| <==> forall j :: 0 <= j < |names| ==> IsColourName(names[j])
  {
    if names != [] {
      var init, last := names[..|names| - 1], names[|names| - 1];
      KnownStylesAll(init, fore);
      KnownStylesSnoc(names, fore);
      ColourKey(last, fore);
      assert |KnownStyles(init, Prefix(fore))| <= |init|;
      ColourNamesSnoc(names, init);
    }
  }

  /** Every name of a list is a colour name exactly when every name before the last is one
      and the last is one too. */
  lemma ColourNamesSnoc(names: seq<string>, init: seq<string>)
    requires names != [] && init == names[..|names| - 1]
    ensures (forall j :: 0 <= j < |names| ==> IsColourName(names[j])) <==>
      (forall j :: 0 <= j < |init| ==> IsColourName(init[j])) && IsColourName(names[|names| - 1])
  {
    assert forall j :: 0 <= j < |init| ==> init[j] == names[j];
  }
}
