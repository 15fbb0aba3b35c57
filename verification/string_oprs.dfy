/** The string helpers of the test frame (common/string_oprs.h): ASCII case mapping, `str2int`,
    which parses a decimal, `0x` hexadecimal or `\` octal number after any run of minus signs,
    the two-digit `hex` and three-digit `oct` writers, `serialization`, which escapes every
    unprintable character as a backslash and three octal digits (reading the bytes as signed
    `char`), and `dumphex`.

    The integer type `T` of `str2int` is `bits` wide and is held as its residue modulo 2^bits:
    shifting, multiplying, adding and the two's-complement negation all wrap, and a signed `T`
    is the same bit pattern read as signed. A byte is a `Byte`; the character type `TCh` is
    `char` for text. */
module StringOprs {
  import opened Optional
  import opened CString
  import SizeArith

  newtype Byte = x: int | 0 <= x < 256

  // ---------------------------------------------------------------- case mapping

  /** `tolower`: only `A`..`Z` change. */
  function ToLower(c: char): (r: char)
    ensures !('A' <= c <= 'Z') ==> r == c
    ensures 'A' <= c <= 'Z' ==> 'a' <= r <= 'z' && r as int - c as int == 'a' as int - 'A' as int
  {
    if 'A' <= c <= 'Z' then (c as int - 'A' as int + 'a' as int) as char else c
  }

  /** `toupper`: only `a`..`z` change. */
  function ToUpper(c: char): (r: char)
    ensures !('a' <= c <= 'z') ==> r == c
    ensures 'a' <= c <= 'z' ==> 'A' <= r <= 'Z' && c as int - r as int == 'a' as int - 'A' as int
  {
    if 'a' <= c <= 'z' then (c as int - 'a' as int + 'A' as int) as char else c
  }

  /** Upper and lower case undo each other on letters, and both are idempotent. */
  lemma CaseRoundTrip(c: char)
    ensures 'A' <= c <= 'Z' ==> ToUpper(ToLower(c)) == c
    ensures 'a' <= c <= 'z' ==> ToLower(ToUpper(c)) == c
    ensures ToLower(ToLower(c)) == ToLower(c) && ToUpper(ToUpper(c)) == ToUpper(c)
    ensures !('A' <= ToLower(c) <= 'Z') && !('a' <= ToUpper(c) <= 'z')
  {
  }

  // ---------------------------------------------------------------- str2int

  /** The number of values of a `bits`-wide integer. */
  function Modulus(bits: nat): (r: nat)
    ensures r >= 1
  {
    SizeArith.Pow2(bits)
  }

  /** A digit of the given base as each loop of `str2int` accepts it: `0`..`7`, `0`..`9`, or a
      decimal digit or `a`..`f` in either case. */
  predicate IsDigit(c: char, base: nat)
  {
    if base == 16 then ('0' <= ToLower(c) <= '9') || ('a' <= ToLower(c) <= 'f')
    else if base == 8 then '0' <= c < '8'
    else '0' <= c <= '9'
  }

  /** What a digit adds: `c - '0'`, or `c - 'a' + 10` for a lowered hexadecimal letter. */
  function DigitValue(c: char, base: nat): (r: nat)
    requires IsDigit(c, base)
    ensures r < base || (base != 8 && base != 16 && r < 10)
  {
    if base == 16 && 'a' <= ToLower(c) <= 'f' then ToLower(c) as int - 'a' as int + 10
    else if base == 16 then ToLower(c) as int - '0' as int
    else c as int - '0' as int
  }

  /** One digit loop of `str2int` from position `i` with `acc` already read: shift in every
      digit (`out <<= 4`, `out <<= 3` or `out *= 10`, then `+=`) until the first non-digit. */
  function DigitsFrom(t: string, i: nat, acc: nat, base: nat, m: nat): (r: nat)
    requires m >= 1
    ensures acc < m ==> r < m
    decreases |t| - i
  {
    if i < |t| && IsDigit(t[i], base) then DigitsFrom(t, i + 1, (acc * base + DigitValue(t[i], base)) % m, base, m)
    else acc
  }

  /** The value of a numeral, most significant digit first, as an independent definition. */
  function NumeralValue(d: string, base: nat, m: nat): (r: nat)
    requires m >= 1 && forall k :: 0 <= k < |d| ==> IsDigit(d[k], base)
    ensures r < m
  {
    if d == [] then 0
    else (NumeralValue(d[..|d| - 1], base, m) * base + DigitValue(d[|d| - 1], base)) % m
  }

  /** The number after the minus signs: hexadecimal after `0x` or `0X`, octal after a
      backslash, decimal otherwise. */
  function Magnitude(t: string, m: nat): (r: nat)
    requires m >= 1
    ensures r < m
  {
    if At(t, 0) == '0' && ToLower(At(t, 1)) == 'x' then DigitsFrom(t, 2, 0, 16, m)
    else if At(t, 0) == '\\' then DigitsFrom(t, 1, 0, 8, m)
    else DigitsFrom(t, 0, 0, 10, m)
  }

  /** `(~out) + 1` on a `bits`-wide integer. */
  function Negate(x: nat, m: nat): (r: nat)
    requires x < m
    ensures r < m && (x + r) % m == 0
  {
    if x == 0 then 0 else m - x
  }

  /** The leading minus signs: how many, and the text after them. */
  function StripDashes(s: string): (r: (nat, string))
    ensures |r.1| <= |s| && At(r.1, 0) != '-'
  {
    if At(s, 0) == '-' then var rest := StripDashes(s[1..]); (rest.0 + 1, rest.1) else (0, s)
  }

  /** The value once the minus signs are counted: none when nothing follows them, otherwise
      the magnitude, negated when their number is odd. */
  function Signed(dashes: nat, t: string, m: nat): (r: nat)
    requires m >= 1
    ensures r < m
  {
    if At(t, 0) == NUL then 0
    else if dashes % 2 == 1 then Negate(Magnitude(t, m), m)
    else Magnitude(t, m)
  }

  /** `str2int` into a `bits`-wide integer: zero for a null or empty string, otherwise the
      signed value of what follows the minus signs. */
  function ToInt(str: Option<string>, bits: nat): (r: nat)
    ensures r < Modulus(bits)
    ensures str == None || str == Some([]) ==> r == 0
  {
    if str.None? || At(str.value, 0) == NUL then 0
    else Signed(StripDashes(str.value).0, StripDashes(str.value).1, Modulus(bits))
  }

  /** One digit loop of `str2int`. */
  method ReadDigits(t: string, i0: nat, base: nat, m: nat) returns (out: nat)
    requires m >= 1
    ensures out == DigitsFrom(t, i0, 0, base, m)
  {
    out := 0;
    var i := i0;
    while i < |t| && IsDigit(t[i], base)
      invariant DigitsFrom(t, i, out, base, m) == DigitsFrom(t, i0, 0, base, m)
      decreases |t| - i
    {
      if base == 16 {
        out := (out * 16 + DigitValue(t[i], base)) % m;
      } else if base == 8 {
        out := (out * 8 + DigitValue(t[i], base)) % m;
      } else {
        out := (out * base + DigitValue(t[i], base)) % m;
      }
      i := i + 1;
    }
  }

  /** `str2int`: the pointer steps over the minus signs toggling the sign, then one digit loop
      runs, then a negative result is negated. */
  method Str2Int(str: Option<string>, bits: nat) returns (out: nat)
    ensures out == ToInt(str, bits)
  {
    out := 0;
    if str.None? || At(str.value, 0) == NUL {
      return;
    }
    var m := Modulus(bits);
    var t := str.value;
    var isNegative := false;
    ghost var dashes := 0;
    while At(t, 0) == '-'
      invariant StripDashes(str.value) == (dashes + StripDashes(t).0, StripDashes(t).1)
      invariant isNegative <==> dashes % 2 == 1
      decreases |t|
    {
      isNegative := !isNegative;
      dashes := dashes + 1;
      t := t[1..];
    }
    if At(t, 0) == NUL {
      return;
    }
    if At(t, 0) == '0' && ToLower(At(t, 1)) == 'x' {
      out := ReadDigits(t, 2, 16, m);
    } else if At(t, 0) == '\\' {
      out := ReadDigits(t, 1, 8, m);
    } else {
      out := ReadDigits(t, 0, 10, m);
    }
    if isNegative {
      out := Negate(out, m);
    }
  }

  /** A minus sign in front negates: each leading `-` toggles the sign. */
  lemma NegationToggles(s: string, bits: nat)
    ensures ToInt(Some(['-'] + s), bits) == Negate(ToInt(Some(s), bits), Modulus(bits))
  {
    var m := Modulus(bits);
    var s' := ['-'] + s;
    assert s'[1..] == s;
    var st := StripDashes(s);
    assert StripDashes(s') == (st.0 + 1, st.1);
    if At(s, 0) == NUL {
      assert st == (0, s);
    }
    assert ToInt(Some(s), bits) == Signed(st.0, st.1, m);
    assert ToInt(Some(s'), bits) == Signed(st.0 + 1, st.1, m);
    SignedToggles(st.0, st.1, m);
  }

  /** One more minus sign negates the signed value. */
  lemma SignedToggles(d: nat, t: string, m: nat)
    requires m >= 1
    ensures Signed(d + 1, t, m) == Negate(Signed(d, t, m), m)
  {
    if At(t, 0) != NUL {
      NegateTwice(Magnitude(t, m), m);
    }
  }

  lemma NegateTwice(x: nat, m: nat)
    requires x < m
    ensures Negate(Negate(x, m), m) == x
  {
  }

  /** Each digit loop reads exactly the run of digits at its start and stops at the first
      character that is not one: the result is the value of that numeral. */
  lemma {:induction false} DigitsFromNumeral(t: string, i: nat, j: nat, n: nat, base: nat, m: nat)
    requires m >= 1 && i <= j <= n <= |t|
    requires forall k :: i <= k < n ==> IsDigit(t[k], base)
    requires n == |t| || !IsDigit(t[n], base)
    ensures DigitsFrom(t, j, NumeralValue(t[i..j], base, m), base, m) == NumeralValue(t[i..n], base, m)
    decreases n - j
  {
    if j < n {
      assert t[i..j + 1][..j - i] == t[i..j];
      DigitsFromNumeral(t, i, j + 1, n, base, m);
    }
  }

  /** A hexadecimal number after `0x` (or `0X`) is read up to the first character that is not
      a hexadecimal digit. */
  lemma ReadsHexNumeral(d: string, rest: string, upperX: bool, bits: nat)
    requires forall k :: 0 <= k < |d| ==> IsDigit(d[k], 16)
    requires rest == [] || !IsDigit(rest[0], 16)
    ensures ToInt(Some([ '0', if upperX then 'X' else 'x'] + d + rest), bits) == NumeralValue(d, 16, Modulus(bits))
  {
    var m := Modulus(bits);
    var t := ['0', if upperX then 'X' else 'x'] + d + rest;
    assert StripDashes(t) == (0, t);
    assert ToInt(Some(t), bits) == DigitsFrom(t, 2, 0, 16, m);
    assert t[2..2] == [] && t[2..2 + |d|] == d;
    assert 2 + |d| < |t| ==> t[2 + |d|] == rest[0];
    DigitsFromNumeral(t, 2, 2, 2 + |d|, 16, m);
  }

  /** An octal number after a backslash is read up to the first character that is not an
      octal digit. */
  lemma ReadsOctNumeral(d: string, rest: string, bits: nat)
    requires forall k :: 0 <= k < |d| ==> IsDigit(d[k], 8)
    requires rest == [] || !IsDigit(rest[0], 8)
    ensures ToInt(Some(['\\'] + d + rest), bits) == NumeralValue(d, 8, Modulus(bits))
  {
    var m := Modulus(bits);
    var t := ['\\'] + d + rest;
    assert StripDashes(t) == (0, t);
    assert ToInt(Some(t), bits) == DigitsFrom(t, 1, 0, 8, m);
    assert t[1..1] == [] && t[1..1 + |d|] == d;
    assert 1 + |d| < |t| ==> t[1 + |d|] == rest[0];
    DigitsFromNumeral(t, 1, 1, 1 + |d|, 8, m);
  }

  /** A decimal number is read up to the first character that is not a decimal digit, unless
      it is a lone `0` followed by `x` or `X`, which starts a hexadecimal number. */
  lemma ReadsDecNumeral(d: string, rest: string, bits: nat)
    requires d != [] && forall k :: 0 <= k < |d| ==> IsDigit(d[k], 10)
    requires rest == [] || !IsDigit(rest[0], 10)
    requires |d| == 1 && rest != [] ==> d[0] != '0' || ToLower(rest[0]) != 'x'
    ensures ToInt(Some(d + rest), bits) == NumeralValue(d, 10, Modulus(bits))
  {
    var m := Modulus(bits);
    var t := d + rest;
    assert t[0] == d[0];
    assert StripDashes(t) == (0, t);
    assert |d| > 1 ==> t[1] == d[1];
    assert |d| == 1 && rest != [] ==> t[1] == rest[0];
    assert ToInt(Some(t), bits) == DigitsFrom(t, 0, 0, 10, m);
    assert t[0..0] == [] && t[0..|d|] == d;
    assert |d| < |t| ==> t[|d|] == rest[0];
    DigitsFromNumeral(t, 0, 0, |d|, 10, m);
  }

  /** The decimal numeral of `n`, most significant digit first. */
  function Decimal(n: nat): (r: string)
    ensures r != [] && forall k :: 0 <= k < |r| ==> IsDigit(r[k], 10)
  {
    if n < 10 then [(n + '0' as int) as char] else Decimal(n / 10) + [(n % 10 + '0' as int) as char]
  }

  lemma ModAddMul(x: nat, base: nat, d: nat, m: nat)
    requires m >= 1
    ensures ((x % m) * base + d) % m == (x * base + d) % m
  {
    var q := x / m;
    var a := (x % m) * base + d;
    assert x * base + d == a + (q * base) * m;
    SizeArith.LemmaModUnique(a + (q * base) * m, m, a / m + q * base, a % m);
  }

  lemma {:induction false} DecimalValue(n: nat, m: nat)
    requires m >= 1
    ensures NumeralValue(Decimal(n), 10, m) == n % m
  {
    var d := Decimal(n);
    if n < 10 {
      assert d[..0] == [];
    } else {
      assert d[..|d| - 1] == Decimal(n / 10);
      DecimalValue(n / 10, m);
      ModAddMul(n / 10, 10, n % 10, m);
    }
  }

  /** `str2int` reads back a decimal numeral as its value modulo 2^bits, and negated after a
      minus sign. */
  lemma DecimalRoundTrip(n: nat, bits: nat)
    ensures ToInt(Some(Decimal(n)), bits) == n % Modulus(bits)
    ensures ToInt(Some(['-'] + Decimal(n)), bits) == Negate(n % Modulus(bits), Modulus(bits))
  {
    ReadsDecNumeral(Decimal(n), [], bits);
    assert Decimal(n) + [] == Decimal(n);
    DecimalValue(n, Modulus(bits));
    NegationToggles(Decimal(n), bits);
  }

  // ---------------------------------------------------------------- hex and oct

  /** One digit as `hex` writes it: `0`..`9`, then the letters from `a` or `A`. */
  function HexDigitChar(v: nat, upper: bool): (r: char)
    requires v < 16
    ensures IsDigit(r, 16) && DigitValue(r, 16) == v
  {
    if v > 9 then (v - 10 + (if upper then 'A' else 'a') as int) as char else (v + '0' as int) as char
  }

  /** `hex`: two characters, the high nibble `(c >> 4) & 0x0F` first, then `c & 0x0F`. The
      shift of a negative `c` is arithmetic, which `/` on `int` is for a positive divisor. */
  function Hex(c: int, upper: bool): (r: string)
    ensures |r| == 2 && IsDigit(r[0], 16) && IsDigit(r[1], 16)
  {
    [HexDigitChar((c / 16) % 16, upper), HexDigitChar(c % 16, upper)]
  }

  /** `oct`: three characters `((c >> 6) & 7) + '0'`, `((c >> 3) & 7) + '0'`, `(c & 7) + '0'`. */
  function Oct(c: int): (r: string)
    ensures |r| == 3 && IsDigit(r[0], 8) && IsDigit(r[1], 8) && IsDigit(r[2], 8)
  {
    [((c / 64) % 8 + '0' as int) as char, ((c / 8) % 8 + '0' as int) as char, (c % 8 + '0' as int) as char]
  }

  lemma Pow2AtLeast256(bits: nat)
    requires bits >= 8
    ensures Modulus(bits) >= 256
  {
    if bits > 8 {
      Pow2AtLeast256(bits - 1);
    } else {
      assert SizeArith.Pow2(4) == 16;
      SizeArith.LemmaPow2Add(4, 4);
    }
  }

  lemma SmallMod(x: nat, m: nat)
    requires x < m
    ensures x % m == x
  {
    SizeArith.LemmaModUnique(x, m, 0, x);
  }

  lemma HexValue(b: Byte, upper: bool, m: nat)
    requires m >= 256
    ensures NumeralValue(Hex(b as int, upper), 16, m) == b as int
  {
    var h := Hex(b as int, upper);
    var hi, lo := b as int / 16, b as int % 16;
    assert DigitValue(h[0], 16) == hi && DigitValue(h[1], 16) == lo;
    assert hi * 16 + lo == b as int;
    TwoDigitValue(h, m, hi, lo);
  }

  /** A two-digit hexadecimal numeral is worth sixteen times its high digit plus its low
      digit, when that stays below the modulus. */
  lemma TwoDigitValue(h: string, m: nat, hi: nat, lo: nat)
    requires |h| == 2 && IsDigit(h[0], 16) && IsDigit(h[1], 16)
    requires DigitValue(h[0], 16) == hi && DigitValue(h[1], 16) == lo
    requires hi * 16 + lo < m
    ensures NumeralValue(h, 16, m) == hi * 16 + lo
  {
    assert h[..1] == [h[0]] && [h[0]][..0] == [];
    SmallMod(hi, m);
    assert NumeralValue(h[..1], 16, m) == hi;
    SmallMod(hi * 16 + lo, m);
  }

  /** Reading back what `hex` writes for a byte, after `0x`, gives the byte. */
  lemma HexRoundTrip(b: Byte, upper: bool, bits: nat)
    requires bits >= 8
    ensures ToInt(Some("0x" + Hex(b as int, upper)), bits) == b as int
  {
    Pow2AtLeast256(bits);
    ReadsHexNumeral(Hex(b as int, upper), [], false, bits);
    assert "0x" + Hex(b as int, upper) + [] == "0x" + Hex(b as int, upper);
    HexValue(b, upper, Modulus(bits));
  }

  lemma OctValue(c: nat, m: nat)
    requires c < 256 && m >= 256
    ensures NumeralValue(Oct(c), 8, m) == c
  {
    var o := Oct(c);
    var d0, d1, d2 := c / 64, (c / 8) % 8, c % 8;
    assert DigitValue(o[0], 8) == d0 && DigitValue(o[1], 8) == d1 && DigitValue(o[2], 8) == d2;
    assert o[..1] == [o[0]] && [o[0]][..0] == [];
    assert o[..2][..1] == o[..1];
    SmallMod(d0, m);
    assert NumeralValue(o[..1], 8, m) == d0;
    assert d0 * 8 + d1 == c / 8;
    SmallMod(c / 8, m);
    assert NumeralValue(o[..2], 8, m) == c / 8;
    assert (c / 8) * 8 + d2 == c;
    SmallMod(c, m);
  }

  /** Reading back what `oct` writes for a byte, after a backslash, gives the byte. */
  lemma OctRoundTrip(b: Byte, bits: nat)
    requires bits >= 8
    ensures ToInt(Some(['\\'] + Oct(b as int)), bits) == b as int
  {
    var m := Modulus(bits);
    ReadsOctNumeral(Oct(b as int), [], bits);
    assert ['\\'] + Oct(b as int) + [] == ['\\'] + Oct(b as int);
    Pow2AtLeast256(bits);
    OctValue(b as int, m);
  }

  // ---------------------------------------------------------------- serialization

  /** A byte `serialization` copies as it is. */
  predicate Printable(b: int)
  {
    32 <= b < 127
  }

  /** The text a corrected `serialization` writes for one byte, read as an unsigned character:
      the byte itself when printable, otherwise a backslash and its three octal digits. */
  function Item(b: Byte): (r: string)
    ensures |r| == 1 || |r| == 4
  {
    if Printable(b as int) then [b as char] else ['\\'] + Oct(b as int)
  }

  /** The same with the byte read as a signed `char`, as the source reads it: a byte from 0x80
      up is negative there, so it is escaped and its first octal digit comes from the sign
      bits. */
  function ItemAsWritten(b: Byte): (r: string)
    ensures |r| == 1 || |r| == 4
  {
    var c := SignedChar(b);
    if Printable(c) then [c as char] else ['\\'] + Oct(c)
  }

  /** A byte read through a signed `char`. */
  function SignedChar(b: Byte): (c: int)
    ensures -128 <= c < 128
    ensures b < 128 <==> c == b as int
  {
    if b < 128 then b as int else b as int - 256
  }

  /** Below 0x80 the signed reading is harmless: both readings write the same item. */
  lemma ItemAgreesBelow0x80(b: Byte)
    requires b < 0x80
    ensures ItemAsWritten(b) == Item(b)
  {
  }

  /** An escaped byte is read back by `str2int` as that byte, and its first octal digit is at
      most 3, so the escape is a valid C octal escape of one byte. */
  lemma ItemRoundTrip(b: Byte, bits: nat)
    requires !Printable(b as int) && bits >= 8
    ensures ToInt(Some(Item(b)), bits) == b as int
    ensures Item(b)[1] <= '3'
  {
    var o := Oct(b as int);
    assert Item(b) == ['\\'] + o;
    assert o[0] == (b as int / 64 + '0' as int) as char;
    OctRoundTrip(b, bits);
  }

  lemma SignedEscapeOf0x80()
    ensures ItemAsWritten(0x80) == "\\600" && Item(0x80) == "\\200"
  {
    assert Oct(-128) == "600";
    assert Oct(128) == "200";
  }

  lemma Modulus16()
    ensures Modulus(16) == 0x1_0000
  {
    assert SizeArith.Pow2(4) == 16;
    SizeArith.LemmaPow2Add(4, 4);
    SizeArith.LemmaPow2Add(8, 8);
  }

  lemma NumeralOf600(m: nat)
    requires m > 384
    ensures NumeralValue("600", 8, m) == 384
  {
    var d := "600";
    assert d[..1] == "6" && d[..2] == "60" && "6"[..0] == [] && "60"[..1] == "6";
    SmallMod(6, m);
    assert NumeralValue("6", 8, m) == 6;
    SmallMod(48, m);
    assert NumeralValue("60", 8, m) == 48;
    SmallMod(384, m);
  }

  /** With a signed `char`, the byte 0x80 is written as `\600`, which `str2int` reads as 384, not
      as a byte, where `\200` was meant. */
  lemma SignedItemOverflows()
    ensures ItemAsWritten(0x80) == "\\600" && Item(0x80) == "\\200"
    ensures ToInt(Some(ItemAsWritten(0x80)), 16) == 384
  {
    SignedEscapeOf0x80();
    Modulus16();
    ReadsOctNumeral("600", [], 16);
    assert ['\\'] + "600" + [] == "\\600";
    NumeralOf600(0x1_0000);
  }

  /** What `serialization` writes from byte `i` on into `room` characters: every item that
      still fits, stopping at the first that does not. Each byte is read as a signed `char`,
      as the source reads it. */
  function SerialFrom(src: seq<Byte>, i: nat, room: nat): (r: string)
    ensures |r| <= room
    decreases |src| - i
  {
    if i < |src| && |ItemAsWritten(src[i])| <= room then ItemAsWritten(src[i]) + SerialFrom(src, i + 1, room - |ItemAsWritten(src[i])|)
    else []
  }

  /** What the stream form of `serialization` writes: every item, each byte read as a signed
      `char`. */
  function SerialAll(src: seq<Byte>, i: nat): (r: string)
    ensures |src| <= i ==> r == []
    ensures i < |src| ==> |r| >= |src| - i
    decreases |src| - i
  {
    if i < |src| then ItemAsWritten(src[i]) + SerialAll(src, i + 1) else []
  }

  /** Every character `serialization` writes is printable: the input's printable bytes, the
      backslash and octal digits. */
  lemma {:induction false} SerialAllPrintable(src: seq<Byte>, i: nat)
    ensures forall k :: 0 <= k < |SerialAll(src, i)| ==> Printable(SerialAll(src, i)[k] as int)
    decreases |src| - i
  {
    if i < |src| {
      SerialAllPrintable(src, i + 1);
      var item, rest := ItemAsWritten(src[i]), SerialAll(src, i + 1);
      assert forall k :: 0 <= k < |item| ==> Printable(item[k] as int);
      forall k | 0 <= k < |item| + |rest|
        ensures Printable((item + rest)[k] as int)
      {
        if k >= |item| {
          assert (item + rest)[k] == rest[k - |item|];
        }
      }
    }
  }

  /** The buffer form writes a prefix of what the stream form writes, all of it once the buffer
      has room for four characters per byte. */
  lemma {:induction false} SerialFromIsPrefix(src: seq<Byte>, i: nat, room: nat)
    ensures SerialFrom(src, i, room) <= SerialAll(src, i)
    ensures i <= |src| && 4 * (|src| - i) <= room ==> SerialFrom(src, i, room) == SerialAll(src, i)
    decreases |src| - i
  {
    if i < |src| && |ItemAsWritten(src[i])| <= room {
      SerialFromIsPrefix(src, i + 1, room - |ItemAsWritten(src[i])|);
    }
  }

  /** One item of the buffer form of `serialization`: it is written when it fits, and then the
      rest follows in the room left. */
  lemma SerialStep(src: seq<Byte>, i: nat, room: nat, written: string)
    requires i < |src|
    ensures |ItemAsWritten(src[i])| <= room ==>
      written + SerialFrom(src, i, room) == (written + ItemAsWritten(src[i])) + SerialFrom(src, i + 1, room - |ItemAsWritten(src[i])|)
    ensures room < |ItemAsWritten(src[i])| ==> SerialFrom(src, i, room) == []
  {
  }

  /** Writes `text` at position `j` of `out`, leaving the rest of the buffer alone. */
  method WriteAt(out: array<char>, j: nat, text: string)
    requires j + |text| <= out.Length
    modifies out
    ensures out[..] == old(out[..j]) + text + old(out[j + |text|..])
  {
    var k := 0;
    while k < |text|
      invariant k <= |text|
      invariant out[..] == old(out[..j]) + text[..k] + old(out[j + k..])
    {
      out[j + k] := text[k];
      assert text[..k + 1] == text[..k] + [text[k]];
      k := k + 1;
    }
  }

  lemma SerialDone(w: string, rest: string, full: string)
    requires w + rest == full && rest == []
    ensures w == full
  {
    assert w + rest == w;
  }

  /** One round of the buffer form of `serialization` keeps its first loop invariant: what
      has been written is a prefix of the result. */
  lemma SerialAdvance(src: seq<Byte>, i: nat, os: nat, w: string)
    requires i < |src| && |w| + |ItemAsWritten(src[i])| <= os
    requires w + SerialFrom(src, i, os - |w|) == SerialFrom(src, 0, os)
    ensures (w + ItemAsWritten(src[i])) + SerialFrom(src, i + 1, os - |w| - |ItemAsWritten(src[i])|) == SerialFrom(src, 0, os)
  {
    SerialStep(src, i, os - |w|, w);
  }

  /** One round of the `serialization` loop at output position `j`: a printable byte is
      copied, any other is escaped when four characters still fit; otherwise nothing is
      written and the loop is to stop. */
  method PutItem(out: array<char>, j: nat, os: nat, b: Byte) returns (fits: bool, next: nat)
    requires j < os <= out.Length
    modifies out
    ensures fits <==> |ItemAsWritten(b)| <= os - j
    ensures fits ==> next == j + |ItemAsWritten(b)| && out[..] == old(out[..])[..j] + ItemAsWritten(b) + old(out[..])[next..]
    ensures !fits ==> next == j && out[..] == old(out[..])
  {
    var c := SignedChar(b);
    if Printable(c) {
      WriteAt(out, j, [c as char]);
      fits, next := true, j + 1;
    } else if j + 4 <= os {
      WriteAt(out, j, ['\\'] + Oct(c));
      fits, next := true, j + 4;
    } else {
      fits, next := false, j;
    }
  }

  /** `serialization` into a buffer of `os` characters: returns how many it wrote, which are
      the items that fit, and leaves the rest of the buffer alone. */
  method Serialization(src: seq<Byte>, out: array<char>, os: nat) returns (written: nat)
    requires os <= out.Length
    modifies out
    ensures written <= os
    ensures out[..] == SerialFrom(src, 0, os) + old(out[..])[written..]
  {
    var i, j := 0, 0;
    ghost var w: string := [];
    ghost var o := out[..];
    while i < |src| && j < os
      invariant i <= |src| && j <= os && |w| == j
      invariant w + SerialFrom(src, i, os - j) == SerialFrom(src, 0, os)
      invariant out[..] == w + o[j..]
      decreases |src| - i
    {
      var fits;
      fits, j := PutNext(src, i, out, os, j, w, o);
      if !fits {
        break;
      }
      w := w + ItemAsWritten(src[i]);
      i := i + 1;
    }
    SerialDone(w, SerialFrom(src, i, os - j), SerialFrom(src, 0, os));
    written := j;
  }

  /** One round of the `serialization` loop, which keeps the loop's invariants: the buffer
      holds what has been written, and that is a prefix of the result. */
  method PutNext(src: seq<Byte>, i: nat, out: array<char>, os: nat, j: nat, ghost w: string, ghost o: string)
    returns (fits: bool, next: nat)
    requires i < |src| && j < os <= out.Length == |o| && |w| == j
    requires w + SerialFrom(src, i, os - j) == SerialFrom(src, 0, os)
    requires out[..] == w + o[j..]
    modifies out
    ensures fits ==> next <= os && next == j + |ItemAsWritten(src[i])|
    ensures fits ==> (w + ItemAsWritten(src[i])) + SerialFrom(src, i + 1, os - next) == SerialFrom(src, 0, os)
    ensures fits ==> out[..] == (w + ItemAsWritten(src[i])) + o[next..]
    ensures !fits ==> next == j && out[..] == old(out[..]) && SerialFrom(src, i, os - j) == []
  {
    ghost var before, item := out[..], ItemAsWritten(src[i]);
    fits, next := PutItem(out, j, os, src[i]);
    if !fits {
      SerialStep(src, i, os - j, w);
    } else {
      SerialAdvance(src, i, os, w);
      Spliced(before, out[..], w, o, item);
    }
  }

  lemma SerialAllStep(src: seq<Byte>, i: nat, out: string)
    requires i < |src|
    ensures out + SerialAll(src, i) == (out + ItemAsWritten(src[i])) + SerialAll(src, i + 1)
    ensures Printable(SignedChar(src[i])) ==> ItemAsWritten(src[i]) == [src[i] as char]
    ensures !Printable(SignedChar(src[i])) ==> ItemAsWritten(src[i]) == ['\\'] + Oct(SignedChar(src[i]))
  {
  }

  /** The stream form of `serialization`: every item is put or written, in order. */
  method SerializationStream(src: seq<Byte>, stream: string) returns (out: string)
    ensures out == stream + SerialAll(src, 0)
  {
    out := stream;
    var i := 0;
    while i < |src|
      invariant i <= |src| && out + SerialAll(src, i) == stream + SerialAll(src, 0)
    {
      SerialAllStep(src, i, out);
      var c := SignedChar(src[i]);
      if Printable(c) {
        out := out + [c as char];
      } else {
        out := out + (['\\'] + Oct(c));
      }
      i := i + 1;
    }
  }

  // ---------------------------------------------------------------- dumphex

  /** What `dumphex` writes: `hex` of every byte, read as an unsigned character, in order. */
  function HexAll(src: seq<Byte>, upper: bool): (r: string)
    ensures |r| == 2 * |src|
  {
    if src == [] then [] else Hex(src[0] as int, upper) + HexAll(src[1..], upper)
  }

  lemma {:induction false} HexAllSnoc(src: seq<Byte>, b: Byte, upper: bool)
    ensures HexAll(src + [b], upper) == HexAll(src, upper) + Hex(b as int, upper)
    decreases |src|
  {
    if src == [] {
      assert [b][1..] == [];
    } else {
      assert (src + [b])[1..] == src[1..] + [b];
      HexAllSnoc(src[1..], b, upper);
    }
  }

  /** Byte `i` of the source is written at positions `2 i` and `2 i + 1`. */
  lemma {:induction false} HexAllAt(src: seq<Byte>, upper: bool, i: nat)
    requires i < |src|
    ensures HexAll(src, upper)[2 * i..2 * i + 2] == Hex(src[i] as int, upper)
    decreases i
  {
    if i > 0 {
      HexAllAt(src[1..], upper, i - 1);
      var rest := HexAll(src[1..], upper);
      assert HexAll(src, upper)[2 * i..2 * i + 2] == rest[2 * (i - 1)..2 * (i - 1) + 2];
    }
  }

  /** A buffer holding `w` over the front of `o`, with `h` written after `w`. */
  /** Writing `h` just after the prefix `w` of a buffer that otherwise holds `o` leaves
      `w + h` followed by the rest of `o`. */
  lemma Spliced(before: string, after: string, w: string, o: string, h: string)
    requires |w| + |h| <= |o| && before == w + o[|w|..]
    requires after == before[..|w|] + h + before[|w| + |h|..]
    ensures after == (w + h) + o[|w| + |h|..]
  {
    assert before[..|w|] == w;
    assert before[|w| + |h|..] == o[|w| + |h|..];
  }

  lemma HexAllPrefix(src: seq<Byte>, i: nat, upper: bool)
    requires i < |src|
    ensures HexAll(src[..i + 1], upper) == HexAll(src[..i], upper) + Hex(src[i] as int, upper)
  {
    HexAllSnoc(src[..i], src[i], upper);
    assert src[..i + 1] == src[..i] + [src[i]];
  }

  /** `dumphex`: writes exactly two characters per byte at the front of `out`. */
  method DumpHex(src: seq<Byte>, out: array<char>, upper: bool)
    requires 2 * |src| <= out.Length
    modifies out
    ensures out[..] == HexAll(src, upper) + old(out[2 * |src|..])
  {
    var i := 0;
    ghost var o := out[..];
    while i < |src|
      invariant i <= |src| && |o| == out.Length
      invariant out[..] == HexAll(src[..i], upper) + o[2 * i..]
    {
      PutHex(src, i, out, upper, o);
      i := i + 1;
    }
    assert src[..|src|] == src;
  }

  /** One round of the `dumphex` loop: the pair for byte `i` follows the pairs before it. */
  method PutHex(src: seq<Byte>, i: nat, out: array<char>, upper: bool, ghost o: string)
    requires i < |src| && 2 * |src| <= out.Length == |o|
    requires out[..] == HexAll(src[..i], upper) + o[2 * i..]
    modifies out
    ensures out[..] == HexAll(src[..i + 1], upper) + o[2 * i + 2..]
  {
    ghost var w, before := HexAll(src[..i], upper), out[..];
    var h := Hex(src[i] as int, upper);
    WriteAt(out, 2 * i, h);
    Spliced(before, out[..], w, o, h);
    HexAllPrefix(src, i, upper);
  }

  /** Each pair `dumphex` writes reads back, after `0x`, as its byte. */
  lemma DumpHexReadsBack(src: seq<Byte>, upper: bool, i: nat, bits: nat)
    requires i < |src| && bits >= 8
    ensures ToInt(Some("0x" + HexAll(src, upper)[2 * i..2 * i + 2]), bits) == src[i] as int
  {
    HexAllAt(src, upper, i);
    HexRoundTrip(src[i], upper, bits);
  }
}
