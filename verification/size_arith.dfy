/** `size_t` arithmetic shared by the alignment helpers and the stack traits:
    64-bit wrap-around and rounding up to a power-of-two unit with `(x + u - 1) & ~(u - 1)`. */
module SizeArith {
  const SIZE_MAX: nat := 0xFFFF_FFFF_FFFF_FFFF
  const SIZE_MODULUS: nat := SIZE_MAX + 1

  /** `sizeof(size_t)` and `sizeof(void *)` on the 64-bit targets the model fixes. */
  const SIZEOF_SIZE_T: nat := 8

  predicate IsSizeT(x: int) { 0 <= x <= SIZE_MAX }

  /** Unsigned addition modulo 2^64, as `size_t` addition behaves. */
  function AddWrap(a: nat, b: nat): (r: nat)
    ensures r <= SIZE_MAX
    ensures a + b <= SIZE_MAX ==> r == a + b
  {
    (a + b) % SIZE_MODULUS
  }

  /** Unsigned subtraction modulo 2^64, as `size_t` subtraction behaves. */
  function SubWrap(a: nat, b: nat): (r: nat)
    ensures r <= SIZE_MAX
    ensures b <= a <= SIZE_MAX ==> r == a - b
  {
    (a - b) % SIZE_MODULUS
  }

  /** Adding back what was subtracted restores any `size_t` value, even across wrap-around. */
  lemma SubWrapThenAddWrap(a: nat, b: nat)
    requires a <= SIZE_MAX && b <= SIZE_MAX
    ensures AddWrap(b, SubWrap(a, b)) == a
  {
    if a < b {
      LemmaModUnique(a - b, SIZE_MODULUS, -1, a - b + SIZE_MODULUS);
      LemmaModUnique(a + SIZE_MODULUS, SIZE_MODULUS, 1, a);
    }
  }

  predicate IsPow2(n: nat)
    decreases n
  {
    n == 1 || (n > 1 && n % 2 == 0 && IsPow2(n / 2))
  }

  /** `(x + unit - 1) & ~(unit - 1)` on `size_t`, for a power-of-two `unit`: clearing the low bits
      of the (wrapped) sum rounds it down to a multiple of `unit`. */
  function RoundUpPow2(x: nat, unit: nat): (r: nat)
    requires unit > 0 && IsPow2(unit)
    ensures r % unit == 0
    ensures r <= SIZE_MAX
  {
    var s := AddWrap(x, unit - 1);
    LemmaRoundDownBounded(s, unit);
    s / unit * unit
  }

  lemma LemmaRoundDownBounded(s: nat, unit: nat)
    requires unit > 0 && s <= SIZE_MAX
    ensures s / unit * unit <= s
    ensures (s / unit * unit) % unit == 0
  {
    LemmaDivMulLe(s, unit);
    LemmaMulMod(s / unit, unit);
  }

  lemma LemmaDivMulLe(s: nat, unit: nat)
    requires unit > 0
    ensures s / unit * unit <= s
    ensures s - s / unit * unit < unit
  {
  }

  lemma LemmaMulMod(q: nat, unit: nat)
    requires unit > 0
    ensures (q * unit) % unit == 0
  {
    var a := q * unit;
    var d, m := a / unit, a % unit;
    assert a == d * unit + m;
    assert (q - d) * unit == m;
    if q - d >= 1 {
      LemmaMulAtLeast(q - d, unit);
    } else if q - d <= -1 {
      LemmaMulAtLeast(d - q, unit);
    }
  }

  lemma LemmaMulAtLeast(k: int, unit: nat)
    requires k >= 1
    ensures k * unit >= unit
  {
  }

  /** When the sum does not overflow, the rounded value is the least multiple of `unit` that is
      at least `x`. */
  lemma LemmaRoundUpLeastMultiple(x: nat, unit: nat)
    requires unit > 0 && IsPow2(unit)
    requires x + unit - 1 <= SIZE_MAX
    ensures RoundUpPow2(x, unit) >= x
    ensures RoundUpPow2(x, unit) < x + unit
    ensures forall m: nat {:trigger m % unit} :: m >= x && m % unit == 0 ==> m >= RoundUpPow2(x, unit)
  {
    var r := RoundUpPow2(x, unit);
    var s := x + unit - 1;
    assert r == s / unit * unit;
    LemmaDivMulLe(s, unit);
    forall m: nat | m >= x && m % unit == 0
      ensures m >= r
    {
      if m < r {
        LemmaMultiplesApart(m, r, unit);
      }
    }
  }

  /** Two distinct multiples of `unit` are at least `unit` apart. */
  lemma LemmaMultiplesApart(m: nat, r: nat, unit: nat)
    requires unit > 0 && m % unit == 0 && r % unit == 0 && m < r
    ensures r - m >= unit
  {
    var qm, qr := m / unit, r / unit;
    assert m == qm * unit;
    assert r == qr * unit;
    LemmaMulStrict(qm, qr, unit);
    LemmaMulMonotone(qm + 1, qr, unit);
  }

  lemma LemmaMulStrict(a: int, b: int, c: nat)
    requires a * c < b * c
    ensures a < b
  {
  }

  lemma LemmaMulMonotone(a: nat, b: nat, c: nat)
    requires a <= b
    ensures a * c <= b * c
  {
  }

  /** Rounding an already aligned, non-overflowing value returns it unchanged. */
  lemma LemmaRoundUpIdempotent(x: nat, unit: nat)
    requires unit > 0 && IsPow2(unit)
    requires x % unit == 0 && x + unit - 1 <= SIZE_MAX
    ensures RoundUpPow2(x, unit) == x
  {
    LemmaRoundUpLeastMultiple(x, unit);
  }

  function Pow2(n: nat): (r: nat)
    ensures r >= 1
  {
    if n == 0 then 1 else 2 * Pow2(n - 1)
  }

  /** A power of two divides every larger power of two. */
  lemma {:induction false} LemmaPow2Divides(u: nat, n: nat)
    requires IsPow2(u) && u <= Pow2(n)
    ensures Pow2(n) % u == 0
  {
    if u != 1 {
      var h := u / 2;
      assert n > 0;
      LemmaPow2Divides(h, n - 1);
      var k := Pow2(n - 1) / h;
      assert Pow2(n - 1) == h * k;
      assert Pow2(n) == u * k;
      LemmaMulMod(k, u);
    }
  }

  lemma LemmaPow2DividesModulus(u: nat)
    requires IsPow2(u) && u <= SIZE_MODULUS
    ensures SIZE_MODULUS % u == 0
  {
    LemmaPow2Of64();
    LemmaPow2Divides(u, 64);
  }

  lemma LemmaPow2Of64()
    ensures Pow2(64) == SIZE_MODULUS
  {
    assert Pow2(4) == 16;
    LemmaPow2Add(4, 4);
    assert Pow2(8) == 256;
    LemmaPow2Add(8, 8);
    assert Pow2(16) == 0x1_0000;
    LemmaPow2Add(16, 16);
    assert Pow2(32) == 0x1_0000_0000;
    LemmaPow2Add(32, 32);
  }

  lemma {:induction false} LemmaPow2Add(a: nat, b: nat)
    ensures Pow2(a + b) == Pow2(a) * Pow2(b)
  {
    if a > 0 {
      LemmaPow2Add(a - 1, b);
    }
  }

  /** Every multiple of a power-of-two unit that fits in `size_t` is left unchanged by rounding,
      including the multiples close to `SIZE_MAX`. */
  lemma LemmaRoundUpFixesMultiples(x: nat, unit: nat)
    requires IsPow2(unit) && unit <= SIZE_MODULUS
    requires x % unit == 0 && x <= SIZE_MAX
    ensures RoundUpPow2(x, unit) == x
  {
    LemmaPow2DividesModulus(unit);
    if x + unit - 1 > SIZE_MAX {
      LemmaMultiplesApart(x, SIZE_MODULUS, unit);
    }
    LemmaRoundUpIdempotent(x, unit);
  }

  /** Euclidean division is unique: a quotient and a remainder in range determine `a % d`. */
  lemma LemmaModUnique(a: int, d: nat, q: int, r: int)
    requires d > 0 && 0 <= r < d && a == q * d + r
    ensures a % d == r
  {
    var q2, r2 := a / d, a % d;
    assert a == q2 * d + r2;
    assert (q - q2) * d == r2 - r;
    if q - q2 >= 1 {
      LemmaMulAtLeast(q - q2, d);
    } else if q - q2 <= -1 {
      LemmaMulAtLeast(q2 - q, d);
    }
  }

  /** Adding one commutes with taking the remainder. */
  lemma LemmaModAddOne(x: nat, d: nat)
    requires d > 0
    ensures (x % d + 1) % d == (x + 1) % d
  {
    var q, r := x / d, x % d;
    assert x == q * d + r;
    if r + 1 < d {
      LemmaModUnique(x + 1, d, q, r + 1);
      LemmaModUnique(r + 1, d, 0, r + 1);
    } else {
      assert x + 1 == (q + 1) * d + 0;
      LemmaModUnique(x + 1, d, q + 1, 0);
      LemmaModUnique(r + 1, d, 1, 0);
    }
  }

  /** Two numbers less than `d` apart, but different, have different remainders. */
  lemma LemmaModDistinct(a: nat, b: nat, d: nat)
    requires d > 0 && a < b < a + d
    ensures a % d != b % d
  {
    var qa, ra := a / d, a % d;
    var qb, rb := b / d, b % d;
    assert a == qa * d + ra;
    assert b == qb * d + rb;
    if ra == rb {
      assert (qb - qa) * d == b - a;
      if qb - qa >= 1 {
        LemmaMulAtLeast(qb - qa, d);
      } else {
        LemmaMulNonPositive(qb - qa, d);
      }
    }
  }

  lemma LemmaMulNonPositive(k: int, d: nat)
    requires k <= 0
    ensures k * d <= 0
  {
  }
}
