/** The case-insensitive character traits behind command names (cli/cmd_option_string.h):
    characters compare by their upper-case form, under the C locale's `toupper`, which is
    `StringOprs.ToUpper`. Pointers into a text are indices. */
module CmdString {
  import opened Optional
  import StringOprs

  /** `ci_char_traits::eq`. */
  predicate Eq(left: char, right: char)
  {
    StringOprs.ToUpper(left) == StringOprs.ToUpper(right)
  }

  /** `ci_char_traits::lt`. */
  predicate Lt(left: char, right: char)
  {
    StringOprs.ToUpper(left) < StringOprs.ToUpper(right)
  }

  /** `eq` ignores letter case and is an equivalence; `lt` is a strict order in which
      exactly one of `lt`, `eq` and the reverse `lt` holds for any two characters. */
  lemma TraitsOrder(a: char, b: char, c: char)
    ensures Eq(a, StringOprs.ToLower(a)) && Eq(a, StringOprs.ToUpper(a))
    ensures Eq(a, a) && (Eq(a, b) ==> Eq(b, a)) && (Eq(a, b) && Eq(b, c) ==> Eq(a, c))
    ensures !Lt(a, a) && (Lt(a, b) && Lt(b, c) ==> Lt(a, c))
    ensures (if Lt(a, b) then 1 else 0) + (if Eq(a, b) then 1 else 0) + (if Lt(b, a) then 1 else 0) == 1
  {
    StringOprs.CaseRoundTrip(a);
  }

  // ---------------------------------------------------------------- compare

  /** What `compare` answers for the first `n` characters, looking from position `i`: the
      sign of the first upper-case difference, 0 when there is none. */
  function CompareFrom(left: string, right: string, i: nat, n: nat): (r: int)
    requires i <= n <= |left| && n <= |right|
    ensures -1 <= r <= 1
    decreases n - i
  {
    if i == n then 0
    else if Lt(left[i], right[i]) then -1
    else if Lt(right[i], left[i]) then 1
    else CompareFrom(left, right, i + 1, n)
  }

  /** `compare(left, right, n)`: walks both texts while `n` counts down. */
  method Compare(left: string, right: string, n0: nat) returns (r: int)
    requires n0 <= |left| && n0 <= |right|
    ensures r == CompareFrom(left, right, 0, n0)
  {
    var n := n0;
    var i := 0;
    while n > 0
      invariant i + n == n0
      invariant CompareFrom(left, right, i, n0) == CompareFrom(left, right, 0, n0)
    {
      n := n - 1;
      var cl, cr := StringOprs.ToUpper(left[i]), StringOprs.ToUpper(right[i]);
      if cl < cr {
        return -1;
      } else if cl > cr {
        return 1;
      }
      i := i + 1;
    }
    return 0;
  }

  /** `compare` answers 0 exactly when the first `n` characters agree ignoring case. */
  lemma {:induction false} CompareZeroIffEqual(left: string, right: string, i: nat, n: nat)
    requires i <= n <= |left| && n <= |right|
    ensures CompareFrom(left, right, i, n) == 0 <==> forall k :: i <= k < n ==> Eq(left[k], right[k])
    decreases n - i
  {
    if i < n {
      CompareZeroIffEqual(left, right, i + 1, n);
      TraitsOrder(left[i], right[i], left[i]);
    }
  }

  /** Swapping the texts flips the answer. */
  lemma {:induction false} CompareAntisymmetric(left: string, right: string, i: nat, n: nat)
    requires i <= n <= |left| && n <= |right|
    ensures CompareFrom(right, left, i, n) == -CompareFrom(left, right, i, n)
    decreases n - i
  {
    if i < n {
      CompareAntisymmetric(left, right, i + 1, n);
      TraitsOrder(left[i], right[i], left[i]);
    }
  }

  /** A text compared with itself, or with its lower-case copy, over any length is equal. */
  lemma CompareSelf(s: string, n: nat)
    requires n <= |s|
    ensures CompareFrom(s, s, 0, n) == 0
    ensures CompareFrom(s, seq(|s|, k requires 0 <= k < |s| => StringOprs.ToLower(s[k])), 0, n) == 0
  {
    var lower := seq(|s|, k requires 0 <= k < |s| => StringOprs.ToLower(s[k]));
    forall k | 0 <= k < n ensures Eq(s[k], s[k]) && Eq(s[k], lower[k]) {
      TraitsOrder(s[k], s[k], s[k]);
    }
    CompareZeroIffEqual(s, s, 0, n);
    CompareZeroIffEqual(s, lower, 0, n);
  }

  // ---------------------------------------------------------------- find

  /** `find(s, n, a)`: the first of the first `n` characters equal to `a` ignoring case, or
      `None` for the null pointer; a count of zero or less finds nothing. */
  method Find(s: string, n0: int, a: char) returns (r: Option<nat>)
    requires n0 <= |s|
    ensures r.Some? ==> r.value < n0 && Eq(s[r.value], a)
    ensures r.Some? ==> forall k :: 0 <= k < r.value ==> !Eq(s[k], a)
    ensures r.None? ==> forall k :: 0 <= k < n0 ==> !Eq(s[k], a)
  {
    var n := n0;
    var i := 0;
    var stop := false;
    while !stop
      invariant 0 <= i <= |s|
      invariant !stop ==> i + n == n0 && (n >= 0 || i == 0)
      invariant forall k :: 0 <= k < i ==> !Eq(s[k], a)
      invariant stop && n >= 0 ==> i < n0 && Eq(s[i], a)
      invariant stop && n < 0 ==> i >= n0
      decreases if stop then 0 else 1, n
    {
      var more := n > 0;
      n := n - 1;
      if !more || StringOprs.ToUpper(s[i]) == StringOprs.ToUpper(a) {
        stop := true;
      } else {
        i := i + 1;
      }
    }
    r := if n >= 0 then Some(i) else None;
  }
}
