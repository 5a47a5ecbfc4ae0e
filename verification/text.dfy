/** The few JavaScript string primitives the request handlers rely on:
    `String.prototype.trim`, `String.prototype.length` (UTF-16 code units),
    `Number.prototype.toString` on integers and the global `parseInt`. */
module Text {
  import opened Wrappers

  /** ECMAScript WhiteSpace and LineTerminator code points: exactly the set
      `trim` removes and `parseInt` skips before the number. */
  predicate IsJsWhitespace(c: char) {
    var n := c as int;
    (0x09 <= n <= 0x0D) || n == 0x20 || n == 0xA0 || n == 0x1680
    || (0x2000 <= n <= 0x200A) || n == 0x2028 || n == 0x2029
    || n == 0x202F || n == 0x205F || n == 0x3000 || n == 0xFEFF
  }

  predicate AllWhitespace(s: string) {
    forall i :: 0 <= i < |s| ==> IsJsWhitespace(s[i])
  }

  /** End of the whitespace run starting at `k`: the first position at or
      after `k` that does not hold whitespace */
  function WhitespaceEnd(s: string, k: nat): (j: nat)
    requires k <= |s|
    ensures k <= j <= |s|
    ensures forall m :: k <= m < j ==> IsJsWhitespace(s[m])
    ensures j < |s| ==> !IsJsWhitespace(s[j])
    decreases |s| - k
  {
    if k < |s| && IsJsWhitespace(s[k]) then WhitespaceEnd(s, k + 1) else k
  }

  /** Start of the whitespace run ending at `j`, not going below `lo` */
  function WhitespaceStart(s: string, lo: nat, j: nat): (i: nat)
    requires lo <= j <= |s|
    ensures lo <= i <= j
    ensures forall m :: i <= m < j ==> IsJsWhitespace(s[m])
    ensures i > lo ==> !IsJsWhitespace(s[i - 1])
  {
    if j > lo && IsJsWhitespace(s[j - 1]) then WhitespaceStart(s, lo, j - 1) else j
  }

  /** Leading whitespace removed: a suffix of `s` that does not start with whitespace. */
  function TrimStart(s: string): (r: string)
    ensures |r| <= |s| && r == s[|s| - |r|..]
    ensures AllWhitespace(s[..|s| - |r|])
    ensures |r| > 0 ==> !IsJsWhitespace(r[0])
  {
    s[WhitespaceEnd(s, 0)..]
  }

  /** `s.trim()`: the slice of `s` between its leading and trailing whitespace */
  function Trim(s: string): (r: string)
    ensures var i := |s| - |TrimStart(s)|;
              i + |r| <= |s| && r == s[i..i + |r|]
              && AllWhitespace(s[..i]) && AllWhitespace(s[i + |r|..])
    ensures |r| > 0 ==> !IsJsWhitespace(r[0]) && !IsJsWhitespace(r[|r| - 1])
  {
    var i := WhitespaceEnd(s, 0);
    s[i..WhitespaceStart(s, i, |s|)]
  }

  /** A string trims to the empty string exactly when it is all whitespace. */
  lemma {:induction false} TrimEmptyIff(s: string)
    ensures Trim(s) == "" <==> AllWhitespace(s)
  {
    var t := TrimStart(s);
    if Trim(s) == "" {
      assert t == "";
      assert s[..|s|] == s;
    } else {
      var r := Trim(s);
      assert r[0] == s[|s| - |t|];
    }
  }

  /** Number of UTF-16 code units of `s`, which is what JavaScript's
      `length` counts: code points above U+FFFF take a surrogate pair. */
  function Utf16Length(s: string): (n: nat)
    ensures |s| <= n <= 2 * |s|
    ensures n == |s| <==> forall i :: 0 <= i < |s| ==> s[i] as int <= 0xFFFF
  {
    if |s| == 0 then 0
    else Utf16Length(s[..|s| - 1]) + (if s[|s| - 1] as int > 0xFFFF then 2 else 1)
  }

  // ----- integers to decimal text -----

  predicate IsDecimalDigit(c: char) {
    '0' <= c <= '9'
  }

  function DecimalDigit(d: nat): (c: char)
    requires d < 10
    ensures IsDecimalDigit(c) && DigitValue(c) == d
  {
    "0123456789"[d]
  }

  /** Value of a digit character in radix up to 36, as `parseInt` reads it */
  function DigitValue(c: char): nat {
    if '0' <= c <= '9' then (c as int) - ('0' as int)
    else if 'a' <= c <= 'z' then (c as int) - ('a' as int) + 10
    else if 'A' <= c <= 'Z' then (c as int) - ('A' as int) + 10
    else 36
  }

  predicate IsDigitIn(c: char, radix: nat) {
    DigitValue(c) < radix
  }

  /** `n.toString()` for a non-negative integer: shortest decimal, no leading zero */
  function NatToString(n: nat): (s: string)
    ensures |s| > 0
    ensures forall i :: 0 <= i < |s| ==> IsDecimalDigit(s[i])
    ensures |s| > 1 ==> s[0] != '0'
  {
    if n < 10 then [DecimalDigit(n)] else NatToString(n / 10) + [DecimalDigit(n % 10)]
  }

  /** `n.toString()` for any integer */
  function IntToString(n: int): string {
    if n < 0 then "-" + NatToString(-n) else NatToString(n)
  }

  /** Value of a string of digits read most significant first in `radix` */
  function DigitsValue(s: string, radix: nat): nat
    requires forall i :: 0 <= i < |s| ==> IsDigitIn(s[i], radix)
  {
    if |s| == 0 then 0
    else
      var high := DigitsValue(s[..|s| - 1], radix);
      ProductNonNegative(high, radix);
      high * radix + DigitValue(s[|s| - 1])
  }

  lemma ProductNonNegative(a: nat, b: nat)
    ensures a * b >= 0
  {
  }

  lemma {:induction false} DigitsValueOfNatToString(n: nat)
    ensures forall i :: 0 <= i < |NatToString(n)| ==> IsDigitIn(NatToString(n)[i], 10)
    ensures DigitsValue(NatToString(n), 10) == n
  {
    var s := NatToString(n);
    if n >= 10 {
      DigitsValueOfNatToString(n / 10);
      assert s[..|s| - 1] == NatToString(n / 10);
    }
  }

  // ----- parseInt -----

  /** Longest prefix of `s` made of digits of `radix` */
  function LeadingDigits(s: string, radix: nat): (d: string)
    ensures |d| <= |s| && d == s[..|d|]
    ensures forall i :: 0 <= i < |d| ==> IsDigitIn(d[i], radix)
    ensures |d| < |s| ==> !IsDigitIn(s[|d|], radix)
  {
    if |s| > 0 && IsDigitIn(s[0], radix) then [s[0]] + LeadingDigits(s[1..], radix) else ""
  }

  /** The global `parseInt(s)` without a radix argument: skip leading
      whitespace, read an optional sign, read a `0x`/`0X` prefix as radix 16
      and then the longest run of digits. No digits gives NaN, here None. */
  function ParseInt(s: string): (r: Option<int>)
    ensures r.None? <==> LeadingDigits(Unprefixed(s), ParseRadix(s)) == ""
  {
    var d := LeadingDigits(Unprefixed(s), ParseRadix(s));
    if |d| == 0 then None
    else Some(ParseSign(s) * DigitsValue(d, ParseRadix(s)))
  }

  /** The text after leading whitespace and an optional sign */
  function Unsigned(s: string): string {
    var t := TrimStart(s);
    if |t| > 0 && (t[0] == '-' || t[0] == '+') then t[1..] else t
  }

  function ParseSign(s: string): int {
    var t := TrimStart(s);
    if |t| > 0 && t[0] == '-' then -1 else 1
  }

  predicate HasHexPrefix(s: string) {
    var u := Unsigned(s);
    |u| >= 2 && u[0] == '0' && (u[1] == 'x' || u[1] == 'X')
  }

  function ParseRadix(s: string): nat {
    if HasHexPrefix(s) then 16 else 10
  }

  function Unprefixed(s: string): string {
    var u := Unsigned(s);
    if HasHexPrefix(s) then u[2..] else u
  }

  /** Reading a non-negative integer back from its decimal text gives it back. */
  lemma ParseIntOfNatToString(n: nat)
    ensures ParseInt(NatToString(n)) == Some(n)
  {
    var s := NatToString(n);
    assert TrimStart(s) == s by {
      assert !IsJsWhitespace(s[0]);
      assert WhitespaceEnd(s, 0) == 0;
    }
    assert Unsigned(s) == s;
    assert !HasHexPrefix(s) by {
      if |s| >= 2 {
        assert s[0] != '0';
      }
    }
    assert Unprefixed(s) == s;
    AllDigitsLeading(s, 10);
    DigitsValueOfNatToString(n);
  }

  /** `parseInt` on whitespace, an optional sign, decimal digits and then
      anything that is not a digit reads exactly those digits, with the sign. */
  lemma ParseIntReadsDecimalPrefix(w: string, sign: string, d: string, t: string)
    requires AllWhitespace(w)
    requires sign == "" || sign == "+" || sign == "-"
    requires |d| > 0 && forall i :: 0 <= i < |d| ==> IsDigitIn(d[i], 10)
    requires |t| > 0 ==> !IsDigitIn(t[0], 10)
    requires !(d == "0" && |t| > 0 && (t[0] == 'x' || t[0] == 'X'))
    ensures ParseInt(w + sign + d + t) == Some((if sign == "-" then -1 else 1) * DigitsValue(d, 10))
  {
    var u := d + t;
    var s := w + sign + u;
    assert w + sign + d + t == s;
    SignedAfterWhitespace(w, sign, u);
    NoHexPrefix(d, t);
    LeadingDigitsOfPrefix(d, t, 10);
    ParseIntDecimal(s, d);
  }

  /** Digits followed by a non-digit never begin with `0x` */
  lemma NoHexPrefix(d: string, t: string)
    requires |d| > 0 && forall i :: 0 <= i < |d| ==> IsDigitIn(d[i], 10)
    requires !(d == "0" && |t| > 0 && (t[0] == 'x' || t[0] == 'X'))
    ensures var u := d + t; !(|u| >= 2 && u[0] == '0' && (u[1] == 'x' || u[1] == 'X'))
  {
    var u := d + t;
    if |u| >= 2 && u[0] == '0' {
      if |d| >= 2 {
        assert u[1] == d[1];
        assert IsDigitIn(d[1], 10);
      } else {
        assert d == "0";
        assert u[1] == t[0];
      }
    }
  }

  /** With no digit after the whitespace and optional sign, `parseInt` is NaN. */
  lemma ParseIntNaN(w: string, sign: string, t: string)
    requires AllWhitespace(w)
    requires sign == "" || sign == "+" || sign == "-"
    requires |t| > 0 ==> !IsJsWhitespace(t[0]) && !IsDigitIn(t[0], 10) && t[0] != '+' && t[0] != '-'
    ensures ParseInt(w + sign + t) == None
  {
    SignedAfterWhitespace(w, sign, t);
    assert LeadingDigits(t, 10) == "";
  }

  /** Whitespace and a sign are skipped, and the sign is the one read */
  lemma SignedAfterWhitespace(w: string, sign: string, u: string)
    requires AllWhitespace(w)
    requires sign == "" || sign == "+" || sign == "-"
    requires |u| > 0 ==> !IsJsWhitespace(u[0]) && u[0] != '+' && u[0] != '-'
    ensures Unsigned(w + sign + u) == u
    ensures ParseSign(w + sign + u) == if sign == "-" then -1 else 1
  {
    var rest := sign + u;
    assert w + sign + u == w + rest;
    TrimStartSkipsWhitespace(w, rest);
    SignAfterTrim(w + rest, sign, u);
  }

  lemma SignAfterTrim(s: string, sign: string, u: string)
    requires sign == "" || sign == "+" || sign == "-"
    requires |u| > 0 ==> u[0] != '+' && u[0] != '-'
    requires TrimStart(s) == sign + u
    ensures Unsigned(s) == u
    ensures ParseSign(s) == if sign == "-" then -1 else 1
  {
    var t := sign + u;
    if sign == "" {
      assert t == u;
    } else {
      assert t[0] == sign[0] && t[1..] == u;
    }
  }

  /** A string without a hex prefix whose unsigned part begins with the digits `d` */
  lemma ParseIntDecimal(s: string, d: string)
    requires !HasHexPrefix(s)
    requires |d| > 0 && LeadingDigits(Unsigned(s), 10) == d
    ensures forall i :: 0 <= i < |d| ==> IsDigitIn(d[i], 10)
    ensures ParseInt(s) == Some(ParseSign(s) * DigitsValue(d, 10))
  {
  }

  lemma TrimStartSkipsWhitespace(w: string, rest: string)
    requires AllWhitespace(w)
    requires |rest| > 0 ==> !IsJsWhitespace(rest[0])
    ensures TrimStart(w + rest) == rest
  {
    var s := w + rest;
    assert forall m :: 0 <= m < |w| ==> s[m] == w[m];
    assert |w| < |s| ==> s[|w|] == rest[0];
    WhitespaceEndAt(s, |w|, 0);
    assert s[|w|..] == rest;
  }

  /** The whitespace scan from `k` stops at `n` when `s[k..n]` is all
      whitespace and `s[n]` is not */
  lemma {:induction false} WhitespaceEndAt(s: string, n: nat, k: nat)
    requires k <= n <= |s|
    requires forall m :: k <= m < n ==> IsJsWhitespace(s[m])
    requires n < |s| ==> !IsJsWhitespace(s[n])
    ensures WhitespaceEnd(s, k) == n
    decreases n - k
  {
    if k < n {
      WhitespaceEndAt(s, n, k + 1);
    }
  }

  lemma {:induction false} LeadingDigitsOfPrefix(d: string, t: string, radix: nat)
    requires forall i :: 0 <= i < |d| ==> IsDigitIn(d[i], radix)
    requires |t| > 0 ==> !IsDigitIn(t[0], radix)
    ensures LeadingDigits(d + t, radix) == d
  {
    if |d| > 0 {
      assert (d + t)[1..] == d[1..] + t;
      LeadingDigitsOfPrefix(d[1..], t, radix);
    } else {
      assert d + t == t;
    }
  }

  lemma {:induction false} AllDigitsLeading(s: string, radix: nat)
    requires forall i :: 0 <= i < |s| ==> IsDigitIn(s[i], radix)
    ensures LeadingDigits(s, radix) == s
  {
    if |s| > 0 {
      AllDigitsLeading(s[1..], radix);
    }
  }
}
