/** JavaScript value semantics that the dial engine relies on, stated over
    unbounded integers and `seq<char>` strings: `Math.round` of a quotient,
    the truncating `%` operator, number-to-string conversion, zero padding,
    `Number(text)` for the digit strings the dial shows, and `trimEnd`. */
module JsValues {

  datatype Option<+T> = None | Some(value: T)

  /** `Math.round(n / d)` for a positive divisor: the nearest integer, with
      halves rounded toward +infinity (so `Math.round(-2.5) == -2`). */
  function RoundDiv(n: int, d: int): (r: int)
    requires d > 0
    ensures 2 * d * r - d <= 2 * n < 2 * d * r + d
  {
    var q := (2 * n + d) / (2 * d);
    assert (2 * n + d) == 2 * d * q + (2 * n + d) % (2 * d);
    q
  }

  /** The rounding is unique: any integer within the half-open window of
      `n / d` is `RoundDiv(n, d)`. */
  lemma RoundDivUnique(n: int, d: int, k: int)
    requires d > 0
    requires 2 * d * k - d <= 2 * n < 2 * d * k + d
    ensures RoundDiv(n, d) == k
  {
    var r := RoundDiv(n, d);
    if r < k {
      assert 2 * d * k == 2 * d * r + 2 * d * (k - r);
      MulAtLeast(2 * d, k - r);
    } else if r > k {
      assert 2 * d * r == 2 * d * k + 2 * d * (r - k);
      MulAtLeast(2 * d, r - k);
    }
  }

  lemma MulAtLeast(c: int, t: int)
    requires c > 0 && t >= 1
    ensures c * t >= c
  {
    assert c * t == c + c * (t - 1);
  }

  /** Adding a whole number of divisors to the dividend shifts the rounded
      quotient by exactly that number (`Math.round(m + x) == m + Math.round(x)`). */
  lemma RoundDivShift(n: int, d: int, m: int)
    requires d > 0
    ensures RoundDiv(n + m * d, d) == RoundDiv(n, d) + m
  {
    var r := RoundDiv(n, d);
    assert 2 * d * (r + m) == 2 * d * r + 2 * (m * d);
    RoundDivUnique(n + m * d, d, r + m);
  }

  /** An exact quotient is its own rounding. */
  lemma RoundDivExact(k: int, d: int)
    requires d > 0
    ensures RoundDiv(k * d, d) == k
  {
    assert 2 * d * k == 2 * (k * d);
    RoundDivUnique(k * d, d, k);
  }

  /** JavaScript's `a % b` for a positive `b`: the remainder truncated toward
      zero, so it takes the sign of `a`. */
  function JsRem(a: int, b: int): (r: int)
    requires b > 0
    ensures a >= 0 ==> 0 <= r < b && r == a % b
    ensures a < 0 ==> -b < r <= 0 && -r == (-a) % b
  {
    if a >= 0 then a % b else -((-a) % b)
  }

  function DigitChar(n: int): (c: char)
    requires 0 <= n < 10
    ensures '0' <= c <= '9'
  {
    "0123456789"[n]
  }

  predicate IsDigit(c: char) {
    '0' <= c <= '9'
  }

  predicate AllDigits(s: string) {
    forall i :: 0 <= i < |s| ==> IsDigit(s[i])
  }

  /** `String(n)` / `${n}` for a non-negative integer: decimal, no leading zeros. */
  function NatToString(n: nat): (s: string)
    ensures |s| >= 1
    ensures AllDigits(s)
    ensures n < 10 <==> |s| == 1
    decreases n
  {
    if n < 10 then [DigitChar(n)] else NatToString(n / 10) + [DigitChar(n % 10)]
  }

  /** `String(n)` for any integer; a negative number gets a leading '-'. */
  function IntToString(n: int): (s: string)
    ensures |s| >= 1
    ensures n >= 0 <==> s[0] != '-'
  {
    if n < 0 then "-" + NatToString(-n) else NatToString(n)
  }

  /** The two-digit label the dial writes: `n <= 9 ? `0${n}` : `${n}``. */
  function Pad2(n: int): (s: string)
    ensures 0 <= n < 100 ==> |s| == 2 && AllDigits(s)
  {
    if n <= 9 then "0" + IntToString(n) else IntToString(n)
  }

  /** Value of a string of decimal digits, most significant first. */
  function DigitsValue(s: string): nat
    requires AllDigits(s)
  {
    if |s| == 0 then 0
    else DigitsValue(s[..|s| - 1]) * 10 + (s[|s| - 1] as int - '0' as int)
  }

  /** `Number(text)` for the forms this model needs: the empty string is 0,
      a string of decimal digits is its value, anything else is NaN (None). */
  function JsNumber(s: string): Option<int> {
    if AllDigits(s) then Some(DigitsValue(s)) else None
  }

  lemma {:induction false} NatToStringValue(n: nat)
    ensures DigitsValue(NatToString(n)) == n
    decreases n
  {
    var s := NatToString(n);
    if n >= 10 {
      NatToStringValue(n / 10);
      assert s[..|s| - 1] == NatToString(n / 10);
      assert s[|s| - 1] == DigitChar(n % 10);
    }
  }

  /** Reading a padded label back with `Number` gives the number it was made from. */
  lemma Pad2RoundTrip(n: nat)
    ensures JsNumber(Pad2(n)) == Some(n)
  {
    NatToStringValue(n);
    if n <= 9 {
      var s := Pad2(n);
      assert s == "0" + NatToString(n);
      assert s[..|s| - 1] == "0";
      assert DigitsValue("0") == 0 by {
        assert "0"[..0] == "";
      }
    }
  }

  /** The characters `String.prototype.trimEnd` removes: white space and line
      terminators as ECMAScript defines them. */
  predicate IsJsWhitespace(c: char) {
    c == '\t' || c == '\n' || c == '\r' || c == ' '
    || c == '\U{000B}' || c == '\U{000C}' || c == '\U{00A0}' || c == '\U{FEFF}'
    || c == '\U{1680}' || ('\U{2000}' <= c <= '\U{200A}')
    || c == '\U{2028}' || c == '\U{2029}' || c == '\U{202F}' || c == '\U{205F}' || c == '\U{3000}'
  }

  /** `s.trimEnd()`: the longest prefix whose last character is not white space,
      everything dropped being white space. */
  function TrimEnd(s: string): (r: string)
    ensures r <= s
    ensures |r| > 0 ==> !IsJsWhitespace(r[|r| - 1])
    ensures forall i :: |r| <= i < |s| ==> IsJsWhitespace(s[i])
  {
    if |s| > 0 && IsJsWhitespace(s[|s| - 1]) then TrimEnd(s[..|s| - 1]) else s
  }
}
