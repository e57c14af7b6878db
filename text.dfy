/** Character classes and the number texts that the engine reads and writes:
    `char.IsLetter`, `char.IsDigit`, `int.TryParse`, `int.ToString` and the
    `Convert.ToDouble` of a formula token. Characters are ASCII here. */
module Text {
  import opened Wrappers

  /** The numbers the engine computes with: an idealised finite
      double, or a non-finite one (an infinity or NaN). */
  datatype Num = Finite(r: real) | NonFinite

  predicate IsLetter(c: char) {
    'A' <= c <= 'Z' || 'a' <= c <= 'z'
  }

  predicate IsDigit(c: char) {
    '0' <= c <= '9'
  }

  /** A character that belongs to an operand token of a formula. */
  predicate IsDigitLetter(c: char) {
    IsLetter(c) || IsDigit(c)
  }

  /** A nonempty run of letters and digits: what an operand token holds. */
  predicate IsWord(w: string) {
    w != [] && forall k :: 0 <= k < |w| ==> IsDigitLetter(w[k])
  }

  /** The characters `int.TryParse` skips before and after the number. */
  predicate IsWhite(c: char) {
    c == ' ' || '\t' <= c <= '\r'
  }

  predicate AllDigits(s: string) {
    forall k :: 0 <= k < |s| ==> IsDigit(s[k])
  }

  function DigitValue(c: char): (d: nat)
    requires IsDigit(c)
    ensures d < 10
  {
    (c as int) - ('0' as int)
  }

  function DigitChar(d: nat): (c: char)
    requires d < 10
    ensures IsDigit(c) && DigitValue(c) == d
  {
    (('0' as int) + d) as char
  }

  /** The value of a string of decimal digits, most significant first. */
  function DigitsValue(s: string): nat
    requires AllDigits(s)
  {
    if s == [] then 0 else DigitsValue(s[..|s| - 1]) * 10 + DigitValue(s[|s| - 1])
  }

  /** `n.ToString()` for a non-negative `int`. */
  function NatToString(n: nat): (s: string)
    ensures |s| > 0 && AllDigits(s)
  {
    if n < 10 then [DigitChar(n)] else NatToString(n / 10) + [DigitChar(n % 10)]
  }

  lemma {:induction false} DigitsOfNatToString(n: nat)
    ensures DigitsValue(NatToString(n)) == n
  {
    var s := NatToString(n);
    if n >= 10 {
      DigitsOfNatToString(n / 10);
      assert s[..|s| - 1] == NatToString(n / 10);
    }
  }

  /** The position of the first character at or after `k` that is not
      white space. */
  function SkipWhite(s: string, k: nat): (j: nat)
    requires k <= |s|
    ensures k <= j <= |s| && (j < |s| ==> !IsWhite(s[j]))
    ensures forall m :: k <= m < j ==> IsWhite(s[m])
    decreases |s| - k
  {
    if k < |s| && IsWhite(s[k]) then SkipWhite(s, k + 1) else k
  }

  /** The end of `s[a..e]` once the white space at its end is dropped. */
  function SkipWhiteBack(s: string, a: nat, e: nat): (j: nat)
    requires a <= e <= |s|
    ensures a <= j <= e && (j > a ==> !IsWhite(s[j - 1]))
    ensures forall m :: j <= m < e ==> IsWhite(s[m])
  {
    if a < e && IsWhite(s[e - 1]) then SkipWhiteBack(s, a, e - 1) else e
  }

  /** `s.Trim()`: white space dropped at both ends. */
  function Trim(s: string): (t: string)
    ensures t != [] ==> !IsWhite(t[0]) && !IsWhite(t[|t| - 1])
  {
    var a := SkipWhite(s, 0);
    s[a..SkipWhiteBack(s, a, |s|)]
  }

  const Int32Min: int := -0x8000_0000
  const Int32Max: int := 0x7FFF_FFFF

  /** `int.TryParse(s, out n)` with the default integer style: optional white
      space around an optional sign and one or more decimal digits, in the
      range of a 32-bit signed integer. */
  function ParseInt32(s: string): (r: Option<int>)
    ensures r.Some? ==> Int32Min <= r.value <= Int32Max
  {
    var t := Trim(s);
    var negative := t != [] && t[0] == '-';
    var digits := if t != [] && (t[0] == '-' || t[0] == '+') then t[1..] else t;
    if digits != [] && AllDigits(digits) then
      var v: int := if negative then 0 - DigitsValue(digits) else DigitsValue(digits);
      if Int32Min <= v <= Int32Max then Some(v) else None
    else None
  }

  lemma AllDigitsNotWhite(s: string)
    requires AllDigits(s)
    ensures s != [] ==> !IsWhite(s[0]) && !IsWhite(s[|s| - 1])
  {
  }

  /** Writing a 32-bit non-negative integer and parsing it back gives it back. */
  lemma ParseNatToString(n: nat)
    requires n <= Int32Max
    ensures ParseInt32(NatToString(n)) == Some(n)
  {
    var s := NatToString(n);
    AllDigitsNotWhite(s);
    assert Trim(s) == s[0..|s|] == s;
    DigitsOfNatToString(n);
  }

  /** Ten to the power `e`. */
  function Pow10(e: nat): (p: real)
    ensures p >= 1.0
  {
    if e == 0 then 1.0 else 10.0 * Pow10(e - 1)
  }

  /** The position of the first letter of `s`, or `|s|` when there is none. */
  function FirstLetter(s: string): (k: nat)
    ensures k <= |s|
    ensures forall j :: 0 <= j < k ==> !IsLetter(s[j])
    ensures k < |s| ==> IsLetter(s[k])
  {
    if s == [] then 0 else if IsLetter(s[0]) then 0 else 1 + FirstLetter(s[1..])
  }

  /** `Convert.ToDouble(token)` for a token made of letters and digits that
      starts with a digit: it succeeds on digits alone, and on digits, an `e`
      or `E` and more digits (an exponent); any other letter makes it throw. */
  function ParseNumeral(token: string): (r: Option<Num>)
    requires token != [] && IsDigit(token[0])
    requires forall k :: 0 <= k < |token| ==> IsDigitLetter(token[k])
    ensures AllDigits(token) ==> r == Some(Finite(DigitsValue(token) as real))
    ensures r.Some? ==> r.value.Finite?
  {
    var k := FirstLetter(token);
    assert forall j :: 0 <= j < k ==> IsDigit(token[j]) by {
      forall j | 0 <= j < k ensures IsDigit(token[j]) { assert IsDigitLetter(token[j]); }
    }
    if k == |token| then
      assert AllDigits(token);
      Some(Finite(DigitsValue(token) as real))
    else
      var mantissa, exponent := token[..k], token[k + 1..];
      if (token[k] == 'e' || token[k] == 'E') && exponent != [] && AllDigits(exponent) then
        assert forall j :: 0 <= j < |mantissa| ==> mantissa[j] == token[j];
        Some(Finite(DigitsValue(mantissa) as real * Pow10(DigitsValue(exponent))))
      else
        assert !AllDigits(token) by { assert !IsDigit(token[k]); }
        None
  }
}
