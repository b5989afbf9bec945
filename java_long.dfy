/** Java's 64-bit `long` and `Long.parseLong(s)` in radix 10, which reads
    the `version` attribute. `Long.toString(n)` is modelled too, as the
    reference inverse against which the parser's round trip is proved. */
module JavaLong {
  import opened Wrappers

  const MinLong: int := -0x8000_0000_0000_0000
  const MaxLong: int := 0x7FFF_FFFF_FFFF_FFFF

  /** A value of Java type `long`. */
  type Int64 = x: int | MinLong <= x <= MaxLong

  /** The NumberFormatException `Long.parseLong` throws, naming its input. */
  datatype NumberFormatError = NumberFormatError(input: string)

  predicate IsDigit(c: char) {
    '0' <= c <= '9'
  }

  predicate AllDigits(s: string) {
    forall i :: 0 <= i < |s| ==> IsDigit(s[i])
  }

  predicate IsSign(c: char) {
    c == '-' || c == '+'
  }

  function DigitValue(c: char): (d: nat)
    requires IsDigit(c)
    ensures d < 10
  {
    c as int - '0' as int
  }

  function DigitChar(d: nat): (c: char)
    requires d < 10
    ensures IsDigit(c) && DigitValue(c) == d
  {
    ('0' as int + d) as char
  }

  /** The number written by a string of decimal digits, most significant first. */
  function DigitsValue(s: string): nat
    requires AllDigits(s)
  {
    if s == [] then 0 else DigitsValue(s[..|s| - 1]) * 10 + DigitValue(s[|s| - 1])
  }

  /** What follows an optional leading '+' or '-'. */
  function Magnitude(s: string): string {
    if |s| > 0 && IsSign(s[0]) then s[1..] else s
  }

  predicate IsNegative(s: string) {
    |s| > 0 && s[0] == '-'
  }

  /** `Long.parseLong(s)`: an optional sign, then at least one digit, and the
      signed value must lie in the range of `long`; anything else throws. The
      overflow checks Java makes digit by digit reject exactly the values
      outside [MinLong, MaxLong], so the range is checked once at the end. */
  function ParseLong(s: string): (r: Result<Int64, NumberFormatError>)
    ensures r.Failure? ==> r.error == NumberFormatError(s)
    ensures r.Success? ==> |s| > 0 && (IsSign(s[0]) || IsDigit(s[0])) && AllDigits(s[1..])
    ensures r.Success? && r.value < 0 ==> s[0] == '-'
  {
    var digits := Magnitude(s);
    if digits == [] || !AllDigits(digits) then
      Failure(NumberFormatError(s))
    else
      var v: int := if IsNegative(s) then -(DigitsValue(digits) as int) else DigitsValue(digits);
      if MinLong <= v <= MaxLong then Success(v) else Failure(NumberFormatError(s))
  }

  /** The decimal digits of `n` without leading zeros (`"0"` for zero). */
  function NaturalDigits(n: nat): (s: string)
    ensures |s| > 0 && AllDigits(s)
    ensures s[0] == '0' <==> n == 0
  {
    if n < 10 then [DigitChar(n)] else NaturalDigits(n / 10) + [DigitChar(n % 10)]
  }

  /** `Long.toString(n)`: a '-' for negative values, then the digits. */
  function FormatLong(n: Int64): (s: string)
    ensures |s| > 0 && (s[0] == '-' <==> n < 0)
    ensures n >= 0 ==> AllDigits(s)
    ensures |Magnitude(s)| > 0 && AllDigits(Magnitude(s)) && (Magnitude(s)[0] == '0' ==> s == "0")
  {
    if n < 0 then "-" + NaturalDigits(-(n as int)) else NaturalDigits(n)
  }

  lemma {:induction false} NaturalDigitsValue(n: nat)
    ensures DigitsValue(NaturalDigits(n)) == n
  {
    if n >= 10 {
      var s := NaturalDigits(n);
      assert s[..|s| - 1] == NaturalDigits(n / 10);
      NaturalDigitsValue(n / 10);
    }
  }

  /** Every `long` survives `Long.toString` followed by `Long.parseLong`,
      including MinLong, whose magnitude is not itself a `long`. */
  lemma ParseFormatRoundTrip(n: Int64)
    ensures ParseLong(FormatLong(n)) == Success(n)
  {
    var m: nat := if n < 0 then -(n as int) else n;
    NaturalDigitsValue(m);
    assert Magnitude(FormatLong(n)) == NaturalDigits(m);
  }

  /** A leading zero does not change the value read. */
  lemma {:induction false} LeadingZeroValue(d: string)
    requires AllDigits(d)
    ensures AllDigits("0" + d) && DigitsValue("0" + d) == DigitsValue(d)
  {
    if d != [] {
      var z := "0" + d;
      assert z[..|z| - 1] == "0" + d[..|d| - 1];
      LeadingZeroValue(d[..|d| - 1]);
    }
  }

  /** A leading zero before a digit string changes neither whether it
      parses nor the value, so text such as "007" is accepted. */
  lemma ParseLeadingZero(d: string)
    requires d != [] && AllDigits(d)
    ensures ParseLong("0" + d).Success? <==> ParseLong(d).Success?
    ensures ParseLong("0" + d).Success? ==> ParseLong("0" + d).value == ParseLong(d).value
  {
    LeadingZeroValue(d);
  }

  /** An unsigned string of digits is read as its value when that fits. */
  lemma ParseUnsignedDigits(d: string)
    requires d != [] && AllDigits(d)
    ensures ParseLong(d).Success? <==> DigitsValue(d) <= MaxLong
    ensures ParseLong(d).Success? ==> ParseLong(d).value == DigitsValue(d)
  {
  }

  /** A leading '+' changes nothing but the text of the error. */
  lemma ParsePlusDigits(d: string)
    requires d != [] && AllDigits(d)
    ensures ParseLong("+" + d).Success? <==> ParseLong(d).Success?
    ensures ParseLong("+" + d).Success? ==> ParseLong("+" + d).value == ParseLong(d).value
  {
  }

  /** A leading '-' negates, and the range of accepted magnitudes is one
      larger than for non-negative numbers. */
  lemma ParseMinusDigits(d: string)
    requires d != [] && AllDigits(d)
    ensures ParseLong("-" + d).Success? <==> DigitsValue(d) <= -MinLong
    ensures ParseLong("-" + d).Success? ==> ParseLong("-" + d).value == -(DigitsValue(d) as int)
  {
  }

  /** The empty string, a lone sign, and any string holding a character that
      is neither a digit nor a leading sign are rejected. */
  lemma ParseRejectsMalformed(s: string)
    requires s == [] || s == "+" || s == "-" || exists i :: 0 <= i < |s| && !IsDigit(s[i]) && !(i == 0 && IsSign(s[i]))
    ensures ParseLong(s) == Failure(NumberFormatError(s))
  {
  }
}
