/**
  Decimal text for integers: `std::to_string` for the unsigned and signed
  integers the kernel prints, and `std::stoi` for the coordinates it parses.
*/
module Numerals {
  import opened Outcomes

  /** The two exceptions `std::stoi` throws. */
  datatype NumberError = InvalidArgument | OutOfRange

  const INT_MIN: int := -0x8000_0000
  const INT_MAX: int := 0x7FFF_FFFF

  predicate IsDigit(c: char)
  {
    '0' <= c <= '9'
  }

  /** The characters `isspace` accepts in the "C" locale. */
  predicate IsSpace(c: char)
  {
    c == ' ' || c == '\t' || c == '\n' || c == '\U{000B}' || c == '\U{000C}' || c == '\r'
  }

  function DigitChar(d: nat): (c: char)
    requires d < 10
    ensures IsDigit(c)
  {
    ['0', '1', '2', '3', '4', '5', '6', '7', '8', '9'][d]
  }

  function DigitValue(c: char): (d: nat)
    requires IsDigit(c)
    ensures d < 10
  {
    (c as int - '0' as int) as nat
  }

  /** `std::to_string` of an unsigned value: its decimal digits, most significant first. */
  function DecimalString(n: nat): (s: string)
    ensures |s| > 0
    ensures forall k | 0 <= k < |s| :: IsDigit(s[k])
    ensures n >= 10 ==> s[0] != '0'
  {
    if n < 10 then [DigitChar(n)] else DecimalString(n / 10) + [DigitChar(n % 10)]
  }

  /** `std::to_string` of a signed value: a minus sign before the magnitude's digits. */
  function IntString(v: int): (s: string)
    ensures |s| > 0
    ensures forall k | 0 <= k < |s| :: IsDigit(s[k]) || (k == 0 && s[k] == '-')
  {
    if v < 0 then "-" + DecimalString(-v) else DecimalString(v)
  }

  /** The value of a run of decimal digits, read left to right. */
  function DigitsValue(d: string): nat
    requires forall k | 0 <= k < |d| :: IsDigit(d[k])
  {
    if |d| == 0 then 0 else DigitsValue(d[..|d| - 1]) * 10 + DigitValue(d[|d| - 1])
  }

  /** The longest prefix of `s` made of decimal digits. */
  function DigitPrefix(s: string): (d: string)
    ensures |d| <= |s| && d == s[..|d|]
    ensures forall k | 0 <= k < |d| :: IsDigit(d[k])
    ensures |d| < |s| ==> !IsDigit(s[|d|])
  {
    if |s| == 0 || !IsDigit(s[0]) then "" else [s[0]] + DigitPrefix(s[1..])
  }

  /** `s` without its leading white space. */
  function SkipSpace(s: string): (t: string)
    ensures |t| <= |s| && t == s[|s| - |t|..]
    ensures |t| > 0 ==> !IsSpace(t[0])
  {
    if |s| > 0 && IsSpace(s[0]) then SkipSpace(s[1..]) else s
  }

  /**
    `std::stoi(s)` in base 10: leading white space is skipped, one optional
    sign is read, then the longest run of digits; text after the digits is
    ignored. No digits throw `invalid_argument`; a value outside `int`
    throws `out_of_range`.
  */
  function Stoi(s: string): (r: Result<int, NumberError>)
    ensures r.Ok? ==> INT_MIN <= r.value <= INT_MAX
  {
    var t := SkipSpace(s);
    var negative := |t| > 0 && t[0] == '-';
    var unsigned := if |t| > 0 && (t[0] == '-' || t[0] == '+') then t[1..] else t;
    var digits := DigitPrefix(unsigned);
    if |digits| == 0 then Err(InvalidArgument)
    else
      var v: int := if negative then 0 - DigitsValue(digits) else DigitsValue(digits);
      if v < INT_MIN || v > INT_MAX then Err(OutOfRange) else Ok(v)
  }

  lemma {:induction false} DigitsValueOfDecimal(n: nat)
    ensures DigitsValue(DecimalString(n)) == n
  {
    if n >= 10 {
      var s := DecimalString(n);
      assert s[..|s| - 1] == DecimalString(n / 10);
      DigitsValueOfDecimal(n / 10);
      assert DigitValue(DigitChar(n % 10)) == n % 10;
    } else {
      assert DigitValue(DigitChar(n)) == n;
    }
  }

  lemma {:induction false} DigitPrefixOfDigits(d: string)
    requires forall k | 0 <= k < |d| :: IsDigit(d[k])
    ensures DigitPrefix(d) == d
  {
    if |d| > 0 {
      DigitPrefixOfDigits(d[1..]);
      assert d == [d[0]] + d[1..];
    }
  }

  /** `to_string` is injective on unsigned values: parsing the digits recovers the value. */
  lemma DecimalStringInjective(a: nat, b: nat)
    ensures DecimalString(a) == DecimalString(b) <==> a == b
  {
    DigitsValueOfDecimal(a);
    DigitsValueOfDecimal(b);
  }

  /** `std::stoi(std::to_string(v)) == v` for every `int` value. */
  lemma StoiIntString(v: int)
    requires INT_MIN <= v <= INT_MAX
    ensures Stoi(IntString(v)) == Ok(v)
  {
    var s := IntString(v);
    assert !IsSpace(s[0]);
    assert SkipSpace(s) == s;
    if v < 0 {
      assert s[1..] == DecimalString(-v);
      DigitPrefixOfDigits(DecimalString(-v));
      DigitsValueOfDecimal(-v);
    } else {
      DigitPrefixOfDigits(s);
      DigitsValueOfDecimal(v);
    }
  }

  /** Text with no digit, after white space and an optional sign, is rejected. */
  lemma StoiRejectsNonNumeric(s: string)
    requires |s| == 0 || (!IsDigit(s[0]) && !IsSpace(s[0]) && s[0] != '-' && s[0] != '+')
    ensures Stoi(s) == Err(InvalidArgument)
  {
    if |s| > 0 {
      assert SkipSpace(s) == s;
    }
  }

  /** A magnitude beyond `int` is rejected. */
  lemma StoiRejectsOverflow(n: nat)
    requires n > INT_MAX
    ensures Stoi(DecimalString(n)) == Err(OutOfRange)
  {
    var t := DecimalString(n);
    assert !IsSpace(t[0]);
    assert SkipSpace(t) == t;
    DigitPrefixOfDigits(t);
    DigitsValueOfDecimal(n);
  }
}
