/** Decimal text of integers: Rust's `Display` for integers and `str::parse`
    for the fixed-width integer types the bot uses. */
module Decimal {
  import opened Wrappers
  import opened Strings

  const U8_MAX: nat := 255
  const I32_MIN: int := -0x8000_0000
  const I32_MAX: int := 0x7FFF_FFFF
  const I64_MIN: int := -0x8000_0000_0000_0000
  const I64_MAX: int := 0x7FFF_FFFF_FFFF_FFFF
  const U64_MAX: nat := 0xFFFF_FFFF_FFFF_FFFF
  /** `usize` on the 64-bit targets the bot is deployed to. */
  const USIZE_MAX: nat := U64_MAX

  predicate AllDigits(s: string) { forall i :: 0 <= i < |s| ==> IsAsciiDigit(s[i]) }

  function DigitChar(d: nat): (c: char)
    requires d < 10
    ensures IsAsciiDigit(c)
  {
    ('0' as int + d) as char
  }

  function DigitValue(c: char): nat
    requires IsAsciiDigit(c)
  {
    c as int - '0' as int
  }

  /** The value of a string of decimal digits, most significant first. */
  function DigitsValue(s: string): nat
    requires AllDigits(s)
    decreases |s|
  {
    if |s| == 0 then 0 else DigitsValue(s[..|s| - 1]) * 10 + DigitValue(s[|s| - 1])
  }

  /** The decimal text of `n`: digits only, no leading zero, and it denotes `n`. */
  function NatToString(n: nat): (s: string)
    ensures |s| >= 1 && AllDigits(s)
    ensures |s| > 1 ==> s[0] != '0'
    ensures DigitsValue(s) == n
  {
    if n < 10 then [DigitChar(n)]
    else
      var prefix := NatToString(n / 10);
      var s := prefix + [DigitChar(n % 10)];
      assert s[..|s| - 1] == prefix;
      s
  }

  /** The decimal text of `i`, with a leading `-` when negative. */
  function IntToString(i: int): (s: string)
    ensures |s| >= 1
    ensures i < 0 ==> s[0] == '-' && s[1..] == NatToString(-i)
    ensures i >= 0 ==> s == NatToString(i)
  {
    if i < 0 then "-" + NatToString(-i) else NatToString(i)
  }

  /** Rust `str::parse` for an unsigned type whose largest value is `max`:
      an optional `+`, then at least one ASCII digit and nothing else. */
  function ParseUnsigned(s: string, max: nat): (r: Option<nat>)
    ensures r.Some? ==> r.value <= max
    ensures r.Some? ==> |s| > 0 && (IsAsciiDigit(s[0]) || s[0] == '+')
  {
    var digits := if |s| > 0 && s[0] == '+' then s[1..] else s;
    if |digits| == 0 || !AllDigits(digits) || DigitsValue(digits) > max then None
    else Some(DigitsValue(digits))
  }

  /** Rust `str::parse` for a signed type with range `[min, max]`: an optional
      `+` or `-`, then at least one ASCII digit and nothing else. */
  function ParseSigned(s: string, min: int, max: int): (r: Option<int>)
    ensures r.Some? ==> min <= r.value <= max
    ensures r.Some? ==> |s| > 0 && (IsAsciiDigit(s[0]) || s[0] == '+' || s[0] == '-')
  {
    var negative := |s| > 0 && s[0] == '-';
    var digits := if |s| > 0 && (s[0] == '+' || s[0] == '-') then s[1..] else s;
    if |digits| == 0 || !AllDigits(digits) then None
    else
      var magnitude: int := DigitsValue(digits);
      var v := if negative then 0 - magnitude else magnitude;
      if v < min || v > max then None else Some(v)
  }

  lemma ParseUnsignedRoundTrip(n: nat, max: nat)
    requires n <= max
    ensures ParseUnsigned(NatToString(n), max) == Some(n)
  {
  }

  lemma ParseSignedRoundTrip(i: int, min: int, max: int)
    requires min <= i <= max
    ensures ParseSigned(IntToString(i), min, max) == Some(i)
  {
  }

  /** The decimal text of a number never starts with a sign, and its first
      character is a digit. */
  lemma NatToStringStartsWithDigit(n: nat)
    ensures IsAsciiDigit(NatToString(n)[0])
  {
  }

  /** Distinct numbers print differently. */
  lemma NatToStringInjective(a: nat, b: nat)
    requires NatToString(a) == NatToString(b)
    ensures a == b
  {
  }
}
