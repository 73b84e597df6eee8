/**
 * Decimal numerals: how Rust's `{}` formats an integer, and how
 * `str::parse::<i32>` reads one back.
 */
module Decimal {
  import opened Base

  predicate IsDigit(c: char) {
    '0' <= c <= '9'
  }

  predicate AllDigits(s: string) {
    forall k | 0 <= k < |s| :: IsDigit(s[k])
  }

  function DigitChar(d: nat): (c: char)
    requires d < 10
    ensures IsDigit(c) && (c as int) - ('0' as int) == d
  {
    (('0' as int) + d) as char
  }

  /** The value of a string of ASCII digits, most significant first. */
  function DigitsValue(s: string): nat
    requires AllDigits(s)
  {
    if s == [] then 0
    else DigitsValue(s[..|s| - 1]) * 10 + ((s[|s| - 1] as int) - ('0' as int))
  }

  /** `{}` of a natural number: shortest decimal form, no leading zero. */
  function NatToString(n: nat): (s: string)
    ensures |s| > 0 && AllDigits(s)
    ensures s[0] == '0' ==> n == 0
    ensures DigitsValue(s) == n
  {
    if n < 10 then [DigitChar(n)]
    else
      var prefix := NatToString(n / 10);
      var s := prefix + [DigitChar(n % 10)];
      assert s[..|s| - 1] == prefix;
      s
  }

  /** `{}` of an integer: a minus sign before the magnitude when negative. */
  function IntToString(i: int): (s: string)
    ensures |s| > 0
    ensures i < 0 <==> s[0] == '-'
    ensures i < 0 ==> |s| > 1
    ensures AllDigits(if i < 0 then s[1..] else s)
    ensures (if i < 0 then s[1..] else s) == NatToString(if i < 0 then -i else i)
  {
    if i < 0 then "-" + NatToString(-i) else NatToString(i)
  }

  /**
   * `str::parse::<i32>`: an optional `+` or `-`, then at least one ASCII
   * digit, with a value that fits in 32 bits; `None` for every other string.
   */
  function ParseI32(s: string): (r: Option<int32>)
    ensures r.Some? ==> |s| > 0
  {
    var negative := |s| > 0 && s[0] == '-';
    var digits := if |s| > 0 && (s[0] == '-' || s[0] == '+') then s[1..] else s;
    if digits == [] || !AllDigits(digits) then None
    else
      var v: int := if negative then 0 - DigitsValue(digits) as int else DigitsValue(digits);
      if -0x8000_0000 <= v < 0x8000_0000 then Some(v) else None
  }

  /** Parsing the formatted form of any i32 gives that i32 back. */
  lemma ParseOfIntToString(i: int32)
    ensures ParseI32(IntToString(i)) == Some(i)
  {
    var s := IntToString(i);
    if i < 0 {
      assert s[1..] == NatToString(-(i as int));
    }
  }
}
