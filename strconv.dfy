// Go's decimal conversions as the core uses them: fmt's %d of an integer,
// strconv.Atoi (signed 64-bit) and strconv.ParseUint(s, 10, 64).
module Strconv {
  import opened Wrappers

  const INT64_MIN: int := -0x8000_0000_0000_0000
  const INT64_MAX: int := 0x7fff_ffff_ffff_ffff
  const UINT64_MAX: int := 0xffff_ffff_ffff_ffff

  predicate IsDigit(c: char) { '0' <= c <= '9' }

  predicate AllDigits(s: string) { forall i :: 0 <= i < |s| ==> IsDigit(s[i]) }

  function DigitChar(d: nat): char
    requires d < 10
  {
    ('0' as int + d) as char
  }

  function DigitValue(c: char): nat
    requires IsDigit(c)
  {
    (c as int - '0' as int) as nat
  }

  /** The value of a string of decimal digits, most significant first. */
  function DigitsValue(s: string): nat
    requires AllDigits(s)
  {
    if |s| == 0 then 0 else DigitsValue(s[..|s| - 1]) * 10 + DigitValue(s[|s| - 1])
  }

  /** fmt's %d of a non-negative integer: no leading zeros, at least one digit. */
  function NatToString(n: nat): (s: string)
    ensures |s| >= 1 && AllDigits(s)
    ensures |s| > 1 ==> s[0] != '0'
  {
    if n < 10 then [DigitChar(n)] else NatToString(n / 10) + [DigitChar(n % 10)]
  }

  /** fmt's %d of any integer: a minus sign before the magnitude of a negative one. */
  function IntToString(i: int): (s: string)
    ensures |s| >= 1
    ensures (s[0] == '-') <==> i < 0
  {
    if i < 0 then "-" + NatToString(-i) else NatToString(i)
  }

  lemma {:induction false} DigitsOfNat(n: nat)
    ensures DigitsValue(NatToString(n)) == n
  {
    if n >= 10 {
      DigitsOfNat(n / 10);
      var s := NatToString(n);
      assert s[..|s| - 1] == NatToString(n / 10);
    }
  }

  /** strconv.ParseUint(s, 10, 64): one or more decimal digits, at most 2^64 - 1. */
  function ParseUint(s: string): (r: Result<nat>)
    ensures r.Ok? <==> |s| > 0 && AllDigits(s) && DigitsValue(s) <= UINT64_MAX
    ensures r.Ok? ==> r.value == DigitsValue(s)
  {
    if |s| == 0 || !AllDigits(s) then Err("invalid syntax")
    else if DigitsValue(s) > UINT64_MAX then Err("value out of range")
    else Ok(DigitsValue(s))
  }

  /** strconv.Atoi: an optional sign, one or more decimal digits, a signed 64-bit value. */
  function Atoi(s: string): (r: Result<int>)
    ensures r.Ok? ==> INT64_MIN <= r.value <= INT64_MAX
    ensures |s| == 0 || (!AllDigits(s) && !AllDigits(s[1..])) ==> r == Err("invalid syntax")
    ensures |s| > 0 && AllDigits(s) ==> r == (if DigitsValue(s) <= INT64_MAX then Ok(DigitsValue(s)) else Err("value out of range"))
    ensures |s| > 1 && s[0] == '-' && AllDigits(s[1..]) ==>
      r == (if DigitsValue(s[1..]) <= INT64_MAX + 1 then Ok(0 - DigitsValue(s[1..])) else Err("value out of range"))
  {
    var neg := |s| > 0 && s[0] == '-';
    var digits := if |s| > 0 && (s[0] == '-' || s[0] == '+') then s[1..] else s;
    if |digits| == 0 || !AllDigits(digits) then Err("invalid syntax")
    else
      var v: int := if neg then 0 - (DigitsValue(digits) as int) else DigitsValue(digits);
      if v < INT64_MIN || v > INT64_MAX then Err("value out of range") else Ok(v)
  }

  /** Every uint64 printed in decimal parses back to itself. */
  lemma ParseUintRoundTrip(n: nat)
    requires n <= UINT64_MAX
    ensures ParseUint(NatToString(n)) == Ok(n)
  {
    DigitsOfNat(n);
  }

  /** Every int64 printed in decimal parses back to itself with Atoi. */
  lemma AtoiRoundTrip(i: int)
    requires INT64_MIN <= i <= INT64_MAX
    ensures Atoi(IntToString(i)) == Ok(i)
  {
    var s := IntToString(i);
    if i < 0 {
      DigitsOfNat(-i);
      assert s[1..] == NatToString(-i);
    } else {
      DigitsOfNat(i);
    }
  }

  /** Anything Atoi accepts lies in the signed 64-bit range and has only a sign and digits. */
  lemma AtoiAccepts(s: string)
    requires Atoi(s).Ok?
    ensures INT64_MIN <= Atoi(s).value <= INT64_MAX
    ensures |s| > 0 && (IsDigit(s[0]) || s[0] == '-' || s[0] == '+')
    ensures forall i :: 1 <= i < |s| ==> IsDigit(s[i])
  {
    var digits := if |s| > 0 && (s[0] == '-' || s[0] == '+') then s[1..] else s;
    assert forall i :: 1 <= i < |s| ==> s[i] == if digits == s then digits[i] else digits[i - 1];
  }
}
