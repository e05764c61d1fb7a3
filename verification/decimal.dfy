/** Decimal integers: how `operator<<` writes an `int` and how `std::stoi`
    reads the digit string an `Integer` token matched. */
module Decimal {
  import opened Grammar

  function DigitChar(d: nat): (c: char)
    requires d < 10
    ensures IsDigit(c)
  {
    "0123456789"[d]
  }

  function DigitValue(c: char): (d: nat)
    requires IsDigit(c)
    ensures d < 10
  {
    (c as int - '0' as int)
  }

  /** Decimal digits of `n`, most significant first, without leading zeros. */
  function NatToString(n: nat): (s: string)
    ensures IsIntegerToken(s)
    ensures s[0] == '0' ==> n == 0
  {
    if n < 10 then [DigitChar(n)] else NatToString(n / 10) + [DigitChar(n % 10)]
  }

  /** How the stream operator writes a (signed) `int`: a minus sign for a
      negative value, then the digits of its magnitude. */
  function IntToString(i: int): (r: string)
    ensures i >= 0 ==> IsIntegerToken(r)
    ensures i < 0 ==> |r| > 1 && r[0] == '-' && IsIntegerToken(r[1..])
    ensures forall k :: 0 <= k < |r| ==> r[k] == '-' || IsDigit(r[k])
  {
    if i < 0 then "-" + NatToString(-i) else NatToString(i)
  }

  /** `std::stoi` on a digit string (no sign, no overflow): leading zeros
      are allowed, and the value is zero exactly when every digit is. */
  function DecimalValue(s: string): (r: nat)
    requires IsIntegerToken(s)
    ensures r == 0 <==> forall i :: 0 <= i < |s| ==> s[i] == '0'
  {
    if |s| == 1 then DigitValue(s[0])
    else DecimalValue(s[..|s| - 1]) * 10 + DigitValue(s[|s| - 1])
  }

  lemma DigitRoundTrip(d: nat)
    requires d < 10
    ensures DigitValue(DigitChar(d)) == d
  {
  }

  /** Reading back what the stream operator wrote gives the same number. */
  lemma {:induction false} DecimalRoundTrip(n: nat)
    ensures DecimalValue(NatToString(n)) == n
  {
    DigitRoundTrip(n % 10);
    if n >= 10 {
      var s := NatToString(n);
      assert s[..|s| - 1] == NatToString(n / 10);
      DecimalRoundTrip(n / 10);
    }
  }
}
