/** Decimal and hexadecimal numerals as JavaScript's `Number.prototype.toString`
    writes them for integers, and their values. */
module Numerals {

  predicate IsDigit(c: char) {
    '0' <= c <= '9'
  }

  predicate AllDigits(s: string) {
    forall i :: 0 <= i < |s| ==> IsDigit(s[i])
  }

  function DigitChar(d: nat): (c: char)
    requires d < 10
    ensures IsDigit(c) && (c as int) - ('0' as int) == d
  {
    (('0' as int) + d) as char
  }

  /** `n.toString()` for a non-negative integer: no leading zeros. */
  function NatToDecimal(n: nat): (r: string)
    ensures |r| >= 1 && AllDigits(r)
    ensures r[0] == '0' ==> n == 0
    decreases n
  {
    if n < 10 then [DigitChar(n)] else NatToDecimal(n / 10) + [DigitChar(n % 10)]
  }

  /** `n.toString()` for any integer. */
  function IntToDecimal(n: int): (r: string)
    ensures |r| >= 1
    ensures n >= 0 ==> AllDigits(r)
    ensures n < 0 ==> r[0] == '-' && AllDigits(r[1..])
  {
    if n < 0 then "-" + NatToDecimal(-n) else NatToDecimal(n)
  }

  /** The value of a string of decimal digits (leading zeros allowed). */
  function DecimalValue(s: string): nat
    requires AllDigits(s)
  {
    if s == [] then 0
    else DecimalValue(s[..|s| - 1]) * 10 + ((s[|s| - 1] as int) - ('0' as int))
  }

  lemma {:induction false} DecimalValueOfNatToDecimal(n: nat)
    ensures DecimalValue(NatToDecimal(n)) == n
    decreases n
  {
    if n >= 10 {
      var s := NatToDecimal(n);
      assert s[..|s| - 1] == NatToDecimal(n / 10);
      DecimalValueOfNatToDecimal(n / 10);
    }
  }

  /** A lowercase hexadecimal digit. */
  function HexChar(d: nat): (c: char)
    requires d < 16
  {
    if d < 10 then DigitChar(d) else (('a' as int) + d - 10) as char
  }

  predicate IsHexChar(c: char) {
    IsDigit(c) || 'a' <= c <= 'f'
  }

  function HexCharValue(c: char): (d: nat)
    requires IsHexChar(c)
    ensures d < 16
  {
    if IsDigit(c) then (c as int) - ('0' as int) else (c as int) - ('a' as int) + 10
  }

  /** `n.toString(16)` for a non-negative integer. */
  function NatToHex(n: nat): (r: string)
    ensures |r| >= 1 && forall i :: 0 <= i < |r| ==> IsHexChar(r[i])
    ensures |r| == 1 <==> n < 16
    decreases n
  {
    if n < 16 then [HexChar(n)] else NatToHex(n / 16) + [HexChar(n % 16)]
  }

  /** `n.toString(16)` for any integer: negative numbers get a minus sign. */
  function IntToHex(n: int): (r: string)
    ensures |r| >= 1
  {
    if n < 0 then "-" + NatToHex(-n) else NatToHex(n)
  }

  function HexValue(s: string): nat
    requires forall i :: 0 <= i < |s| ==> IsHexChar(s[i])
  {
    if s == [] then 0 else HexValue(s[..|s| - 1]) * 16 + HexCharValue(s[|s| - 1])
  }

  lemma {:induction false} HexValueOfNatToHex(n: nat)
    ensures HexValue(NatToHex(n)) == n
    decreases n
  {
    if n < 16 {
      assert NatToHex(n)[..0] == [];
    } else {
      var s := NatToHex(n);
      assert s[..|s| - 1] == NatToHex(n / 16);
      HexValueOfNatToHex(n / 16);
    }
  }
}
