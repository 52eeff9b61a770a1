/**
 `uint256::to_decimal`: the hexadecimal text read back by decimal arithmetic.
 */
module Uint256Decimal {
  import opened Words
  import opened Uint256
  import opened Uint256Text
  import opened Radix
  import opened Bytes
  import Decimal
  import DecimalText

  /** On the printer's digits, which are lower-case, the two digit tables agree. */
  lemma {:induction false} HornerIsTextValue(s: string, base: nat)
    requires forall i :: 0 <= i < |s| ==> !('A' <= s[i] <= 'Z')
    ensures DecimalText.Horner(s, base) == TextValue(s, base)
    decreases |s|
  {
    if s != [] {
      HornerIsTextValue(s[..|s| - 1], base);
    }
  }

  lemma {:induction false} DigitsLowerCase(n: nat, base: nat)
    requires 2 <= base <= 36
    ensures forall i :: 0 <= i < |Digits(n, base)| ==> !('A' <= Digits(n, base)[i] <= 'Z')
    decreases n
  {
    if n < base {
      LowerCaseDigit(n);
    } else {
      ShrinkByDivision(n, base);
      DigitsLowerCase(n / base, base);
      LowerCaseDigit(n % base);
    }
  }

  lemma {:induction false} LowerCaseDigit(d: nat)
    requires d < 36
    ensures !('A' <= DigitChar(d) <= 'Z')
  {
  }

  method ToDecimal(x: U256, stale: seq<Byte>) returns (r: Decimal.Num)
    requires |stale| == 32
    ensures Decimal.Canonical(r) && Decimal.Value(r) == x.Value() as real
  {
    var text := ToText(x, 16, 0, stale);
    UnpaddedText(x.Value(), 16);
    r := DecimalText.FromText(text, 16);
    DigitsLowerCase(x.Value(), 16);
    HornerIsTextValue(text, 16);
    DigitsValue(x.Value(), 16);
  }
}
