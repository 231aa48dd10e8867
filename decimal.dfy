/**
 * Decimal rendering of integers, as C# string interpolation renders an
 * `int` (`$"{iat}"`): a leading `-` for negative values, then the digits of
 * the magnitude, most significant first, with no leading zeros. The parser
 * is the inverse used to state that the rendering loses nothing.
 */
module Decimal {
  import opened Wrappers

  predicate IsDigit(ch: char) {
    '0' <= ch <= '9'
  }

  function DigitChar(d: nat): (ch: char)
    requires d < 10
    ensures IsDigit(ch)
  {
    (48 + d) as char
  }

  function DigitValue(ch: char): (d: nat)
    requires IsDigit(ch)
    ensures d < 10 && DigitChar(d) == ch
  {
    ch as int - 48
  }

  /** The digits of `n`: at least one, all decimal digits, no leading zero unless `n` is 0. */
  function NatToDecimal(n: nat): (s: string)
    ensures |s| > 0
    ensures forall i :: 0 <= i < |s| ==> IsDigit(s[i])
    ensures |s| > 1 ==> s[0] != '0'
  {
    if n < 10 then [DigitChar(n)] else NatToDecimal(n / 10) + [DigitChar(n % 10)]
  }

  /** `i.ToString()`: a minus sign for negative values, then the magnitude's digits. */
  function IntToDecimal(i: int): (s: string)
    ensures |s| > 0
    ensures forall k :: 0 <= k < |s| ==> IsDigit(s[k]) || (k == 0 && s[k] == '-')
  {
    if i < 0 then "-" + NatToDecimal(-i) else NatToDecimal(i)
  }

  predicate AllDigits(s: string) {
    forall i :: 0 <= i < |s| ==> IsDigit(s[i])
  }

  /** The number a string of digits denotes. */
  function DigitsValue(s: string): nat
    requires AllDigits(s)
  {
    if s == [] then 0 else DigitsValue(s[..|s| - 1]) * 10 + DigitValue(s[|s| - 1])
  }

  /** Reads back what `IntToDecimal` writes; `None` for anything else of the wrong shape. */
  function ParseDecimal(s: string): Option<int> {
    if |s| > 0 && s[0] == '-' then
      if |s| > 1 && AllDigits(s[1..]) then Some(0 - DigitsValue(s[1..]) as int) else None
    else if |s| > 0 && AllDigits(s) then Some(DigitsValue(s))
    else None
  }

  lemma {:induction false} DigitsValueOfNatToDecimal(n: nat)
    ensures DigitsValue(NatToDecimal(n)) == n
  {
    if n >= 10 {
      var s := NatToDecimal(n);
      assert s[..|s| - 1] == NatToDecimal(n / 10);
      DigitsValueOfNatToDecimal(n / 10);
    }
  }

  /** Rendering then parsing gives the number back. */
  lemma DecimalRoundTrip(i: int)
    ensures ParseDecimal(IntToDecimal(i)) == Some(i)
  {
    if i < 0 {
      var s := IntToDecimal(i);
      assert s[1..] == NatToDecimal(-i);
      DigitsValueOfNatToDecimal(-i);
    } else {
      DigitsValueOfNatToDecimal(i);
    }
  }

  /** Distinct integers never render alike. */
  lemma IntToDecimalInjective(i: int, j: int)
    requires IntToDecimal(i) == IntToDecimal(j)
    ensures i == j
  {
    DecimalRoundTrip(i);
    DecimalRoundTrip(j);
  }

  /** The rendering never contains the `:` that separates composite keys. */
  lemma DecimalHasNoColon(i: int)
    ensures ':' !in IntToDecimal(i)
  {
  }

  /** The rendering of 1234567890, one digit at a time. */
  lemma RenderingExample()
    ensures IntToDecimal(1234567890) == "1234567890"
  {
    assert NatToDecimal(1) == ['1'];
    assert NatToDecimal(12) == NatToDecimal(1) + ['2'];
    assert NatToDecimal(123) == NatToDecimal(12) + ['3'];
    assert NatToDecimal(1234) == NatToDecimal(123) + ['4'];
    assert NatToDecimal(12345) == NatToDecimal(1234) + ['5'];
    assert NatToDecimal(123456) == NatToDecimal(12345) + ['6'];
    assert NatToDecimal(1234567) == NatToDecimal(123456) + ['7'];
    assert NatToDecimal(12345678) == NatToDecimal(1234567) + ['8'];
    assert NatToDecimal(123456789) == NatToDecimal(12345678) + ['9'];
    assert NatToDecimal(1234567890) == NatToDecimal(123456789) + ['0'];
  }
}
