/** Decimal numerals as bytes. */
module Decimal {

  type Byte = b: int | 0 <= b < 0x100

  predicate DigitByte(b: int) {
    48 <= b < 58
  }

  /** The numeral of n. */
  function Dec(n: nat): seq<Byte> {
    if n < 10 then [48 + n] else Dec(n / 10) + [48 + n % 10]
  }

  predicate AllDigits(d: seq<Byte>) {
    forall i :: 0 <= i < |d| ==> DigitByte(d[i])
  }

  /** 0, or digits that start with another one. */
  predicate IsNumeral(d: seq<Byte>) {
    d != [] && AllDigits(d) && (d[0] == 48 ==> |d| == 1)
  }

  function NumeralValue(d: seq<Byte>): nat
    requires AllDigits(d)
  {
    if d == [] then 0 else NumeralValue(d[..|d| - 1]) * 10 + (d[|d| - 1] - 48)
  }

  lemma {:induction false} DecIsNumeral(n: nat)
    ensures IsNumeral(Dec(n)) && NumeralValue(Dec(n)) == n
    ensures n > 0 ==> Dec(n)[0] != 48
  {
    if n < 10 {
      assert Dec(n)[..0] == [];
    } else {
      DecIsNumeral(n / 10);
      assert Dec(n)[..|Dec(n)| - 1] == Dec(n / 10);
    }
  }

  lemma {:induction false} NumeralPositive(d: seq<Byte>)
    requires AllDigits(d) && d != [] && d[0] != 48
    ensures NumeralValue(d) > 0
  {
    if |d| == 1 {
      assert d[..0] == [];
    } else {
      NumeralPositive(d[..|d| - 1]);
    }
  }

  /** A numeral is the numeral of its value: numerals and numbers correspond one to one. */
  lemma {:induction false} NumeralIsDec(d: seq<Byte>)
    requires IsNumeral(d)
    ensures Dec(NumeralValue(d)) == d
  {
    var front, last := d[..|d| - 1], d[|d| - 1];
    if |d| == 1 {
      assert front == [];
    } else {
      NumeralPositive(front);
      NumeralIsDec(front);
      assert NumeralValue(d) == NumeralValue(front) * 10 + (last - 48);
      assert NumeralValue(d) / 10 == NumeralValue(front) && NumeralValue(d) % 10 == last - 48;
      assert d == front + [last];
    }
  }
}
