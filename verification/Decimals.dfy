/** Decimal numerals. */
module Decimals {

  function Digit(n: nat): char
    requires n < 10
  {
    ['0', '1', '2', '3', '4', '5', '6', '7', '8', '9'][n]
  }

  function Decimal(n: nat): (r: string)
    ensures r != ""
  {
    if n < 10 then [Digit(n)] else Decimal(n / 10) + [Digit(n % 10)]
  }

  lemma DigitsDiffer(a: nat, b: nat)
    requires a < 10 && b < 10 && Digit(a) == Digit(b)
    ensures a == b
  {
  }

  lemma {:induction false} DecimalIsDigits(n: nat)
    ensures forall k | 0 <= k < |Decimal(n)| :: '0' <= Decimal(n)[k] <= '9'
  {
    if n >= 10 {
      DecimalIsDigits(n / 10);
    }
  }

  lemma DecimalHasNoDash(n: nat)
    ensures forall k | 0 <= k < |Decimal(n)| :: Decimal(n)[k] != '-'
  {
    DecimalIsDigits(n);
  }

  lemma {:induction false} DecimalIsInjective(m: nat, n: nat)
    requires Decimal(m) == Decimal(n)
    ensures m == n
  {
    assert m >= 10 ==> |Decimal(m)| >= 2;
    assert n >= 10 ==> |Decimal(n)| >= 2;
    if m < 10 {
      DigitsDiffer(m, n);
    } else {
      var a, b := Decimal(m / 10), Decimal(n / 10);
      assert Decimal(m) == a + [Digit(m % 10)] && Decimal(n) == b + [Digit(n % 10)];
      assert a == Decimal(m)[..|a|] && b == Decimal(n)[..|b|];
      DigitsDiffer(m % 10, n % 10);
      DecimalIsInjective(m / 10, n / 10);
    }
  }
}
