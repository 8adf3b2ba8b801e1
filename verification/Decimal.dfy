/** Decimal text of integers. */
module Decimal {

  const DIGITS := "0123456789"

  function Digit(d: int): (c: char)
    requires 0 <= d < 10
    ensures c in DIGITS
  {
    DIGITS[d]
  }

  /** The value of a digit, and zero for any other character. */
  function DigitValue(c: char): nat { if '0' <= c <= '9' then c as int - '0' as int else 0 }

  predicate AllDigits(s: string) { forall i :: 0 <= i < |s| ==> '0' <= s[i] <= '9' }

  function Digits(n: nat): (s: string)
    ensures s != [] && forall c :: c in s ==> c in DIGITS
  {
    if n < 10 then [Digit(n)] else Digits(n / 10) + [Digit(n % 10)]
  }

  function Text(i: int): string {
    if i < 0 then "-" + Digits(-i) else Digits(i)
  }

  function Value(s: string): nat {
    if s == [] then 0 else 10 * Value(s[..|s| - 1]) + DigitValue(s[|s| - 1])
  }

  lemma DigitBack(d: int)
    requires 0 <= d < 10
    ensures '0' <= Digit(d) <= '9' && DigitValue(Digit(d)) == d
  {
  }

  lemma {:induction false} ValueOfDigits(n: nat)
    ensures Value(Digits(n)) == n && AllDigits(Digits(n))
  {
    DigitBack(n % 10);
    if n >= 10 {
      ValueOfDigits(n / 10);
      var s := Digits(n);
      assert s[..|s| - 1] == Digits(n / 10);
    } else {
      assert Digits(n)[..0] == [];
    }
  }

  /** No leading zero. */
  lemma {:induction false} DigitsStart(n: nat)
    ensures n > 0 ==> Digits(n)[0] != '0'
  {
    if n >= 10 { DigitsStart(n / 10); }
  }

  /** The highest digit comes first, and a minus sign before it. */
  lemma TextExamples()
    ensures Text(0) == "0" && Text(907) == "907" && Text(-42) == "-42"
  {
    assert Digits(9) == "9" && Digits(4) == "4";
    assert Digits(90) == Digits(9) + "0" && Digits(42) == Digits(4) + "2";
    assert Digits(907) == Digits(90) + "7";
  }

  lemma DigitsInjective(a: nat, b: nat)
    requires Digits(a) == Digits(b)
    ensures a == b
  {
    hide Digits, Value;
    ValueOfDigits(a);
    ValueOfDigits(b);
  }

  /** Different integers have different texts. */
  lemma TextInjective(a: int, b: int)
    requires Text(a) == Text(b)
    ensures a == b
  {
    hide Digits;
    assert forall i: nat :: Digits(i)[0] in Digits(i);
    assert '-' !in DIGITS;
    if a < 0 && b < 0 {
      assert Text(a)[1..] == Digits(-a) && Text(b)[1..] == Digits(-b);
      DigitsInjective(-a, -b);
    } else if a >= 0 && b >= 0 {
      DigitsInjective(a, b);
    }
  }
}
