/** The decimal digits of an integer and the quantities the classifier derives
    from them: how many digits there are, their sum, and the sum of their
    powers that decides whether a number is an Armstrong number. */
module Decimal {
  import opened Arith

  /** The decimal digits of `n`, least significant first, produced the way the
      classifier's loops produce them (take `n % 10`, continue with `n / 10`
      while the value is positive). A value that is not positive has none. */
  function Digits(n: int): seq<int>
    decreases if n > 0 then n else 0
  {
    if n <= 0 then [] else [n % 10] + Digits(n / 10)
  }

  /** The value of a digit sequence, least significant digit first. */
  function FromDigits(ds: seq<int>): int
  {
    if ds == [] then 0 else ds[0] + 10 * FromDigits(ds[1..])
  }

  /** Every element is a decimal digit and there is no leading zero. */
  predicate IsCanonical(ds: seq<int>)
  {
    (forall i :: 0 <= i < |ds| ==> 0 <= ds[i] <= 9) && (ds != [] ==> ds[|ds| - 1] != 0)
  }

  function NumDigits(n: int): nat
  {
    |Digits(n)|
  }

  function Sum(ds: seq<int>): int
  {
    if ds == [] then 0 else ds[0] + Sum(ds[1..])
  }

  function SumOfPowers(ds: seq<int>, k: nat): int
  {
    if ds == [] then 0 else Pow(ds[0], k) + SumOfPowers(ds[1..], k)
  }

  /** The digit sum of the magnitude of `n`. */
  function DigitSumOf(n: int): int
  {
    Sum(Digits(Abs(n)))
  }

  /** Every digit of `n` raised to the power `k`, summed. */
  function PowerSum(n: int, k: nat): int
  {
    SumOfPowers(Digits(n), k)
  }

  /** `n` equals the sum of its digits, each raised to the number of digits. */
  predicate IsArmstrongNumber(n: int)
  {
    PowerSum(n, NumDigits(n)) == n
  }

  // One loop step: a positive value splits into its last digit and the rest.

  lemma NumDigitsStep(n: int)
    requires n > 0
    ensures NumDigits(n) == 1 + NumDigits(n / 10)
  {
  }

  lemma SumStep(n: int)
    requires n > 0
    ensures Sum(Digits(n)) == n % 10 + Sum(Digits(n / 10))
  {
    assert ([n % 10] + Digits(n / 10))[1..] == Digits(n / 10);
  }

  lemma PowerSumStep(n: int, k: nat)
    requires n > 0
    ensures PowerSum(n, k) == Pow(n % 10, k) + PowerSum(n / 10, k)
  {
    assert ([n % 10] + Digits(n / 10))[1..] == Digits(n / 10);
  }

  /** Digits(n) is the decimal representation of a natural number: canonical,
      and its value is `n`. */
  lemma {:induction false} DigitsRepresent(n: nat)
    ensures IsCanonical(Digits(n))
    ensures FromDigits(Digits(n)) == n
  {
    if n > 0 {
      DigitsRepresent(n / 10);
      var ds := Digits(n);
      assert ds[1..] == Digits(n / 10);
      assert n / 10 == 0 ==> ds == [n % 10];
    }
  }

  lemma {:induction false} FromDigitsPositive(ds: seq<int>)
    requires IsCanonical(ds) && ds != []
    ensures FromDigits(ds) > 0
  {
    if |ds| > 1 {
      assert IsCanonical(ds[1..]) by {
        assert forall i :: 0 <= i < |ds[1..]| ==> ds[1..][i] == ds[i + 1];
      }
      FromDigitsPositive(ds[1..]);
      FromDigitsNonNegative(ds[1..]);
    }
  }

  lemma {:induction false} FromDigitsNonNegative(ds: seq<int>)
    requires IsCanonical(ds)
    ensures FromDigits(ds) >= 0
  {
    if ds != [] {
      assert IsCanonical(ds[1..]) by {
        assert forall i :: 0 <= i < |ds[1..]| ==> ds[1..][i] == ds[i + 1];
      }
      FromDigitsNonNegative(ds[1..]);
    }
  }

  /** Conversely, the digits of the value of a canonical sequence are that
      sequence: the decimal representation is unique. */
  lemma {:induction false} FromDigitsRoundTrip(ds: seq<int>)
    requires IsCanonical(ds)
    ensures Digits(FromDigits(ds)) == ds
  {
    if ds != [] {
      var rest := ds[1..];
      assert IsCanonical(rest) by {
        assert forall i :: 0 <= i < |rest| ==> rest[i] == ds[i + 1];
      }
      FromDigitsRoundTrip(rest);
      FromDigitsNonNegative(rest);
      var v := FromDigits(rest);
      var n := FromDigits(ds);
      assert n == ds[0] + 10 * v;
      DivModUnique(n, 10, v, ds[0]);
      if rest == [] {
        assert n > 0;
      } else {
        FromDigitsPositive(rest);
      }
      assert Digits(n) == [ds[0]] + Digits(v);
    }
  }

  /** The digit count of a positive `n` is the `d` with 10^(d-1) <= n < 10^d. */
  lemma {:induction false} NumDigitsBounds(n: int)
    requires n > 0
    ensures NumDigits(n) >= 1
    ensures Pow(10, NumDigits(n) - 1) <= n < Pow(10, NumDigits(n))
  {
    NumDigitsStep(n);
    if n >= 10 {
      var m := n / 10;
      NumDigitsBounds(m);
      var d := NumDigits(m);
      assert Pow(10, d) == 10 * Pow(10, d - 1);
      assert Pow(10, d + 1) == 10 * Pow(10, d);
      assert 10 * m <= n < 10 * m + 10;
    } else {
      assert Digits(n / 10) == [];
      assert Pow(10, 1) == 10;
    }
  }

  lemma NumDigitsCharacterized(n: int, d: nat)
    requires n > 0 && d >= 1
    ensures NumDigits(n) == d <==> Pow(10, d - 1) <= n < Pow(10, d)
  {
    NumDigitsBounds(n);
    var c := NumDigits(n);
    if c < d {
      PowStrictlyIncreasing(10, c, d);
      if c < d - 1 {
        PowStrictlyIncreasing(10, c, d - 1);
      }
    } else if d < c {
      if d < c - 1 {
        PowStrictlyIncreasing(10, d, c - 1);
      }
    }
  }

  lemma {:induction false} SumNonNegative(ds: seq<int>)
    requires IsCanonical(ds)
    ensures Sum(ds) >= 0
  {
    if ds != [] {
      assert IsCanonical(ds[1..]) by {
        assert forall i :: 0 <= i < |ds[1..]| ==> ds[1..][i] == ds[i + 1];
      }
      SumNonNegative(ds[1..]);
    }
  }

  /** The digit sum is never negative, is 0 at 0, and ignores the sign. */
  lemma DigitSumOfProperties(n: int)
    ensures DigitSumOf(n) >= 0
    ensures DigitSumOf(-n) == DigitSumOf(n)
    ensures DigitSumOf(0) == 0
  {
    DigitsRepresent(Abs(n));
    SumNonNegative(Digits(Abs(n)));
  }

  /** A value that is not positive has no digits, so only 0 is an Armstrong
      number among them: 0 is one, no negative number is. */
  lemma ArmstrongNonPositive(n: int)
    requires n <= 0
    ensures IsArmstrongNumber(n) <==> n == 0
  {
  }

  /** Every one-digit number is an Armstrong number. */
  lemma ArmstrongOneDigit(n: int)
    requires 0 <= n <= 9
    ensures IsArmstrongNumber(n)
  {
    if n > 0 {
      assert Digits(n / 10) == [];
      assert Digits(n) == [n];
      assert NumDigits(n) == 1;
      assert Pow(n, 1) == n;
      assert SumOfPowers([n], 1) == Pow(n, 1) + SumOfPowers([], 1);
    }
  }

  lemma ArmstrongExamples()
    ensures IsArmstrongNumber(0)
    ensures IsArmstrongNumber(153) && IsArmstrongNumber(370) && IsArmstrongNumber(371) && IsArmstrongNumber(407)
    ensures IsArmstrongNumber(9474)
    ensures !IsArmstrongNumber(10) && !IsArmstrongNumber(100) && !IsArmstrongNumber(-153)
  {
  }

  lemma DigitSumExamples()
    ensures DigitSumOf(493) == 16 && DigitSumOf(-493) == 16 && DigitSumOf(0) == 0
    ensures DigitSumOf(28) == 10 && DigitSumOf(153) == 9
  {
  }
}
