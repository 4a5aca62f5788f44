/** The number-classification engine: the three integer predicates, the digit
    sum and the property list, written as the loops the service runs and each
    proved equal to the definitions in Divisors and Decimal. */
module Classifier {
  import opened Arith
  import opened Decimal
  import opened Divisors

  /** Trial division by 2..isqrt(n), stopping at the first divisor. */
  method IsPrime(n: int) returns (b: bool)
    ensures n < 2 ==> !b
    ensures b <==> n >= 2 && NoDivisorUpTo(n, Isqrt(n))
    ensures b <==> IsPrimeNumber(n)
  {
    if n < 2 {
      return false;
    }
    PrimeBySquareRoot(n);
    var i := 2;
    while i <= Isqrt(n)
      invariant 2 <= i <= Isqrt(n) + 1
      invariant NoDivisorUpTo(n, i - 1)
    {
      if n % i == 0 {
        return false;
      }
      i := i + 1;
    }
    return true;
  }

  /** Starts from 1 and adds every divisor pair (i, n / i) with
      2 <= i <= isqrt(n), the cofactor only when it differs from i; then
      compares with n, rejecting 1. */
  method IsPerfect(n: int) returns (b: bool)
    ensures b <==> 1 + PairSum(n, Isqrt(n)) == n && n != 1
    ensures b <==> IsPerfectNumber(n)
  {
    var sum := 1;
    var i := 2;
    while i <= Isqrt(n)
      invariant 2 <= i <= Isqrt(n) + 1 || (i == 2 && Isqrt(n) < 2)
      invariant sum == 1 + PairSum(n, i - 1)
    {
      if n % i == 0 {
        sum := sum + i;
        if i != n / i {
          sum := sum + n / i;
        }
      }
      i := i + 1;
    }
    PerfectByPairs(n);
    return sum == n && n != 1;
  }

  /** Counts the digits of n, then sums each digit raised to that count. A
      value that is not positive has no digits and a power sum of 0. */
  method IsArmstrong(n: int) returns (b: bool)
    ensures b <==> IsArmstrongNumber(n)
    ensures n < 0 ==> !b
    ensures n == 0 ==> b
  {
    var sum: int, temp: int, digits: nat := 0, n, 0;
    while temp > 0
      invariant digits + NumDigits(temp) == NumDigits(n)
    {
      NumDigitsStep(temp);
      digits := digits + 1;
      temp := temp / 10;
    }
    temp := n;
    while temp > 0
      invariant sum + PowerSum(temp, digits) == PowerSum(n, digits)
    {
      PowerSumStep(temp, digits);
      var digit := temp % 10;
      sum := sum + Pow(digit, digits);
      temp := temp / 10;
    }
    return sum == n;
  }

  /** Sums the decimal digits of |n|. */
  method DigitSum(n: int) returns (s: int)
    ensures s == DigitSumOf(n)
    ensures s >= 0
  {
    s := 0;
    var m := Abs(n);
    while m > 0
      invariant s + Sum(Digits(m)) == DigitSumOf(n)
    {
      SumStep(m);
      s := s + m % 10;
      m := m / 10;
    }
    DigitSumOfProperties(n);
  }

  /** The property list for the truncated input `t`; `integral` says whether
      the input equalled its own truncation. One parity tag, by Go's
      truncating `%`, then "armstrong" for an integer-valued Armstrong input. */
  method Properties(t: int, integral: bool) returns (props: seq<string>)
    ensures |props| == 1 || |props| == 2
    ensures props[0] == "odd" <==> t % 2 != 0
    ensures props[0] == "even" <==> t % 2 == 0
    ensures |props| == 2 <==> integral && IsArmstrongNumber(t)
    ensures |props| == 2 ==> props[1] == "armstrong"
    ensures "armstrong" in props <==> integral && IsArmstrongNumber(t)
    ensures forall p :: p in props ==> p == "odd" || p == "even" || p == "armstrong"
  {
    GoRemZero(t, 2);
    props := [];
    if GoRem(t, 2) != 0 {
      props := props + ["odd"];
    } else {
      props := props + ["even"];
    }
    if integral {
      var armstrong := IsArmstrong(t);
      if armstrong {
        props := props + ["armstrong"];
      }
    }
  }

  /** The fields of a successful classification that the engine computes; the
      echoed float and the fetched fun fact are not part of this model. */
  datatype Classification = Classification(
    isPrime: bool,
    isPerfect: bool,
    properties: seq<string>,
    digitSum: int)

  /** Classifies the truncated input `t`, `integral` saying whether the input
      equalled its own truncation. */
  method Classify(t: int, integral: bool) returns (c: Classification)
    ensures c.isPrime <==> IsPrimeNumber(t)
    ensures c.isPerfect <==> IsPerfectNumber(t)
    ensures c.digitSum == DigitSumOf(t)
    ensures |c.properties| == 1 || |c.properties| == 2
    ensures c.properties[0] == (if t % 2 != 0 then "odd" else "even")
    ensures |c.properties| == 2 <==> integral && IsArmstrongNumber(t)
    ensures |c.properties| == 2 ==> c.properties[1] == "armstrong"
  {
    var props := Properties(t, integral);
    var prime := IsPrime(t);
    var perfect := IsPerfect(t);
    var sum := DigitSum(t);
    c := Classification(prime, perfect, props, sum);
  }

  /** The two classifications documented for the service: 28 is perfect and
      even with digit sum 10; 153 is not prime, and is odd and Armstrong. */
  method DocumentedClassifications()
  {
    PerfectTwentyEight();
    DigitSumExamples();
    ArmstrongExamples();
    var c28 := Classify(28, true);
    assert c28.isPerfect && c28.properties == ["even"] && c28.digitSum == 10;
    assert 153 % 3 == 0;
    var c153 := Classify(153, true);
    assert !c153.isPrime && c153.properties == ["odd", "armstrong"];
  }
}
