/** Primality and perfection, each stated twice: as the divisor test the
    classifier runs (candidates up to the floor square root) and as the
    textbook definition, with lemmas proving the two agree. */
module Divisors {
  import opened Arith

  /** `n` is prime: at least 2, and no number strictly between 1 and `n`
      divides it. */
  predicate IsPrimeNumber(n: int)
  {
    n >= 2 && forall d :: 2 <= d < n ==> n % d != 0
  }

  /** No candidate from 2 to `m` divides `n`. */
  predicate NoDivisorUpTo(n: int, m: int)
  {
    forall i :: 2 <= i <= m ==> n % i != 0
  }

  /** A divisor `d` of positive `n` comes with its cofactor `n / d`. */
  lemma Cofactor(n: int, d: int)
    requires n > 0 && d > 0 && n % d == 0
    ensures n == d * (n / d) && n / d > 0
    ensures n % (n / d) == 0 && n / (n / d) == d
  {
    var k := n / d;
    assert n == d * k;
    if k <= 0 {
      MulMonotone(d, k, 0);
    }
    MulMod(k, d);
  }

  lemma IsqrtBelow(n: int)
    requires n >= 2
    ensures 1 <= Isqrt(n) < n
  {
    var r := Isqrt(n);
    if r >= n {
      MulMonotone(r, n, r);
      MulMonotone(n, 2, r);
    }
  }

  /** A divisor strictly between 1 and `n` yields one, itself or its cofactor,
      that is no larger than the floor square root. */
  lemma SmallDivisor(n: int, d: int) returns (i: int)
    requires 2 <= d < n && n % d == 0
    ensures 2 <= i <= Isqrt(n) && n % i == 0
  {
    var r := Isqrt(n);
    Cofactor(n, d);
    var k := n / d;
    MulCancel(d, 1, k);
    if d <= r {
      i := d;
    } else if k <= r {
      i := k;
    } else {
      MulMonotone(d, r + 1, k);
      MulMonotone(r + 1, r + 1, d);
      assert false;
    }
  }

  /** Trial division up to the floor square root decides primality. */
  lemma PrimeBySquareRoot(n: int)
    requires n >= 2
    ensures NoDivisorUpTo(n, Isqrt(n)) <==> IsPrimeNumber(n)
  {
    IsqrtBelow(n);
    if !IsPrimeNumber(n) {
      var d :| 2 <= d < n && n % d == 0;
      var i := SmallDivisor(n, d);
    }
  }

  /** What the classifier adds for candidate `i`: `i` itself and its
      cofactor `n / i`, the cofactor only when it differs from `i`. */
  function PairTerm(n: int, i: int): int
    requires i > 0
  {
    if n % i == 0 then i + (if i != n / i then n / i else 0) else 0
  }

  /** The classifier's divisor sum over the candidates 2..m (without the 1 it
      starts from). */
  function PairSum(n: int, m: int): int
    decreases m
  {
    if m < 2 then 0 else PairSum(n, m - 1) + PairTerm(n, m)
  }

  function DivisorTerm(n: int, e: int): int
    requires e > 0
  {
    if n % e == 0 then e else 0
  }

  /** The sum of the divisors of `n` among 1..k. */
  function DivisorSumUpTo(n: int, k: int): int
    decreases k
  {
    if k < 1 then 0 else DivisorSumUpTo(n, k - 1) + DivisorTerm(n, k)
  }

  /** The sum of the proper divisors of `n` (those below `n`). */
  function AliquotSum(n: int): int
  {
    DivisorSumUpTo(n, n - 1)
  }

  /** `n` is perfect: positive and equal to the sum of its proper divisors. */
  predicate IsPerfectNumber(n: int)
  {
    n >= 1 && AliquotSum(n) == n
  }

  // The proof that the pair sum is the aliquot sum. After the candidates
  // 1..m, with m * m <= n, the pairs (i, n / i) have collected exactly the
  // divisors e that are at most m or whose cofactor is at most m
  // (e * m >= n); at m = Isqrt(n) that is every divisor.

  predicate Covered(n: int, m: int, e: int)
  {
    e > 0 && n % e == 0 && (e <= m || e * m >= n)
  }

  function CoverTerm(n: int, m: int, e: int): int
  {
    if Covered(n, m, e) then e else 0
  }

  function CoverSum(n: int, m: int, k: int): int
    decreases k
  {
    if k < 1 then 0 else CoverSum(n, m, k - 1) + CoverTerm(n, m, k)
  }

  lemma {:induction false} CoverSumNone(n: int, k: int)
    requires n >= 1
    ensures CoverSum(n, 0, k) == 0
  {
    if k >= 1 {
      CoverSumNone(n, k - 1);
    }
  }

  /** The cofactor of a candidate i <= isqrt(n) is at least i and is not yet
      covered before the step to i. */
  lemma CofactorNotCovered(n: int, m: nat)
    requires (m + 1) * (m + 1) <= n && n % (m + 1) == 0
    ensures n / (m + 1) >= m + 1
    ensures !Covered(n, m, n / (m + 1))
  {
    var i := m + 1;
    Cofactor(n, i);
    var c := n / i;
    MulCancel(i, i, c);
    assert c * m + c == n;
  }

  /** What is covered at m stays covered at m + 1, and is neither m + 1 nor
      the cofactor of m + 1. */
  lemma CoveredStays(n: int, m: nat, e: int)
    requires (m + 1) * (m + 1) <= n && Covered(n, m, e)
    ensures Covered(n, m + 1, e) && e != m + 1
    ensures n % (m + 1) == 0 ==> e != n / (m + 1)
  {
    MulMonotone(e, m, m + 1);
    assert (m + 1) * m + (m + 1) == (m + 1) * (m + 1);
    if n % (m + 1) == 0 {
      CofactorNotCovered(n, m);
    }
  }

  /** A divisor e newly covered at m + 1, other than m + 1, has
      e * m < n <= e * (m + 1), so its cofactor is m + 1. */
  lemma NewlyCovered(n: int, m: nat, e: int)
    requires (m + 1) * (m + 1) <= n
    requires !Covered(n, m, e) && Covered(n, m + 1, e) && e != m + 1
    ensures n % (m + 1) == 0 && e == n / (m + 1)
  {
    Cofactor(n, e);
    var q := n / e;
    MulCancel(e, m, q);
    MulCancel(e, q, m + 1);
    assert q == m + 1;
    MulMod(m + 1, e);
  }

  /** Going from m to m + 1 newly covers m + 1 and its cofactor, when m + 1
      divides n, and nothing else. */
  lemma CoverTermStep(n: int, m: nat, e: int)
    requires (m + 1) * (m + 1) <= n && e >= 1
    ensures CoverTerm(n, m + 1, e) == CoverTerm(n, m, e)
      + (if e == m + 1 && n % (m + 1) == 0 then e else 0)
      + (if n % (m + 1) == 0 && e == n / (m + 1) && e != m + 1 then e else 0)
  {
    if Covered(n, m, e) {
      CoveredStays(n, m, e);
    } else if n % (m + 1) == 0 {
      CofactorNotCovered(n, m);
      Cofactor(n, m + 1);
      MulMod(n / (m + 1), m + 1);
      if Covered(n, m + 1, e) && e != m + 1 {
        NewlyCovered(n, m, e);
      }
    } else if Covered(n, m + 1, e) && e != m + 1 {
      NewlyCovered(n, m, e);
    }
  }

  lemma {:induction false} CoverSumStep(n: int, m: nat, k: int)
    requires (m + 1) * (m + 1) <= n && k >= 0
    ensures CoverSum(n, m + 1, k) == CoverSum(n, m, k)
      + (if m + 1 <= k && n % (m + 1) == 0 then m + 1 else 0)
      + (if n % (m + 1) == 0 && n / (m + 1) <= k && n / (m + 1) != m + 1 then n / (m + 1) else 0)
  {
    if k >= 1 {
      CoverSumStep(n, m, k - 1);
      CoverTermStep(n, m, k);
      if n % (m + 1) == 0 {
        Cofactor(n, m + 1);
      }
    }
  }

  /** What the step to m covers is what the classifier adds for candidate m. */
  lemma PairTermIsNewlyCovered(n: int, m: int)
    requires 1 <= m && m * m <= n
    ensures PairTerm(n, m) == (if m <= n && n % m == 0 then m else 0)
      + (if n % m == 0 && n / m <= n && n / m != m then n / m else 0)
  {
    MulMonotone(m, 1, m);
    if n % m == 0 {
      Cofactor(n, m);
      MulMonotone(m, 1, n / m);
    }
  }

  lemma {:induction false} CoverSumIsPairSum(n: int, m: int)
    requires n >= 2 && 1 <= m && m * m <= n
    ensures CoverSum(n, m, n) == 1 + n + PairSum(n, m)
  {
    SquareMonotone(m - 1, m);
    CoverSumStep(n, m - 1, n);
    PairTermIsNewlyCovered(n, m);
    if m == 1 {
      CoverSumNone(n, n);
      MulMod(n, 1);
    } else {
      CoverSumIsPairSum(n, m - 1);
    }
  }

  /** At the floor square root every divisor is covered. */
  lemma CoverTermFull(n: int, r: nat, e: int)
    requires n >= 1 && e >= 1 && r * r <= n < (r + 1) * (r + 1)
    ensures CoverTerm(n, r, e) == DivisorTerm(n, e)
  {
    if n % e == 0 && e > r {
      Cofactor(n, e);
      var k := n / e;
      if k <= r {
        MulMonotone(e, k, r);
      } else {
        MulMonotone(e, r + 1, k);
        MulMonotone(r + 1, r + 1, e);
        assert false;
      }
    }
  }

  lemma {:induction false} CoverSumFull(n: int, r: nat, k: int)
    requires n >= 1 && r * r <= n < (r + 1) * (r + 1)
    ensures CoverSum(n, r, k) == DivisorSumUpTo(n, k)
  {
    if k >= 1 {
      CoverSumFull(n, r, k - 1);
      CoverTermFull(n, r, k);
    }
  }

  /** The classifier's sum, 1 plus the pairs up to the floor square root, is
      the sum of the proper divisors of `n`. */
  lemma PairSumIsAliquotSum(n: int)
    requires n >= 2
    ensures 1 + PairSum(n, Isqrt(n)) == AliquotSum(n)
  {
    var r := Isqrt(n);
    CoverSumIsPairSum(n, r);
    CoverSumFull(n, r, n);
    MulMod(n, 1);
  }

  /** The classifier's verdict `sum == n && n != 1` is exactly perfection, for
      every integer, including 1 and the values that are not positive. */
  lemma PerfectByPairs(n: int)
    ensures (1 + PairSum(n, Isqrt(n)) == n && n != 1) <==> IsPerfectNumber(n)
  {
    if n >= 2 {
      PairSumIsAliquotSum(n);
    } else {
      assert Isqrt(n) <= 1;
    }
  }

  lemma PrimeExamples()
    ensures IsPrimeNumber(2) && IsPrimeNumber(3) && IsPrimeNumber(5) && IsPrimeNumber(7)
    ensures IsPrimeNumber(11) && IsPrimeNumber(13)
    ensures !IsPrimeNumber(4) && !IsPrimeNumber(6) && !IsPrimeNumber(8) && !IsPrimeNumber(9)
    ensures !IsPrimeNumber(10) && !IsPrimeNumber(12)
    ensures !IsPrimeNumber(1) && !IsPrimeNumber(0) && !IsPrimeNumber(-7)
  {
    assert 4 % 2 == 0 && 6 % 2 == 0 && 8 % 2 == 0 && 9 % 3 == 0 && 10 % 2 == 0 && 12 % 2 == 0;
    IsqrtUnique(2, 1);
    IsqrtUnique(3, 1);
    IsqrtUnique(5, 2);
    IsqrtUnique(7, 2);
    IsqrtUnique(11, 3);
    IsqrtUnique(13, 3);
    PrimeBySquareRoot(2);
    PrimeBySquareRoot(3);
    PrimeBySquareRoot(5);
    PrimeBySquareRoot(7);
    PrimeBySquareRoot(11);
    PrimeBySquareRoot(13);
  }

  lemma PerfectExamples()
    ensures IsPerfectNumber(6) && IsPerfectNumber(28)
    ensures !IsPerfectNumber(1) && !IsPerfectNumber(12) && !IsPerfectNumber(0) && !IsPerfectNumber(-6)
  {
    PerfectSix();
    PerfectTwentyEight();
    NotPerfectTwelve();
  }

  lemma PerfectSix()
    ensures IsPerfectNumber(6)
  {
    IsqrtUnique(6, 2);
    PerfectByPairs(6);
    assert PairSum(6, 2) == 5;
  }

  lemma PerfectTwentyEight()
    ensures IsPerfectNumber(28)
  {
    IsqrtUnique(28, 5);
    PerfectByPairs(28);
    assert PairTerm(28, 2) == 16 && PairTerm(28, 3) == 0;
    assert PairTerm(28, 4) == 11 && PairTerm(28, 5) == 0;
    assert PairSum(28, 5) == 27;
  }

  lemma NotPerfectTwelve()
    ensures !IsPerfectNumber(12)
  {
    IsqrtUnique(12, 3);
    PerfectByPairs(12);
    assert PairTerm(12, 2) == 8 && PairTerm(12, 3) == 7;
    assert PairSum(12, 3) == 15;
  }
}
