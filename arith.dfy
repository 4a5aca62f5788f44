/** Exact integer stand-ins for the machine operations the classifier uses:
    the floor square root that bounds its divisor loops (math.Sqrt followed by
    int()), the power it raises digits to (math.Pow), and the remainder of Go's
    `%` operator, which truncates toward zero. */
module Arith {

  function Abs(x: int): (r: nat)
    ensures r == x || r == -x
  {
    if x < 0 then -x else x
  }

  function Pow(b: int, e: nat): int
    decreases e
  {
    if e == 0 then 1 else b * Pow(b, e - 1)
  }

  lemma {:induction false} PowPositive(b: int, e: nat)
    requires b > 0
    ensures Pow(b, e) > 0
  {
    if e > 0 {
      PowPositive(b, e - 1);
    }
  }

  /** A base above 1 raised to a larger exponent gives a larger power. */
  lemma {:induction false} PowStrictlyIncreasing(b: int, e1: nat, e2: nat)
    requires b > 1 && e1 < e2
    ensures Pow(b, e1) < Pow(b, e2)
  {
    PowPositive(b, e2 - 1);
    if e1 < e2 - 1 {
      PowStrictlyIncreasing(b, e1, e2 - 1);
    }
  }

  lemma MulMonotone(a: int, b: int, c: int)
    requires a >= 0 && b <= c
    ensures a * b <= a * c
  {
    assert a * c - a * b == a * (c - b);
  }

  /** Cancelling a positive factor preserves a strict or non-strict bound. */
  lemma MulCancel(e: int, a: int, b: int)
    requires e > 0
    ensures e * a < e * b ==> a < b
    ensures e * a <= e * b ==> a <= b
  {
    if b < a {
      MulMonotone(e, b + 1, a);
      assert e * (b + 1) == e * b + e;
    } else if b == a {
    }
  }

  lemma SquareMonotone(a: int, b: int)
    requires 0 <= a <= b
    ensures a * a <= b * b
  {
    assert a * a <= a * b;
  }

  /** The floor square root `int(math.Sqrt(float64(n)))`, computed from the
      root of `n / 4` so that the recursion is logarithmic. For a negative
      operand math.Sqrt gives NaN, whose conversion to int Go leaves to the
      platform; the model assumes one where that value is below 2 (amd64 gives
      the minimum int, arm64 gives 0), so no loop bounded by it runs an
      iteration, which the value 0 reproduces. */
  function Isqrt(n: int): (r: nat)
    ensures n >= 0 ==> r * r <= n < (r + 1) * (r + 1)
    ensures n < 0 ==> r == 0
    decreases if n < 0 then 0 else n
  {
    if n <= 0 then 0
    else
      var s := 2 * Isqrt(n / 4);
      IsqrtDoubling(n, s / 2);
      if (s + 1) * (s + 1) <= n then s + 1 else s
  }

  /** Doubling the root of `n / 4` gives `s` with `s * s <= n < (s + 2) * (s + 2)`. */
  lemma IsqrtDoubling(n: int, q: nat)
    requires n > 0 && q * q <= n / 4 < (q + 1) * (q + 1)
    ensures (2 * q) * (2 * q) <= n < (2 * q + 2) * (2 * q + 2)
    ensures (2 * q + 2) * (2 * q + 2) == (2 * q + 1) * (2 * q + 1) + 4 * q + 3
  {
    assert (2 * q) * (2 * q) == 4 * (q * q);
    assert (2 * q + 2) * (2 * q + 2) == 4 * ((q + 1) * (q + 1));
    assert n < 4 * (n / 4) + 4;
  }

  /** The two bounds of Isqrt determine it. */
  lemma IsqrtUnique(n: int, r: nat)
    requires r * r <= n < (r + 1) * (r + 1)
    ensures Isqrt(n) == r
  {
    var s := Isqrt(n);
    if s < r {
      SquareMonotone(s + 1, r);
    } else if r < s {
      SquareMonotone(r + 1, s);
    }
  }

  /** Quotient and remainder of Euclidean division are the unique pair with
      `x == b * q + r` and `0 <= r < b`. */
  lemma DivModUnique(x: int, b: int, q: int, r: int)
    requires b > 0 && 0 <= r < b && x == b * q + r
    ensures x / b == q && x % b == r
  {
    var k := q - x / b;
    assert b * k == x % b - r;
  }

  lemma MulMod(b: int, q: int)
    requires b > 0
    ensures (b * q) % b == 0 && (b * q) / b == q
  {
    DivModUnique(b * q, b, q, 0);
  }

  /** The remainder of Go's `%` for a positive divisor: the quotient is
      truncated toward zero, so a non-zero remainder takes the sign of the
      dividend. */
  function GoRem(a: int, b: int): (r: int)
    requires b > 0
    ensures -b < r < b
    ensures a >= 0 ==> r >= 0
    ensures a <= 0 ==> r <= 0
    ensures (a - r) % b == 0
  {
    var m := Abs(a) % b;
    GoRemSpec(a, b, m);
    if a < 0 then -m else m
  }

  lemma GoRemSpec(a: int, b: int, m: int)
    requires b > 0 && m == Abs(a) % b
    ensures (a - (if a < 0 then -m else m)) % b == 0
  {
    var q := Abs(a) / b;
    assert Abs(a) == b * q + m;
    if a < 0 {
      assert a - (-m) == b * (-q);
      MulMod(b, -q);
    } else {
      assert a - m == b * q;
      MulMod(b, q);
    }
  }

  /** Truncated and Euclidean remainders vanish together. */
  lemma GoRemZero(a: int, b: int)
    requires b > 0
    ensures GoRem(a, b) == 0 <==> a % b == 0
  {
    if a < 0 {
      var q := a / b;
      if a % b == 0 {
        assert -a == b * (-q);
        MulMod(b, -q);
      } else {
        var m := (-a) % b;
        assert -a == b * ((-a) / b) + m;
        if m == 0 {
          assert a == b * (-((-a) / b));
          MulMod(b, -((-a) / b));
        }
      }
    }
  }
}
