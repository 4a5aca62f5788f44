# Number classifier, modelled in Dafny

This project models the classification engine of a small Go web service
(`main.go`). The service takes a number and reports four things about it:
whether it is prime, whether it is perfect, a list of properties (a parity tag,
then `"armstrong"` when it applies), and its digit sum. Each Go function becomes
a Dafny method with the same loop. Each method is proved equal to a mathematical
definition, and lemmas prove what those definitions mean.

- `arith.dfy`, module `Arith`: exact integer stand-ins for the float calls.
  `Isqrt` replaces `int(math.Sqrt(float64(n)))` and `Pow` replaces `math.Pow`.
  `GoRem` is Go's `%`, which truncates toward zero.
- `decimal.dfy`, module `Decimal`: the decimal digits of a number, as its loops
  peel them off (`n % 10`, then `n / 10`). Also the digit count, the digit sum,
  the power sum and the Armstrong predicate. Lemmas prove that `Digits` is the
  unique canonical decimal representation.
- `divisors.dfy`, module `Divisors`: primality and perfection in two forms, the
  divisor test the service runs and the textbook definition, with lemmas
  proving the two agree.
  - `PrimeBySquareRoot`: trial division up to ⌊√n⌋ decides primality.
  - `PairSumIsAliquotSum`: the service's perfect-number test starts from 1 and
    adds each divisor pair (i, n/i) for 2 ≤ i ≤ ⌊√n⌋. The lemma proves this sum
    is the sum of the proper divisors.
- `classifier.dfy`, module `Classifier`: the methods `IsPrime`, `IsPerfect`,
  `IsArmstrong`, `DigitSum` and `Properties`, each mirroring its Go function.
  `Classify` calls them together.

## Modelling choices

- The service parses the query text as a `float64` and truncates it with
  `int(n)`. Here the caller passes two values instead: the truncated integer
  `t`, and `integral`, which says whether the float equalled `float64(int(n))`.
- Integers are unbounded.
- `math.Sqrt` of a negative operand is NaN. Go leaves the conversion of NaN
  to `int` to the platform. The model assumes a platform where `int(NaN)` is
  below 2, such as amd64 (the minimum int) or arm64 (0). There the loops
  bounded by it run no iteration, and `Isqrt` reproduces this by returning 0
  for negative operands.
- `isArmstrong` does not strip the sign. A value that is not positive has no
  digits, so its digit count and power sum are both 0. Hence 0 is an Armstrong
  number and no negative number is. A reading in which the magnitude's digits
  decide for negative inputs is not what the code does, and the model follows
  the code.
- The parity tag uses Go's truncating remainder. Go gives `-3 % 2 == -1`.
  `GoRemZero` proves the tag agrees with ordinary parity, negative odd values
  included.

## Model

| member | source | states |
|---|---|---|
| `Arith.Isqrt` | main.go:33 | the loop bound is the floor square root, `r*r <= n < (r+1)*(r+1)`; it is 0 for a negative operand, where the loops run no iteration |
| `Arith.Abs` | main.go:71 | the magnitude `math.Abs` gives: a non-negative value equal to `x` or to `-x` |
| `Arith.PowPositive` | main.go:63 | the exact integer power standing for `math.Pow` is positive for a positive base |
| `Arith.PowStrictlyIncreasing` | main.go:63 | for a base above 1 the power is strictly increasing in the exponent |
| `Arith.GoRem` | main.go:111 | Go's `%` for a positive divisor: smaller than the divisor in magnitude, with the sign of the dividend, and differing from it by a multiple of the divisor |
| `Arith.GoRemZero` | main.go:111 | the truncated remainder is zero exactly when the Euclidean one is, so the tag is `"odd"` exactly for odd values, negative ones included |
| `Classifier.IsPrime` | main.go:29-39 | false for every n < 2; otherwise true exactly when no i in 2..⌊√n⌋ divides n, which is exactly primality |
| `Divisors.PrimeBySquareRoot` | main.go:33-38 | for n >= 2, no divisor in 2..⌊√n⌋ holds iff no divisor in 2..n-1 does |
| `Divisors.SmallDivisor` | main.go:33-36 | a divisor strictly between 1 and n gives a divisor in 2..⌊√n⌋ |
| `Divisors.PrimeExamples` | main.go:29-39 | 2, 3, 5, 7, 11 and 13 are prime; 4, 6, 8, 9, 10, 12, 1, 0 and -7 are not |
| `Classifier.IsPerfect` | main.go:41-52 | the result is `1 + (pair sum up to ⌊√n⌋) == n && n != 1`, which is exactly "n is positive and equals the sum of its proper divisors" |
| `Divisors.PairSumIsAliquotSum` | main.go:42-50 | for n >= 2, 1 plus each divisor pair (i, n/i) with 2 <= i <= ⌊√n⌋ (i once when i == n/i) is the sum of the proper divisors of n |
| `Divisors.CoverSumStep` | main.go:44-49 | raising the bound from m to m+1 (with (m+1)^2 <= n) collects m+1 and its cofactor, once when they coincide, and no other divisor |
| `Divisors.PerfectByPairs` | main.go:51 | for every integer, including 1 and non-positive values, the final test `sum == n && n != 1` holds iff n is perfect |
| `Divisors.PerfectExamples` | main.go:41-52 | 6 and 28 are perfect; 1, 12, 0 and -6 are not |
| `Classifier.IsArmstrong` | main.go:54-67 | holds iff the sum of each digit raised to the digit count equals n; true at 0, false for every negative n |
| `Decimal.NumDigitsBounds` | main.go:56-59 | the first loop's count d for n > 0 is at least 1 and satisfies 10^(d-1) <= n < 10^d |
| `Decimal.NumDigitsCharacterized` | main.go:56-59 | for n > 0, the digit count is d iff 10^(d-1) <= n < 10^d |
| `Decimal.DigitsRepresent` | main.go:61-65 | the digits the loops peel off (n % 10, then n / 10) are decimal digits without a leading zero, and their value is n |
| `Decimal.FromDigitsRoundTrip` | main.go:61-65 | every canonical digit sequence is the sequence the loops peel off from its value, so the representation is unique |
| `Decimal.ArmstrongNonPositive` | main.go:55-66 | for n <= 0 both loops run no iteration, so n is Armstrong iff n == 0 |
| `Decimal.ArmstrongOneDigit` | main.go:55-66 | every n in 0..9 is an Armstrong number |
| `Decimal.ArmstrongExamples` | main.go:54-67 | 0, 153, 370, 371, 407 and 9474 are Armstrong numbers; 10, 100 and -153 are not |
| `Classifier.DigitSum` | main.go:69-77 | the result is the sum of the decimal digits of abs(n), and it is non-negative |
| `Decimal.DigitSumOfProperties` | main.go:70-76 | the digit sum is non-negative, is 0 at 0, and is the same for -n as for n |
| `Decimal.DigitSumExamples` | main.go:69-77 | the digit sum is 16 for 493 and for -493, 0 for 0, 10 for 28 and 9 for 153 |
| `Classifier.Properties` | main.go:110-118 | the list has 1 or 2 elements. The first is `"odd"` iff `t % 2 != 0` and `"even"` otherwise. `"armstrong"` is present, as the second element, iff the input was integer-valued and t is an Armstrong number. No other string appears |
| `Classifier.Classify` | main.go:110-127 | each computed field matches its definition: primality, perfection, digit sum of abs(t), and the property list with its parity tag and Armstrong tag |

`Arith.Pow` itself, the exact integer power b^e replacing `math.Pow` at
main.go:63, carries no contract of its own; the two rows above state what is
proved about it. `Classifier.DocumentedClassifications` is an example method
with no contract. It proves the two documented outcomes of main.go:110-127:
28 is perfect, has properties `["even"]` and digit sum 10; 153 is not prime and
has properties `["odd", "armstrong"]`.

## Left out

- HTTP handling is not modelled. That covers the query-parameter lookup, the
  400 replies for a missing or unparsable number, status codes, routing,
  CORS and the listening server (main.go:94-101, 129-139). This is transport
  plumbing over `net/http`, gorilla/mux and rs/cors.
- `getFunFact` (main.go:79-92) is not modelled. It is a network GET whose
  errors are folded into the returned string. For the same reason
  `Classification` has no fun-fact field.
- `strconv.ParseFloat`, the `float64` input and the truncation `int(n)`
  (main.go:103-108) are not modelled. The caller passes the truncated integer
  and the integer-valued flag. For the same reason `Classification` has no
  echoed float field.
- JSON encoding of `Response` and `ErrorResponse` (main.go:15-27, 120-130) is
  not modelled. A library serializer does it.
- `Arith.Isqrt`: float rounding in `math.Sqrt` is not modelled; the model's
  bound is the exact floor square root. Go's bound differs already below 2^53:
  for n = k^2 - 1 with k > 2^26, `int(math.Sqrt(float64(n)))` is k, not k - 1.
  The first such n is 2^52 + 2^27 = 4503599761588224, with bound 67108865
  where the floor square root is 67108864. The extra candidate k never
  divides k^2 - 1, so `isPrime` and `isPerfect` give the same verdicts as the
  model up to 2^53.
- `Arith.Isqrt`: the riscv64 behaviour is not modelled. There `FCVT.L.D` turns
  NaN into 2^63-1, so for n < 0 the loop of `isPerfect` (main.go:43) would run
  while `i <= MaxInt64`, which stays true after `i++` wraps, and would never
  return. `isPrime` returns earlier, at its `n < 2` test. The model assumes
  `int(NaN)` is below 2.
- `Arith.Pow`: float rounding in `math.Pow` beyond 2^53 is not modelled. The
  model uses exact integer powers.
- `Arith.Abs` / `Classifier.DigitSum`: the round trip `int(math.Abs(float64(n)))`
  (main.go:71) is not modelled. It rounds any |n| above 2^53: Go's
  `digitSum(9007199254740993)` would sum the digits of 9007199254740992 and
  give 77, where the model gives 78. `classifyNumber` only passes `int(n)`
  of a `float64`, and for such a value the round trip is exact.
- 64-bit wrap-around is not modelled. This covers sums in `isPerfect` and
  `isArmstrong` that overflow, and `math.Abs` of the minimum `int`
  (main.go:71). All integers are unbounded.
