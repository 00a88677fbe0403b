/**
 * The hypergeometric distribution calculator (math_solver/hypgeom_dist.py): from a
 * population of N items, M of them successes, a sample of n is drawn without
 * replacement. The script prints P(X = k) for every possible number k of successes
 * in the sample, the sum of those probabilities, the expectation and the variance,
 * all as exact fractions; Dafny's `real` is exact like Python's `Fraction`. The three
 * integers arrive as parameters rather than from `input()`.
 */
module Hypgeom {
  import opened Binomial

  /** Dividing a multiple of `d` by `d` is exact. */
  lemma DivExact(q: int, d: int)
    requires d > 0
    ensures (d * q) % d == 0 && (d * q) / d == q
  {
    var r, m := (d * q) / d, (d * q) % d;
    assert d * (q - r) == m;
    if q - r > 0 {
      MulAtLeast(d, q - r);
    } else if q - r < 0 {
      MulAtLeast(d, r - q);
    }
  }

  lemma MulAtLeast(d: int, t: int)
    requires d > 0 && t > 0
    ensures d * t >= d
  {
  }

  /** A product of naturals is positive exactly when both factors are. */
  lemma MulPositive(x: nat, y: nat)
    ensures x * y >= 0 && (x * y > 0 <==> x > 0 && y > 0)
  {
    if x > 0 && y > 0 {
      MulAtLeast(x, y);
    }
  }

  lemma MulRegroup(k: int, x: int, y: int, a: int, u: int)
    requires k * x == a * u
    ensures k * (x * y) == a * (u * y)
  {
    calc {
      k * (x * y);
      (k * x) * y;
      (a * u) * y;
      a * (u * y);
    }
  }

  /**
   * `comb`, the fallback the script defines before Python 3.10 (`math.comb`, used
   * from 3.10 on, gives the same numbers): 0 off the range, 1 at the ends, and
   * otherwise a running product over the smaller of k and n - k in which every floor
   * division is exact.
   */
  method Comb(n: int, k: int) returns (r: int)
    ensures r == Binom(n, k)
  {
    if k < 0 || k > n {
      return 0;
    }
    if k == 0 || k == n {
      return 1;
    }
    var small := if k < n - k then k else n - k;
    Symmetry(n, k);
    var result := 1;
    for i := 1 to small + 1
      invariant result == Binom(n - small + i - 1, i - 1)
    {
      CombStep(n - small + i, i, result);
      result := result * (n - small + i) / i;
    }
    return result;
  }

  /** One step of the running product: C(m - 1, i - 1) m / i is exactly C(m, i). */
  lemma CombStep(m: int, i: int, result: int)
    requires m >= 1 && i >= 1 && result == Binom(m - 1, i - 1)
    ensures (result * m) % i == 0 && (result * m) / i == Binom(m, i)
  {
    Absorption(m, i);
    assert result * m == i * Binom(m, i);
    DivExact(Binom(m, i), i);
  }

  /** The parameter check: N >= 1, 0 <= M <= N and 0 <= n <= N. */
  predicate ValidParams(N: int, M: int, n: int)
  {
    N >= 1 && 0 <= M <= N && 0 <= n <= N
  }

  /** `k_min`: at least n + M - N successes must be drawn, and never fewer than 0. */
  function KMin(N: int, M: int, n: int): int
  {
    if 0 > n + M - N then 0 else n + M - N
  }

  /** `k_max`: no more successes than draws, nor than there are successes. */
  function KMax(N: int, M: int, n: int): int
  {
    if n < M then n else M
  }

  /** k lies in [k_min, k_max]. */
  predicate InSupport(N: int, M: int, n: int, k: int)
  {
    KMin(N, M, n) <= k <= KMax(N, M, n)
  }

  /** The integers from lo up to, not including, hi. */
  function Range(lo: int, hi: int): (r: set<int>)
    ensures forall j :: j in r <==> lo <= j < hi
    decreases hi - lo
  {
    if lo >= hi then {} else {lo} + Range(lo + 1, hi)
  }

  /** For valid parameters the range of k is never empty, so the "invalid combination" exit cannot be taken. */
  lemma SupportNonEmpty(N: int, M: int, n: int)
    requires ValidParams(N, M, n)
    ensures 0 <= KMin(N, M, n) <= KMax(N, M, n) <= n
  {
  }

  /** The number of samples with exactly k successes, C(M, k) C(N - M, n - k), is positive exactly on the range [k_min, k_max]. */
  lemma SupportExact(N: int, M: int, n: int, k: int)
    requires ValidParams(N, M, n)
    ensures Conv(M, N - M, n)(k) >= 0
    ensures Conv(M, N - M, n)(k) > 0 <==> InSupport(N, M, n, k)
  {
    BinomPositive(M, k);
    BinomPositive(N - M, n - k);
    MulPositive(Binom(M, k), Binom(N - M, n - k));
  }

  /** P(X = k) = C(M, k) C(N - M, n - k) / C(N, n), and 0 when C(N, n) is 0. */
  function Prob(N: int, M: int, n: int, k: int): real
  {
    if Binom(N, n) != 0 then (Binom(M, k) * Binom(N - M, n - k)) as real / Binom(N, n) as real else 0.0
  }

  /** k |-> P(X = k). */
  function Pmf(N: int, M: int, n: int): int -> real
  {
    k => Prob(N, M, n, k)
  }

  /** f(lo) + ... + f(hi - 1) over the reals, summed upwards as `sum` does. */
  function SumReal(f: int -> real, lo: int, hi: int): real
    decreases hi - lo
  {
    if lo >= hi then 0.0 else SumReal(f, lo, hi - 1) + f(hi - 1)
  }

  lemma AddOver(x: real, y: real, d: real)
    requires d != 0.0
    ensures x / d + y / d == (x + y) / d
  {
  }

  /** On [lo, hi), every g(k) is the integer f(k) over d. */
  predicate OverDenominator(f: int -> int, g: int -> real, d: real, lo: int, hi: int)
  {
    d > 0.0 && forall k :: lo <= k < hi ==> g(k) == f(k) as real / d
  }

  /** A real sum of integers over a common positive denominator is the integer sum over that denominator. */
  lemma {:induction false} SumRealOfInts(f: int -> int, g: int -> real, d: real, lo: int, hi: int)
    requires d > 0.0
    requires OverDenominator(f, g, d, lo, hi)
    ensures SumReal(g, lo, hi) == Sum(f, lo, hi) as real / d
    decreases hi - lo
  {
    if lo < hi {
      SumRealOfInts(f, g, d, lo, hi - 1);
      SumSplit(f, lo, hi - 1, hi);
      AddOver(Sum(f, lo, hi - 1) as real, f(hi - 1) as real, d);
    }
  }

  /** Outside [k_min, k_max] the terms vanish, so summing over [0, n] gives the same total. */
  lemma SupportSum(f: int -> int, N: int, M: int, n: int)
    requires ValidParams(N, M, n)
    requires forall k :: 0 <= k <= n && !InSupport(N, M, n, k) ==> f(k) == 0
    ensures Sum(f, KMin(N, M, n), KMax(N, M, n) + 1) == Sum(f, 0, n + 1)
  {
    var lo, hi := KMin(N, M, n), KMax(N, M, n);
    SumSplit(f, 0, lo, n + 1);
    SumSplit(f, lo, hi + 1, n + 1);
    SumZero(f, 0, lo);
    SumZero(f, hi + 1, n + 1);
  }

  /**
   * The probabilities over [k_min, k_max] sum to exactly 1, as the printed check
   * claims: by Vandermonde's identity the counts C(M, k) C(N - M, n - k) add up to
   * C(N, n).
   */
  lemma ProbabilitiesSumToOne(N: int, M: int, n: int)
    requires ValidParams(N, M, n)
    ensures SumReal(Pmf(N, M, n), KMin(N, M, n), KMax(N, M, n) + 1) == 1.0
  {
    BinomPositive(N, n);
    forall k | 0 <= k <= n && !InSupport(N, M, n, k)
      ensures Conv(M, N - M, n)(k) == 0
    {
      SupportExact(N, M, n, k);
    }
    SupportSum(Conv(M, N - M, n), N, M, n);
    Vandermonde(M, N - M, n);
    forall k
      ensures Pmf(N, M, n)(k) == Conv(M, N - M, n)(k) as real / Binom(N, n) as real
    {
    }
    assert OverDenominator(Conv(M, N - M, n), Pmf(N, M, n), Binom(N, n) as real, KMin(N, M, n), KMax(N, M, n) + 1);
    SumRealOfInts(Conv(M, N - M, n), Pmf(N, M, n), Binom(N, n) as real, KMin(N, M, n), KMax(N, M, n) + 1);
    DivSelf(Binom(N, n) as real);
  }

  /** nM/N over the reals. */
  function ExpectationFormula(N: real, M: real, n: real): real
    requires N > 0.0
  {
    (n * M) / N
  }

  /** `expectation = Fraction(n*M, N)`: it lies between 0 and n. */
  function Expectation(N: int, M: int, n: int): (e: real)
    requires ValidParams(N, M, n)
    ensures 0.0 <= e <= n as real
  {
    ExpectationBounds(N as real, M as real, n as real);
    ExpectationFormula(N as real, M as real, n as real)
  }

  lemma ExpectationBounds(N: real, M: real, n: real)
    requires N > 0.0 && 0.0 <= M <= N && n >= 0.0
    ensures 0.0 <= ExpectationFormula(N, M, n) <= n
  {
    assert 0.0 <= n * M <= n * N by {
      assert n * N - n * M == n * (N - M);
    }
    DivBounds(n * M, n, N);
  }

  lemma DivBounds(p: real, q: real, d: real)
    requires d > 0.0 && 0.0 <= p <= q * d
    ensures 0.0 <= p / d <= q
  {
  }

  /** E (N - M)/N (N - n)/(N - 1) over the reals. */
  function VarianceFormula(N: real, M: real, n: real): real
    requires N > 1.0
  {
    ExpectationFormula(N, M, n) * ((N - M) / N) * ((N - n) / (N - 1.0))
  }

  /** `variance`: E (N - M)/N (N - n)/(N - 1) when N > 1, and 0 for a population of one; never negative. */
  function Variance(N: int, M: int, n: int): (v: real)
    requires ValidParams(N, M, n)
    ensures v >= 0.0
  {
    if N > 1 then
      VarianceBounds(N as real, M as real, n as real);
      VarianceFormula(N as real, M as real, n as real)
    else 0.0
  }

  lemma VarianceBounds(N: real, M: real, n: real)
    requires N > 1.0 && 0.0 <= M <= N && 0.0 <= n <= N
    ensures VarianceFormula(N, M, n) >= 0.0
  {
    ExpectationBounds(N, M, n);
    DivNonNegative(N - M, N);
    DivNonNegative(N - n, N - 1.0);
    ProductNonNegative(ExpectationFormula(N, M, n), (N - M) / N, (N - n) / (N - 1.0));
  }

  lemma DivSelf(x: real)
    requires x != 0.0
    ensures x / x == 1.0
  {
  }

  lemma DivNonNegative(x: real, y: real)
    requires x >= 0.0 && y > 0.0
    ensures x / y >= 0.0
  {
  }

  lemma ProductNonNegative(x: real, y: real, z: real)
    requires x >= 0.0 && y >= 0.0 && z >= 0.0
    ensures x * y * z >= 0.0
  {
  }

  /** The terms k C(M, k) C(N - M, n - k) of the mean. */
  function KConv(a: int, b: int, n: int): int -> int
  {
    k => k * (Binom(a, k) * Binom(b, n - k))
  }

  /** k |-> k P(X = k). */
  function MeanTerm(N: int, M: int, n: int): int -> real
  {
    k => MeanAt(N, M, n, k)
  }

  /** k P(X = k). */
  function MeanAt(N: int, M: int, n: int, k: int): real
  {
    k as real * Prob(N, M, n, k)
  }

  /** The terms C(a - d, k - d) C(b, n - k): Vandermonde's terms for a - d and n - d, moved up by d. */
  function ConvUp(a: int, b: int, n: int, d: int): int -> int
  {
    k => Binom(a - d, k - d) * Binom(b, n - k)
  }

  /** Vandermonde's identity for the terms moved up by d: their sum over [0, n] is C(a + b - d, n - d). */
  lemma ConvUpSum(a: int, b: int, n: int, d: int)
    requires 0 <= d <= a && b >= 0 && d <= n + 1
    ensures Sum(ConvUp(a, b, n, d), 0, n + 1) == Binom(a + b - d, n - d)
  {
    var lower := Conv(a - d, b, n - d);
    forall k | 0 <= k < n + 1
      ensures ConvUp(a, b, n, d)(k) == lower(k - d)
    {
      assert n - d - (k - d) == n - k;
    }
    SumShift(lower, ConvUp(a, b, n, d), d, 0, n + 1);
    forall k | -d <= k < 0
      ensures lower(k) == 0
    {
      assert Binom(a - d, k) == 0;
    }
    SumZero(lower, -d, 0);
    SumSplit(lower, -d, 0, n + 1 - d);
    Vandermonde(a - d, b, n - d);
    assert Sum(lower, 0, n + 1 - d) == Binom(a - d + b, n - d);
  }

  /** The sum over k of k C(a, k) C(b, n - k) is a C(a + b - 1, n - 1). */
  lemma KVandermonde(a: int, b: int, n: int)
    requires a >= 0 && b >= 0 && n >= 0
    ensures Sum(KConv(a, b, n), 0, n + 1) == a * Binom(a + b - 1, n - 1)
  {
    if a == 0 {
      forall k | 0 <= k < n + 1
        ensures KConv(a, b, n)(k) == 0
      {
        assert k == 0 || Binom(a, k) == 0;
      }
      SumZero(KConv(a, b, n), 0, n + 1);
    } else {
      forall k | 0 <= k < n + 1
        ensures KConv(a, b, n)(k) == a * ConvUp(a, b, n, 1)(k)
      {
        Absorption(a, k);
        MulRegroup(k, Binom(a, k), Binom(b, n - k), a, Binom(a - 1, k - 1));
      }
      SumScale(ConvUp(a, b, n, 1), KConv(a, b, n), a, 0, n + 1);
      ConvUpSum(a, b, n, 1);
    }
  }

  lemma ScaleOver(k: int, c: int, d: real)
    requires d != 0.0
    ensures k as real * (c as real / d) == (k * c) as real / d
  {
  }

  /**
   * The counting form of the mean: N times the sum over [k_min, k_max] of
   * k C(M, k) C(N - M, n - k) is nM C(N, n).
   */
  lemma MeanCount(N: int, M: int, n: int)
    requires ValidParams(N, M, n)
    ensures N * Sum(KConv(M, N - M, n), KMin(N, M, n), KMax(N, M, n) + 1) == n * M * Binom(N, n)
  {
    MeanSupport(N, M, n);
    KVandermonde(M, N - M, n);
    Absorption(N, n);
    MeanCountStep(N, M, n, Binom(N, n), Binom(N - 1, n - 1), Sum(KConv(M, N - M, n), KMin(N, M, n), KMax(N, M, n) + 1));
  }

  /** The terms of the mean vanish off [k_min, k_max]. */
  lemma MeanSupport(N: int, M: int, n: int)
    requires ValidParams(N, M, n)
    ensures Sum(KConv(M, N - M, n), KMin(N, M, n), KMax(N, M, n) + 1) == Sum(KConv(M, N - M, n), 0, n + 1)
  {
    forall k | 0 <= k <= n && !InSupport(N, M, n, k)
      ensures KConv(M, N - M, n)(k) == 0
    {
      SupportExact(N, M, n, k);
      var x := Binom(M, k) * Binom(N - M, n - k);
      assert x == Conv(M, N - M, n)(k) == 0;
      assert KConv(M, N - M, n)(k) == k * x;
    }
    SupportSum(KConv(M, N - M, n), N, M, n);
  }

  lemma MeanCountStep(N: int, M: int, n: int, c: int, b: int, total: int)
    requires n * c == N * b && total == M * b
    ensures N * total == n * M * c
  {
    calc {
      N * total;
      N * (M * b);
      M * (N * b);
      M * (n * c);
      n * M * c;
    }
  }

  /**
   * The printed expectation is the mean of the distribution: the sum over [k_min,
   * k_max] of k P(X = k) is exactly nM/N.
   */
  lemma MeanIsExpectation(N: int, M: int, n: int)
    requires ValidParams(N, M, n)
    ensures SumReal(MeanTerm(N, M, n), KMin(N, M, n), KMax(N, M, n) + 1) == Expectation(N, M, n)
  {
    MeanAsCount(N, M, n);
    MeanCount(N, M, n);
    MeanFromCount(Sum(KConv(M, N - M, n), KMin(N, M, n), KMax(N, M, n) + 1), Binom(N, n), N, M, n);
  }

  /** k P(X = k) = k C(M, k) C(N - M, n - k) / C(N, n). */
  lemma MeanTermValue(N: int, M: int, n: int, k: int)
    requires Binom(N, n) > 0
    ensures MeanTerm(N, M, n)(k) == KConv(M, N - M, n)(k) as real / Binom(N, n) as real
  {
    var x := Binom(M, k) * Binom(N - M, n - k);
    var c := Binom(N, n);
    ScaleOver(k, x, c as real);
    calc {
      MeanTerm(N, M, n)(k);
      MeanAt(N, M, n, k);
      k as real * Prob(N, M, n, k);
      { assert Prob(N, M, n, k) == x as real / c as real; }
      k as real * (x as real / c as real);
      (k * x) as real / c as real;
      { assert KConv(M, N - M, n)(k) == k * x; }
      KConv(M, N - M, n)(k) as real / c as real;
    }
  }

  /** The sum of k P(X = k) is the count sum of k C(M, k) C(N - M, n - k) over C(N, n). */
  lemma MeanAsCount(N: int, M: int, n: int)
    requires ValidParams(N, M, n)
    ensures Binom(N, n) > 0
    ensures SumReal(MeanTerm(N, M, n), KMin(N, M, n), KMax(N, M, n) + 1)
      == Sum(KConv(M, N - M, n), KMin(N, M, n), KMax(N, M, n) + 1) as real / Binom(N, n) as real
  {
    BinomPositive(N, n);
    MeanTermsOverCount(N, M, n);
    SumRealOfInts(KConv(M, N - M, n), MeanTerm(N, M, n), Binom(N, n) as real, KMin(N, M, n), KMax(N, M, n) + 1);
  }

  lemma MeanTermsOverCount(N: int, M: int, n: int)
    requires Binom(N, n) > 0
    ensures OverDenominator(KConv(M, N - M, n), MeanTerm(N, M, n), Binom(N, n) as real, KMin(N, M, n), KMax(N, M, n) + 1)
  {
    forall k
      ensures MeanTerm(N, M, n)(k) == KConv(M, N - M, n)(k) as real / Binom(N, n) as real
    {
      MeanTermValue(N, M, n, k);
    }
  }

  /** s / c = t / d whenever d s = t c, for positive c and d. */
  lemma CrossDivide(s: real, c: real, t: real, d: real)
    requires c > 0.0 && d > 0.0 && d * s == t * c
    ensures s / c == t / d
  {
  }

  /** From the counting identity N s = nM c to the quotient s / c = nM/N. */
  lemma MeanFromCount(s: int, c: int, N: int, M: int, n: int)
    requires c > 0 && N > 0 && N * s == n * M * c
    ensures s as real / c as real == ExpectationFormula(N as real, M as real, n as real)
  {
    ToRealMul(N, s);
    ToRealMul(n, M);
    ToRealMul(n * M, c);
    CrossDivide(s as real, c as real, n as real * M as real, N as real);
  }

  /** The terms k (k - 1) C(a, k) C(b, n - k) of the second factorial moment. */
  function FConv(a: int, b: int, n: int): int -> int
  {
    k => (k * (k - 1)) * (Binom(a, k) * Binom(b, n - k))
  }

  lemma AbsorbTwice(k: int, x: int, a: int, u: int, v: int, y: int)
    requires k * x == a * u && (k - 1) * u == (a - 1) * v
    ensures (k * (k - 1)) * (x * y) == (a * (a - 1)) * (v * y)
  {
    calc {
      (k * (k - 1)) * (x * y);
      (k - 1) * ((k * x) * y);
      (k - 1) * ((a * u) * y);
      a * (((k - 1) * u) * y);
      a * (((a - 1) * v) * y);
      (a * (a - 1)) * (v * y);
    }
  }

  /** The sum over k of k (k - 1) C(a, k) C(b, n - k) is a (a - 1) C(a + b - 2, n - 2). */
  lemma K2Vandermonde(a: int, b: int, n: int)
    requires a >= 0 && b >= 0 && n >= 2
    ensures Sum(FConv(a, b, n), 0, n + 1) == (a * (a - 1)) * Binom(a + b - 2, n - 2)
  {
    if a <= 1 {
      forall k | 0 <= k < n + 1
        ensures FConv(a, b, n)(k) == 0
      {
        if k <= 1 {
          assert k * (k - 1) == 0;
        } else {
          assert Binom(a, k) == 0;
        }
      }
      SumZero(FConv(a, b, n), 0, n + 1);
      assert a * (a - 1) == 0;
      assert (a * (a - 1)) * Binom(a + b - 2, n - 2) == 0;
    } else {
      forall k | 0 <= k < n + 1
        ensures FConv(a, b, n)(k) == (a * (a - 1)) * ConvUp(a, b, n, 2)(k)
      {
        Absorption(a, k);
        Absorption(a - 1, k - 1);
        AbsorbTwice(k, Binom(a, k), a, Binom(a - 1, k - 1), Binom(a - 2, k - 2), Binom(b, n - k));
      }
      SumScale(ConvUp(a, b, n, 2), FConv(a, b, n), a * (a - 1), 0, n + 1);
      ConvUpSum(a, b, n, 2);
    }
  }

  lemma SecondCountStep(N: int, M: int, n: int, c: int, b1: int, b2: int, total: int)
    requires n * c == N * b1 && (n - 1) * b1 == (N - 1) * b2
    requires total == (M * (M - 1)) * b2
    ensures (N * (N - 1)) * total == (n * (n - 1) * M * (M - 1)) * c
  {
    calc {
      (N * (N - 1)) * total;
      (M * (M - 1)) * (N * ((N - 1) * b2));
      (M * (M - 1)) * (N * ((n - 1) * b1));
      (M * (M - 1)) * ((n - 1) * (N * b1));
      (M * (M - 1)) * ((n - 1) * (n * c));
      (n * (n - 1) * M * (M - 1)) * c;
    }
  }

  /**
   * The counting form of the second factorial moment: N (N - 1) times the sum over
   * [k_min, k_max] of k (k - 1) C(M, k) C(N - M, n - k) is n (n - 1) M (M - 1) C(N, n).
   */
  lemma SecondCount(N: int, M: int, n: int)
    requires ValidParams(N, M, n) && N > 1
    ensures (N * (N - 1)) * Sum(FConv(M, N - M, n), KMin(N, M, n), KMax(N, M, n) + 1)
      == (n * (n - 1) * M * (M - 1)) * Binom(N, n)
  {
    SecondSupport(N, M, n);
    if n < 2 {
      SecondCountFew(N, M, n);
    } else {
      SecondCountMany(N, M, n);
    }
  }

  /** The count identity of `SecondCount` over the whole range 0..n when fewer than two items are drawn. */
  lemma SecondCountFew(N: int, M: int, n: int)
    requires ValidParams(N, M, n) && N > 1 && n < 2
    ensures (N * (N - 1)) * Sum(FConv(M, N - M, n), 0, n + 1) == (n * (n - 1) * M * (M - 1)) * Binom(N, n)
  {
    SecondSmall(M, N - M, n);
    SecondCountSmall(N, M, n, Binom(N, n), Sum(FConv(M, N - M, n), 0, n + 1));
  }

  /** The count identity of `SecondCount` over the whole range 0..n when at least two items are drawn. */
  lemma SecondCountMany(N: int, M: int, n: int)
    requires ValidParams(N, M, n) && N > 1 && n >= 2
    ensures (N * (N - 1)) * Sum(FConv(M, N - M, n), 0, n + 1) == (n * (n - 1) * M * (M - 1)) * Binom(N, n)
  {
    K2Vandermonde(M, N - M, n);
    Absorption(N, n);
    Absorption(N - 1, n - 1);
    SecondCountStep(N, M, n, Binom(N, n), Binom(N - 1, n - 1), Binom(N - 2, n - 2), Sum(FConv(M, N - M, n), 0, n + 1));
  }


  lemma SecondCountSmall(N: int, M: int, n: int, c: int, total: int)
    requires (n == 0 || n == 1) && total == 0
    ensures (N * (N - 1)) * total == (n * (n - 1) * M * (M - 1)) * c
  {
    assert n * (n - 1) == 0;
  }

  /** The terms of the second factorial moment vanish off [k_min, k_max]. */
  lemma SecondSupport(N: int, M: int, n: int)
    requires ValidParams(N, M, n)
    ensures Sum(FConv(M, N - M, n), KMin(N, M, n), KMax(N, M, n) + 1) == Sum(FConv(M, N - M, n), 0, n + 1)
  {
    forall k | 0 <= k <= n && !InSupport(N, M, n, k)
      ensures FConv(M, N - M, n)(k) == 0
    {
      SupportExact(N, M, n, k);
      var x := Binom(M, k) * Binom(N - M, n - k);
      assert x == Conv(M, N - M, n)(k) == 0;
      assert FConv(M, N - M, n)(k) == (k * (k - 1)) * x;
    }
    SupportSum(FConv(M, N - M, n), N, M, n);
  }

  /** With fewer than two draws every k (k - 1) is 0. */
  lemma SecondSmall(a: int, b: int, n: int)
    requires 0 <= n < 2
    ensures Sum(FConv(a, b, n), 0, n + 1) == 0
  {
    forall k | 0 <= k < n + 1
      ensures FConv(a, b, n)(k) == 0
    {
      assert k * (k - 1) == 0;
    }
    SumZero(FConv(a, b, n), 0, n + 1);
  }

  /** k (k - 1) P(X = k). */
  function SecondAt(N: int, M: int, n: int, k: int): real
  {
    (k * (k - 1)) as real * Prob(N, M, n, k)
  }

  /** k |-> k (k - 1) P(X = k). */
  function SecondTerm(N: int, M: int, n: int): int -> real
  {
    k => SecondAt(N, M, n, k)
  }

  /** k (k - 1) P(X = k) = k (k - 1) C(M, k) C(N - M, n - k) / C(N, n). */
  lemma SecondTermValue(N: int, M: int, n: int, k: int)
    requires Binom(N, n) > 0
    ensures SecondTerm(N, M, n)(k) == FConv(M, N - M, n)(k) as real / Binom(N, n) as real
  {
    var x := Binom(M, k) * Binom(N - M, n - k);
    var c := Binom(N, n);
    ScaleOver(k * (k - 1), x, c as real);
    calc {
      SecondTerm(N, M, n)(k);
      SecondAt(N, M, n, k);
      (k * (k - 1)) as real * Prob(N, M, n, k);
      { assert Prob(N, M, n, k) == x as real / c as real; }
      (k * (k - 1)) as real * (x as real / c as real);
      ((k * (k - 1)) * x) as real / c as real;
      { assert FConv(M, N - M, n)(k) == (k * (k - 1)) * x; }
      FConv(M, N - M, n)(k) as real / c as real;
    }
  }

  /** The second factorial moment over the support is the count sum over C(N, n). */
  lemma SecondAsCount(N: int, M: int, n: int)
    requires ValidParams(N, M, n)
    ensures Binom(N, n) > 0
    ensures SumReal(SecondTerm(N, M, n), KMin(N, M, n), KMax(N, M, n) + 1)
      == Sum(FConv(M, N - M, n), KMin(N, M, n), KMax(N, M, n) + 1) as real / Binom(N, n) as real
  {
    BinomPositive(N, n);
    SecondTermsOverCount(N, M, n);
    SumRealOfInts(FConv(M, N - M, n), SecondTerm(N, M, n), Binom(N, n) as real, KMin(N, M, n), KMax(N, M, n) + 1);
  }

  lemma SecondTermsOverCount(N: int, M: int, n: int)
    requires Binom(N, n) > 0
    ensures OverDenominator(FConv(M, N - M, n), SecondTerm(N, M, n), Binom(N, n) as real, KMin(N, M, n), KMax(N, M, n) + 1)
  {
    forall k
      ensures SecondTerm(N, M, n)(k) == FConv(M, N - M, n)(k) as real / Binom(N, n) as real
    {
      SecondTermValue(N, M, n, k);
    }
  }

  /** n (n - 1) M (M - 1) / (N (N - 1)) over the reals: the second factorial moment of the distribution. */
  function SecondFactorial(N: real, M: real, n: real): real
    requires N > 1.0
  {
    (n * (n - 1.0) * M * (M - 1.0)) / (N * (N - 1.0))
  }

  /** The sum over the support of k (k - 1) P(X = k) is n (n - 1) M (M - 1) / (N (N - 1)). */
  lemma SecondMoment(N: int, M: int, n: int)
    requires ValidParams(N, M, n) && N > 1
    ensures SumReal(SecondTerm(N, M, n), KMin(N, M, n), KMax(N, M, n) + 1) == SecondFactorial(N as real, M as real, n as real)
  {
    SecondAsCount(N, M, n);
    SecondCount(N, M, n);
    SecondFromCount(Sum(FConv(M, N - M, n), KMin(N, M, n), KMax(N, M, n) + 1), Binom(N, n), N, M, n);
  }

  /** From the counting identity N (N - 1) s = n (n - 1) M (M - 1) c to the quotient s / c. */
  lemma SecondFromCount(s: int, c: int, N: int, M: int, n: int)
    requires c > 0 && N > 1 && (N * (N - 1)) * s == (n * (n - 1) * M * (M - 1)) * c
    ensures s as real / c as real == SecondFactorial(N as real, M as real, n as real)
  {
    MulAtLeast(N, N - 1);
    ToRealMul(N, N - 1);
    ToRealMul(N * (N - 1), s);
    ToRealMul(n, n - 1);
    ToRealMul(n * (n - 1), M);
    ToRealMul(n * (n - 1) * M, M - 1);
    ToRealMul(n * (n - 1) * M * (M - 1), c);
    CrossDivide(s as real, c as real, n as real * (n as real - 1.0) * M as real * (M as real - 1.0), N as real * (N as real - 1.0));
  }

  /** Termwise on [lo, hi), out = x f + y g + z h. */
  predicate Combines(out: int -> real, f: int -> real, g: int -> real, h: int -> real, x: real, y: real, z: real, lo: int, hi: int)
  {
    forall k :: lo <= k < hi ==> out(k) == x * f(k) + y * g(k) + z * h(k)
  }

  /** Linearity of real sums: a termwise combination x f + y g + z h sums to the same combination of the sums. */
  lemma {:induction false} SumRealCombine(f: int -> real, g: int -> real, h: int -> real, out: int -> real,
                                          x: real, y: real, z: real, lo: int, hi: int)
    requires Combines(out, f, g, h, x, y, z, lo, hi)
    ensures SumReal(out, lo, hi) == x * SumReal(f, lo, hi) + y * SumReal(g, lo, hi) + z * SumReal(h, lo, hi)
    decreases hi - lo
  {
    if lo < hi {
      SumRealCombine(f, g, h, out, x, y, z, lo, hi - 1);
    }
  }

  /** (k - E)^2 P(X = k). */
  function SpreadAt(N: int, M: int, n: int, k: int): real
    requires ValidParams(N, M, n)
  {
    (k as real - Expectation(N, M, n)) * (k as real - Expectation(N, M, n)) * Prob(N, M, n, k)
  }

  /** k |-> (k - E)^2 P(X = k). */
  function SpreadTerm(N: int, M: int, n: int): int -> real
    requires ValidParams(N, M, n)
  {
    k => SpreadAt(N, M, n, k)
  }

  lemma SquareSplit(x: real, e: real, p: real, q: real)
    requires q == x * (x - 1.0)
    ensures (x - e) * (x - e) * p == 1.0 * (q * p) + (1.0 - 2.0 * e) * (x * p) + (e * e) * p
  {
  }

  /** Termwise, (k - E)^2 P = k (k - 1) P + (1 - 2E) k P + E^2 P. */
  lemma SpreadSplit(N: int, M: int, n: int, k: int)
    requires ValidParams(N, M, n)
    ensures var e := Expectation(N, M, n);
      SpreadTerm(N, M, n)(k) == 1.0 * SecondTerm(N, M, n)(k) + (1.0 - 2.0 * e) * MeanTerm(N, M, n)(k) + (e * e) * Pmf(N, M, n)(k)
  {
    var p := Prob(N, M, n, k);
    assert (k * (k - 1)) as real == k as real * (k as real - 1.0);
    SquareSplit(k as real, Expectation(N, M, n), p, (k * (k - 1)) as real);
  }

  lemma ToRealMul(x: int, y: int)
    ensures (x * y) as real == x as real * y as real
  {
  }

  /**
   * The variance formula agrees with the moments: the second factorial moment plus
   * the mean minus the squared mean is E (N - M)/N (N - n)/(N - 1).
   */
  lemma VarianceAlgebra(N: real, M: real, n: real)
    requires N > 1.0
    ensures SecondFactorial(N, M, n) + ExpectationFormula(N, M, n) - ExpectationFormula(N, M, n) * ExpectationFormula(N, M, n)
      == VarianceFormula(N, M, n)
  {
  }

  /** Termwise on [lo, hi), spread = second + (1 - 2e) mean + e^2 pmf. */
  predicate SplitsInto(spread: int -> real, second: int -> real, mean: int -> real, pmf: int -> real, e: real, lo: int, hi: int)
  {
    Combines(spread, second, mean, pmf, 1.0, 1.0 - 2.0 * e, e * e, lo, hi)
  }

  /**
   * The spread from the moments: if (k - e)^2 P splits termwise into k (k - 1) P,
   * (1 - 2e) k P and e^2 P, and those sum to f, e and 1, then the spread sums to
   * f + e - e^2.
   */
  lemma SpreadFromMoments(second: int -> real, mean: int -> real, pmf: int -> real, spread: int -> real,
                          f: real, e: real, lo: int, hi: int)
    requires SplitsInto(spread, second, mean, pmf, e, lo, hi)
    requires SumReal(second, lo, hi) == f && SumReal(mean, lo, hi) == e && SumReal(pmf, lo, hi) == 1.0
    ensures SumReal(spread, lo, hi) == f + e - e * e
  {
    SumRealCombine(second, mean, pmf, spread, 1.0, 1.0 - 2.0 * e, e * e, lo, hi);
    CombineMoments(SumReal(second, lo, hi), SumReal(mean, lo, hi), SumReal(pmf, lo, hi), f, e);
  }

  lemma CombineMoments(s2: real, s1: real, s0: real, f: real, e: real)
    requires s2 == f && s1 == e && s0 == 1.0
    ensures 1.0 * s2 + (1.0 - 2.0 * e) * s1 + (e * e) * s0 == f + e - e * e
  {
  }

  /** With a population of one the only possible k is the expectation itself, so the spread is 0. */
  lemma SpreadOfOne(N: int, M: int, n: int)
    requires ValidParams(N, M, n) && N == 1
    ensures SumReal(SpreadTerm(N, M, n), KMin(N, M, n), KMax(N, M, n) + 1) == 0.0
  {
    var k := KMin(N, M, n);
    assert k == KMax(N, M, n) == n * M;
    assert Expectation(N, M, n) == k as real;
    assert SpreadTerm(N, M, n)(k) == 0.0;
  }

  /**
   * The printed variance is the spread of the distribution: the sum over [k_min,
   * k_max] of (k - E)^2 P(X = k) is exactly the variance formula, and 0 when N = 1.
   */
  lemma VarianceIsSpread(N: int, M: int, n: int)
    requires ValidParams(N, M, n)
    ensures SumReal(SpreadTerm(N, M, n), KMin(N, M, n), KMax(N, M, n) + 1) == Variance(N, M, n)
  {
    if N == 1 {
      SpreadOfOne(N, M, n);
    } else {
      SpreadOfMany(N, M, n);
      VarianceAlgebra(N as real, M as real, n as real);
    }
  }

  /** For N > 1 the spread is the second factorial moment plus the mean minus the squared mean. */
  lemma SpreadOfMany(N: int, M: int, n: int)
    requires ValidParams(N, M, n) && N > 1
    ensures var e := ExpectationFormula(N as real, M as real, n as real);
      SumReal(SpreadTerm(N, M, n), KMin(N, M, n), KMax(N, M, n) + 1)
        == SecondFactorial(N as real, M as real, n as real) + e - e * e
  {
    var lo, hi, e := KMin(N, M, n), KMax(N, M, n) + 1, ExpectationFormula(N as real, M as real, n as real);
    SpreadSplitAll(N, M, n, e);
    SecondMoment(N, M, n);
    MeanIsExpectation(N, M, n);
    ProbabilitiesSumToOne(N, M, n);
    SpreadFromMoments(SecondTerm(N, M, n), MeanTerm(N, M, n), Pmf(N, M, n), SpreadTerm(N, M, n),
                      SecondFactorial(N as real, M as real, n as real), e, lo, hi);
  }

  /** The termwise split holds all over the support. */
  lemma SpreadSplitAll(N: int, M: int, n: int, e: real)
    requires ValidParams(N, M, n) && e == Expectation(N, M, n)
    ensures SplitsInto(SpreadTerm(N, M, n), SecondTerm(N, M, n), MeanTerm(N, M, n), Pmf(N, M, n), e, KMin(N, M, n), KMax(N, M, n) + 1)
  {
    forall k | KMin(N, M, n) <= k < KMax(N, M, n) + 1
      ensures SpreadTerm(N, M, n)(k)
        == 1.0 * SecondTerm(N, M, n)(k) + (1.0 - 2.0 * e) * MeanTerm(N, M, n)(k) + (e * e) * Pmf(N, M, n)(k)
    {
      SpreadSplit(N, M, n, k);
    }
  }

  /** The distribution loop: one entry P(X = k) for every k from k_min to k_max. */
  method Distribution(N: int, M: int, n: int) returns (dist: map<int, real>)
    requires ValidParams(N, M, n)
    ensures dist.Keys == Range(KMin(N, M, n), KMax(N, M, n) + 1)
    ensures forall k :: k in dist ==> dist[k] == Prob(N, M, n, k)
  {
    var kMin := if 0 > n + M - N then 0 else n + M - N;
    var kMax := if n < M then n else M;
    SupportNonEmpty(N, M, n);
    dist := map[];
    for k := kMin to kMax + 1
      invariant dist.Keys == Range(kMin, k)
      invariant forall j :: j in dist ==> dist[j] == Prob(N, M, n, j)
    {
      var c1 := Comb(M, k);
      var c2 := Comb(N - M, n - k);
      var cTotal := Comb(N, n);
      var prob := if cTotal != 0 then (c1 * c2) as real / cTotal as real else 0.0;
      dist := dist[k := prob];
    }
  }

  /** The map's entries as a function, 0 off its keys. */
  function Entries(dist: map<int, real>): int -> real
  {
    k => if k in dist then dist[k] else 0.0
  }

  /** `sum(distribution.values())`, taken in the order the entries were made. */
  method Total(dist: map<int, real>, lo: int, hi: int) returns (t: real)
    requires lo <= hi + 1
    requires forall k :: lo <= k <= hi ==> k in dist
    ensures t == SumReal(Entries(dist), lo, hi + 1)
  {
    t := 0.0;
    for k := lo to hi + 1
      invariant t == SumReal(Entries(dist), lo, k)
    {
      t := t + dist[k];
    }
  }

  datatype Outcome =
    | RangeError
    | Report(distribution: map<int, real>, total: real, expectation: real, variance: real)

  /**
   * The script after input: out-of-range parameters stop it with the range error;
   * otherwise it reports the distribution over [k_min, k_max], the sum of its
   * probabilities, which is exactly 1, the expectation and the variance.
   */
  method Solve(N: int, M: int, n: int) returns (o: Outcome)
    ensures o.RangeError? <==> !ValidParams(N, M, n)
    ensures o.Report? ==>
      && o.distribution.Keys == Range(KMin(N, M, n), KMax(N, M, n) + 1)
      && (forall k :: k in o.distribution ==> o.distribution[k] == Prob(N, M, n, k))
      && o.total == 1.0
      && o.expectation == Expectation(N, M, n) && o.variance == Variance(N, M, n)
  {
    if !(N >= 1 && 0 <= M <= N && 0 <= n <= N) {
      return RangeError;
    }
    var dist := Distribution(N, M, n);
    SupportNonEmpty(N, M, n);
    var total := Total(dist, KMin(N, M, n), KMax(N, M, n));
    TotalIsOne(dist, N, M, n);
    var expectation := Expectation(N, M, n);
    var variance := Variance(N, M, n);
    return Report(dist, total, expectation, variance);
  }

  /** Summing the map's entries is summing the probabilities. */
  lemma TotalIsOne(dist: map<int, real>, N: int, M: int, n: int)
    requires ValidParams(N, M, n)
    requires forall k :: InSupport(N, M, n, k) ==> k in dist && dist[k] == Prob(N, M, n, k)
    ensures SumReal(Entries(dist), KMin(N, M, n), KMax(N, M, n) + 1) == 1.0
  {
    SumRealExt(Entries(dist), Pmf(N, M, n), KMin(N, M, n), KMax(N, M, n) + 1);
    ProbabilitiesSumToOne(N, M, n);
  }

  /** Real sums of functions that agree on the range agree. */
  lemma {:induction false} SumRealExt(f: int -> real, g: int -> real, lo: int, hi: int)
    requires forall k :: lo <= k < hi ==> f(k) == g(k)
    ensures SumReal(f, lo, hi) == SumReal(g, lo, hi)
    decreases hi - lo
  {
    if lo < hi {
      SumRealExt(f, g, lo, hi - 1);
    }
  }
}
