/**
 * Binomial coefficients and finite sums over ranges of integers: the mathematics
 * behind the hypergeometric calculator (math_solver/hypgeom_dist.py). `Binom` is
 * the reference definition of `comb`, by Pascal's rule.
 */
module Binomial {

  /** C(n, k): 0 unless 0 <= k <= n, 1 at either end, and Pascal's rule in between. */
  function Binom(n: int, k: int): nat
    decreases n
  {
    if k < 0 || k > n then 0
    else if k == 0 || k == n then 1
    else Binom(n - 1, k - 1) + Binom(n - 1, k)
  }

  /** Pascal's rule holds for every `k` once `n` is at least 1. */
  lemma Pascal(n: int, k: int)
    requires n >= 1
    ensures Binom(n, k) == Binom(n - 1, k - 1) + Binom(n - 1, k)
  {
  }

  /** C(n, k) is positive exactly on 0 <= k <= n. */
  lemma {:induction false} BinomPositive(n: int, k: int)
    ensures Binom(n, k) > 0 <==> 0 <= k <= n
    decreases n
  {
    if 0 < k < n {
      BinomPositive(n - 1, k);
    }
  }

  /** C(n, k) = C(n, n - k). */
  lemma {:induction false} Symmetry(n: int, k: int)
    requires n >= 0
    ensures Binom(n, k) == Binom(n, n - k)
    decreases n
  {
    if n >= 1 {
      Pascal(n, k);
      Pascal(n, n - k);
      Symmetry(n - 1, k);
      Symmetry(n - 1, k - 1);
    }
  }

  /** The arithmetic of one step of the absorption identity, on plain integers. */
  lemma AbsorptionStep(n: int, k: int, x: int, y: int, u: int, v: int)
    requires x == u + v && k * y == (n - 1) * v && (k - 1) * x == (n - 1) * u
    ensures k * (x + y) == n * x
  {
    calc {
      k * (x + y);
      (k - 1) * x + x + k * y;
      (n - 1) * u + x + (n - 1) * v;
      (n - 1) * (u + v) + x;
    }
  }

  /** The absorption identity k C(n, k) = n C(n - 1, k - 1), for every `k`. */
  lemma {:induction false} Absorption(n: int, k: int)
    requires n >= 1
    ensures k * Binom(n, k) == n * Binom(n - 1, k - 1)
    decreases n
  {
    if n >= 2 {
      Pascal(n, k);
      Pascal(n - 1, k - 1);
      Absorption(n - 1, k);
      Absorption(n - 1, k - 1);
      AbsorptionStep(n, k, Binom(n - 1, k - 1), Binom(n - 1, k), Binom(n - 2, k - 2), Binom(n - 2, k - 1));
    }
  }

  /** f(lo) + f(lo + 1) + ... + f(hi - 1); 0 for an empty range. */
  function Sum(f: int -> int, lo: int, hi: int): int
    decreases hi - lo
  {
    if lo >= hi then 0 else f(lo) + Sum(f, lo + 1, hi)
  }

  /** A sum splits at any point of its range. */
  lemma {:induction false} SumSplit(f: int -> int, lo: int, mid: int, hi: int)
    requires lo <= mid <= hi
    ensures Sum(f, lo, hi) == Sum(f, lo, mid) + Sum(f, mid, hi)
    decreases mid - lo
  {
    if lo < mid {
      SumSplit(f, lo + 1, mid, hi);
    }
  }

  /** Terms that vanish on the range sum to 0. */
  lemma {:induction false} SumZero(f: int -> int, lo: int, hi: int)
    requires forall k :: lo <= k < hi ==> f(k) == 0
    ensures Sum(f, lo, hi) == 0
    decreases hi - lo
  {
    if lo < hi {
      SumZero(f, lo + 1, hi);
    }
  }

  /** Sums of termwise sums: if h = f + g on the range, then so are their sums. */
  lemma {:induction false} SumAdd(f: int -> int, g: int -> int, h: int -> int, lo: int, hi: int)
    requires forall k :: lo <= k < hi ==> h(k) == f(k) + g(k)
    ensures Sum(h, lo, hi) == Sum(f, lo, hi) + Sum(g, lo, hi)
    decreases hi - lo
  {
    if lo < hi {
      SumAdd(f, g, h, lo + 1, hi);
    }
  }

  /** A constant factor comes out of a sum. */
  lemma {:induction false} SumScale(f: int -> int, g: int -> int, c: int, lo: int, hi: int)
    requires forall k :: lo <= k < hi ==> g(k) == c * f(k)
    ensures Sum(g, lo, hi) == c * Sum(f, lo, hi)
    decreases hi - lo
  {
    if lo < hi {
      SumScale(f, g, c, lo + 1, hi);
    }
  }

  /** Shifting the index: if g(k) = f(k - d), summing g over [lo, hi) is summing f over [lo - d, hi - d). */
  lemma {:induction false} SumShift(f: int -> int, g: int -> int, d: int, lo: int, hi: int)
    requires forall k :: lo <= k < hi ==> g(k) == f(k - d)
    ensures Sum(g, lo, hi) == Sum(f, lo - d, hi - d)
    decreases hi - lo
  {
    if lo < hi {
      SumShift(f, g, d, lo + 1, hi);
    }
  }

  /** The terms C(a, k) C(b, n - k) of Vandermonde's identity. */
  function Conv(a: int, b: int, n: int): int -> int
  {
    k => Binom(a, k) * Binom(b, n - k)
  }

  lemma Distribute(x: int, y: int, z: int)
    ensures (x + y) * z == x * z + y * z
  {
  }

  /**
   * Pascal's rule under the sum: the terms for `a` split into those for `a - 1` at
   * `n - 1` and at `n`.
   */
  lemma VandermondeSplit(a: int, b: int, n: int)
    requires a >= 1 && n >= 0
    ensures Sum(Conv(a, b, n), 0, n + 1) == Sum(Conv(a - 1, b, n - 1), 0, n) + Sum(Conv(a - 1, b, n), 0, n + 1)
  {
    var lower := Conv(a - 1, b, n - 1);
    var shifted: int -> int := k => lower(k - 1);
    forall k | 0 <= k < n + 1
      ensures Conv(a, b, n)(k) == shifted(k) + Conv(a - 1, b, n)(k)
    {
      Pascal(a, k);
      var z := Binom(b, n - k);
      assert n - 1 - (k - 1) == n - k;
      assert shifted(k) == Binom(a - 1, k - 1) * z;
      Distribute(Binom(a - 1, k - 1), Binom(a - 1, k), z);
    }
    SumAdd(shifted, Conv(a - 1, b, n), Conv(a, b, n), 0, n + 1);
    SumShift(lower, shifted, 1, 0, n + 1);
    assert lower(-1) == 0;
  }

  /** Vandermonde's identity: the sum over k of C(a, k) C(b, n - k) is C(a + b, n). */
  lemma {:induction false} Vandermonde(a: int, b: int, n: int)
    requires a >= 0 && b >= 0
    ensures Sum(Conv(a, b, n), 0, n + 1) == Binom(a + b, n)
    decreases a
  {
    if n < 0 {
    } else if a == 0 {
      SumZero(Conv(a, b, n), 1, n + 1);
    } else {
      VandermondeSplit(a, b, n);
      Vandermonde(a - 1, b, n - 1);
      Vandermonde(a - 1, b, n);
      Pascal(a + b, n);
    }
  }
}
