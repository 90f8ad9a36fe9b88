/** `math.comb` and the identities the exact tests rest on: factorial form, symmetry, row sums and
    Vandermonde's convolution. */
module Binomial {
  import opened Common

  /** Ways to choose k out of n, by Pascal's rule; 0 when k exceeds n, as `math.comb`. */
  function Comb(n: nat, k: nat): nat {
    if k == 0 then 1 else if n == 0 then 0 else Comb(n - 1, k - 1) + Comb(n - 1, k)
  }

  function Factorial(n: nat): nat {
    if n == 0 then 1 else n * Factorial(n - 1)
  }

  lemma {:induction false} CombOutside(n: nat, k: nat)
    requires k > n
    ensures Comb(n, k) == 0
  {
    if n > 0 {
      CombOutside(n - 1, k - 1);
      CombOutside(n - 1, k);
    }
  }

  lemma {:induction false} CombFull(n: nat)
    ensures Comb(n, n) == 1
  {
    if n > 0 {
      CombFull(n - 1);
      CombOutside(n - 1, n);
    }
  }

  lemma {:induction false} CombPositive(n: nat, k: nat)
    requires k <= n
    ensures Comb(n, k) > 0
  {
    if 0 < k < n {
      CombPositive(n - 1, k);
    } else if k == n {
      CombFull(n);
    }
  }

  lemma {:induction false} CombSymmetric(n: nat, k: nat)
    requires k <= n
    ensures Comb(n, k) == Comb(n, n - k)
  {
    if k == 0 || k == n {
      CombFull(n);
    } else {
      CombSymmetric(n - 1, k - 1);
      CombSymmetric(n - 1, k);
    }
  }

  /** The factorial form: choosing k of n, then ordering both parts, orders all n. */
  lemma {:induction false} CombFactorial(n: nat, k: nat)
    requires k <= n
    ensures Comb(n, k) * (Factorial(k) * Factorial(n - k)) == Factorial(n)
  {
    if k == 0 {
    } else if k == n {
      CombFull(n);
    } else {
      CombFactorial(n - 1, k - 1);
      CombFactorial(n - 1, k);
      Regroup(Comb(n - 1, k - 1), Comb(n - 1, k), k, n - k, Factorial(k - 1), Factorial(n - k - 1), Factorial(n - 1));
    }
  }

  lemma {:induction false} Regroup(a: nat, b: nat, k: nat, m: nat, f: nat, g: nat, whole: nat)
    requires a * (f * (m * g)) == whole && b * ((k * f) * g) == whole
    ensures (a + b) * ((k * f) * (m * g)) == (k + m) * whole
  {
  }

  /** f(lo) + ... + f(hi - 1). */
  function Sum(f: int -> nat, lo: int, hi: int): nat
    decreases if lo < hi then hi - lo else 0
  {
    if lo >= hi then 0 else Sum(f, lo, hi - 1) + f(hi - 1)
  }

  lemma {:induction false} SumSplit(f: int -> nat, lo: int, mid: int, hi: int)
    requires lo <= mid <= hi
    ensures Sum(f, lo, hi) == Sum(f, lo, mid) + Sum(f, mid, hi)
    decreases hi - mid
  {
    if mid < hi {
      SumSplit(f, lo, mid, hi - 1);
    }
  }

  lemma {:induction false} SumAdds(f: int -> nat, g: int -> nat, h: int -> nat, lo: int, hi: int)
    requires forall i :: lo <= i < hi ==> f(i) == g(i) + h(i)
    ensures Sum(f, lo, hi) == Sum(g, lo, hi) + Sum(h, lo, hi)
    decreases if lo < hi then hi - lo else 0
  {
    if lo < hi {
      SumAdds(f, g, h, lo, hi - 1);
    }
  }

  lemma {:induction false} SumZero(f: int -> nat, lo: int, hi: int)
    requires forall i :: lo <= i < hi ==> f(i) == 0
    ensures Sum(f, lo, hi) == 0
    decreases if lo < hi then hi - lo else 0
  {
    if lo < hi {
      SumZero(f, lo, hi - 1);
    }
  }

  lemma {:induction false} SumShift(f: int -> nat, g: int -> nat, lo: int, hi: int, d: int)
    requires forall i :: lo <= i < hi ==> f(i) == g(i + d)
    ensures Sum(f, lo, hi) == Sum(g, lo + d, hi + d)
    decreases if lo < hi then hi - lo else 0
  {
    if lo < hi {
      SumShift(f, g, lo, hi - 1, d);
    }
  }

  /** Summing backwards: f(lo..hi) mirrors g around c. */
  lemma {:induction false} SumMirror(f: int -> nat, g: int -> nat, lo: int, hi: int, c: int)
    requires lo <= hi
    requires forall i :: lo <= i < hi ==> f(i) == g(c - i)
    ensures Sum(f, lo, hi) == Sum(g, c - hi + 1, c - lo + 1)
    decreases hi - lo
  {
    if lo < hi {
      SumMirror(f, g, lo, hi - 1, c);
      SumSplit(g, c - hi + 1, c - hi + 2, c - lo + 1);
    }
  }

  // ----- row sums ----------------------------------------------------------------------------

  function Row(n: nat): int -> nat {
    (i: int) => if i < 0 then 0 else Comb(n, i)
  }

  function Lagged(f: int -> nat): int -> nat {
    (i: int) => f(i - 1)
  }

  /** Summing a function one step late drops its last value and brings in the one before the start. */
  lemma {:induction false} SumLagged(f: int -> nat, hi: int)
    requires hi >= 1
    ensures Sum(Lagged(f), 0, hi) == f(-1) + Sum(f, 0, hi - 1)
  {
    SumShift(Lagged(f), f, 0, hi, -1);
    SumSplit(f, -1, 0, hi - 1);
    assert Sum(f, -1, 0) == Sum(f, -1, -1) + f(-1);
  }

  lemma {:induction false} RowStep(n: nat, i: int)
    requires n > 0
    ensures Row(n)(i) == Row(n - 1)(i) + Lagged(Row(n - 1))(i)
  {
  }

  lemma {:induction false} RowSum(n: nat)
    ensures Sum(Row(n), 0, n + 1) == Pow2(n)
  {
    if n > 0 {
      var prev := Row(n - 1);
      RowSum(n - 1);
      forall i | 0 <= i < n + 1 ensures Row(n)(i) == prev(i) + Lagged(prev)(i) {
        RowStep(n, i);
      }
      SumAdds(Row(n), prev, Lagged(prev), 0, n + 1);
      SumLagged(prev, n + 1);
      RowEnds(n - 1);
    }
  }

  lemma {:induction false} RowEnds(n: nat)
    ensures Row(n)(-1) == 0 && Row(n)(n + 1) == 0
  {
    CombOutside(n, n + 1);
  }

  // ----- Vandermonde -------------------------------------------------------------------------

  /** The convolution term C(m, i) * C(n, r - i), zero outside 0 <= i <= r. */
  function Term(m: nat, n: nat, r: int): int -> nat {
    (i: int) => if 0 <= i <= r then Comb(m, i) * Comb(n, r - i) else 0
  }

  lemma {:induction false} NoneFromNothing(i: nat, c: nat)
    requires i > 0
    ensures Comb(0, i) * c == 0
  {
  }

  lemma {:induction false} VandermondeBase(n: nat, r: nat)
    ensures Sum(Term(0, n, r), 0, r + 1) == Comb(n, r)
  {
    var f := Term(0, n, r);
    forall i | 1 <= i < r + 1 ensures f(i) == 0 {
      NoneFromNothing(i, Comb(n, r - i));
    }
    SumSplit(f, 0, 1, r + 1);
    SumZero(f, 1, r + 1);
    assert Sum(f, 0, 1) == Sum(f, 0, 0) + f(0);
  }

  lemma {:induction false} VandermondeStep(m: nat, n: nat, r: nat)
    requires m > 0
    ensures Sum(Term(m, n, r), 0, r + 1) == Sum(Term(m - 1, n, r), 0, r + 1) + Sum(Term(m - 1, n, r - 1), 0, r)
  {
    var here, before := Term(m - 1, n, r), Term(m - 1, n, r - 1);
    forall i | 0 <= i < r + 1 ensures Term(m, n, r)(i) == here(i) + Lagged(before)(i) {
      VandermondeTerm(m, n, r, i);
    }
    SumAdds(Term(m, n, r), here, Lagged(before), 0, r + 1);
    SumLagged(before, r + 1);
    assert before(-1) == 0;
  }

  /** Choosing r from two pools of m and n, split by how many come from the first. */
  lemma {:induction false} Vandermonde(m: nat, n: nat, r: nat)
    ensures Sum(Term(m, n, r), 0, r + 1) == Comb(m + n, r)
    decreases m
  {
    if m == 0 {
      VandermondeBase(n, r);
    } else {
      VandermondeStep(m, n, r);
      Vandermonde(m - 1, n, r);
      if r > 0 {
        Vandermonde(m - 1, n, r - 1);
      } else {
        assert Sum(Term(m - 1, n, -1), 0, 0) == 0;
      }
    }
  }

  lemma {:induction false} VandermondeTerm(m: nat, n: nat, r: nat, i: int)
    requires m > 0 && 0 <= i <= r
    ensures Term(m, n, r)(i) == Term(m - 1, n, r)(i) + Term(m - 1, n, r - 1)(i - 1)
  {
  }
}
