/** Fisher's exact test on a 2x2 table, over exact numbers
    (scripts/score_proposer_reviewer_gates.py `_hypergeom` and `fisher`, lines 27-45). */
module FisherTest {
  import opened Binomial

  datatype Tail = Greater | Less

  /** P(X = k) for X ~ Hypergeometric(N, K, n). `math.comb` has no negative second argument, which is
      what `k <= n` keeps out. */
  function Hypergeom(k: int, K: nat, n: nat, N: nat): real
    requires K <= N && n <= N && k <= n
  {
    CombPositive(N, n);
    if k < 0 || k > K || n - k > N - K then 0.0
    else (Comb(K, k) * Comb(N - K, n - k)) as real / Comb(N, n) as real
  }

  /** Sum of the point masses from lo up to, not including, hi. */
  function Mass(K: nat, n: nat, N: nat, lo: int, hi: int): real
    requires K <= N && n <= N && hi <= n + 1
    decreases if lo < hi then hi - lo else 0
  {
    if lo >= hi then 0.0 else Mass(K, n, N, lo, hi - 1) + Hypergeom(hi - 1, K, n, N)
  }

  function Lowest(K: nat, n: nat, N: nat): int {
    if n - (N - K) > 0 then n - (N - K) else 0
  }

  function Highest(K: nat, n: nat): int {
    if K < n then K else n
  }

  /** One-tailed p-value of [[a, b], [c, d]] with hits in the first column. */
  function Fisher(a: nat, b: nat, c: nat, d: nat, tail: Tail): real {
    var N, K, n := a + b + c + d, a + c, a + b;
    match tail
    case Greater => Mass(K, n, N, a, Highest(K, n) + 1)
    case Less => Mass(K, n, N, Lowest(K, n, N), a + 1)
  }

  // ----- masses as integer convolution terms -------------------------------------------------

  lemma {:induction false} HypergeomIsTerm(k: int, K: nat, n: nat, N: nat)
    requires K <= N && n <= N && k <= n
    ensures Comb(N, n) > 0
    ensures Hypergeom(k, K, n, N) == Term(K, N - K, n)(k) as real / Comb(N, n) as real
  {
    CombPositive(N, n);
    if k > K {
      CombOutside(K, k);
      ZeroProduct(Comb(K, k), Comb(N - K, n - k));
    } else if k >= 0 && n - k > N - K {
      CombOutside(N - K, n - k);
      ZeroProduct(Comb(K, k), Comb(N - K, n - k));
    }
  }

  lemma {:induction false} ZeroProduct(x: nat, y: nat)
    requires x == 0 || y == 0
    ensures x * y == 0
  {
  }

  lemma {:induction false} MassIsSum(K: nat, n: nat, N: nat, lo: int, hi: int)
    requires K <= N && n <= N && hi <= n + 1
    ensures Comb(N, n) > 0
    ensures Mass(K, n, N, lo, hi) == Sum(Term(K, N - K, n), lo, hi) as real / Comb(N, n) as real
    decreases if lo < hi then hi - lo else 0
  {
    CombPositive(N, n);
    if lo < hi {
      MassIsSum(K, n, N, lo, hi - 1);
      HypergeomIsTerm(hi - 1, K, n, N);
      AddFractions(Sum(Term(K, N - K, n), lo, hi - 1), Term(K, N - K, n)(hi - 1), Comb(N, n));
    }
  }

  lemma {:induction false} AddFractions(x: nat, y: nat, c: nat)
    requires c > 0
    ensures x as real / c as real + y as real / c as real == (x + y) as real / c as real
  {
  }

  /** Outside the feasible range the convolution terms vanish. */
  lemma {:induction false} InfeasibleTerm(K: nat, n: nat, N: nat, k: int)
    requires K <= N && n <= N
    requires k < Lowest(K, n, N) || k > Highest(K, n)
    ensures Term(K, N - K, n)(k) == 0
  {
    if 0 <= k <= n {
      if k > K {
        CombOutside(K, k);
      } else {
        CombOutside(N - K, n - k);
      }
      ZeroProduct(Comb(K, k), Comb(N - K, n - k));
    }
  }

  lemma {:induction false} FeasibleTerms(K: nat, n: nat, N: nat)
    requires K <= N && n <= N
    ensures Sum(Term(K, N - K, n), Lowest(K, n, N), Highest(K, n) + 1) == Comb(N, n)
  {
    var f, lo, hi := Term(K, N - K, n), Lowest(K, n, N), Highest(K, n) + 1;
    forall k | k < lo || k >= hi ensures f(k) == 0 {
      InfeasibleTerm(K, n, N, k);
    }
    SumZero(f, 0, lo);
    SumZero(f, hi, n + 1);
    SumSplit(f, 0, lo, hi);
    SumSplit(f, 0, hi, n + 1);
    Vandermonde(K, N - K, n);
    assert K + (N - K) == N;
  }

  /** The feasible masses sum to exactly 1. */
  lemma {:induction false} MassesSumToOne(K: nat, n: nat, N: nat)
    requires K <= N && n <= N
    ensures Mass(K, n, N, Lowest(K, n, N), Highest(K, n) + 1) == 1.0
  {
    MassIsSum(K, n, N, Lowest(K, n, N), Highest(K, n) + 1);
    FeasibleTerms(K, n, N);
    CombPositive(N, n);
    WholeFraction(Comb(N, n));
  }

  lemma {:induction false} WholeFraction(c: nat)
    requires c > 0
    ensures c as real / c as real == 1.0
  {
  }

  lemma {:induction false} MassSplit(K: nat, n: nat, N: nat, lo: int, mid: int, hi: int)
    requires K <= N && n <= N && lo <= mid <= hi <= n + 1
    ensures Mass(K, n, N, lo, hi) == Mass(K, n, N, lo, mid) + Mass(K, n, N, mid, hi)
    decreases hi - mid
  {
    if mid < hi {
      MassSplit(K, n, N, lo, mid, hi - 1);
    }
  }

  lemma {:induction false} MassNonNegative(K: nat, n: nat, N: nat, lo: int, hi: int)
    requires K <= N && n <= N && hi <= n + 1
    ensures Mass(K, n, N, lo, hi) >= 0.0
    decreases if lo < hi then hi - lo else 0
  {
    if lo < hi {
      MassNonNegative(K, n, N, lo, hi - 1);
      HypergeomIsTerm(hi - 1, K, n, N);
    }
  }

  /** The observed table always has positive probability. */
  lemma {:induction false} ObservedIsPossible(a: nat, b: nat, c: nat, d: nat)
    ensures Hypergeom(a, a + c, a + b, a + b + c + d) > 0.0
  {
    CombPositive(a + c, a);
    CombPositive(b + d, b);
    assert (a + b + c + d) - (a + c) == b + d && (a + b) - a == b;
    PositiveProduct(Comb(a + c, a), Comb(b + d, b));
    CombPositive(a + b + c + d, a + b);
  }

  lemma {:induction false} PositiveProduct(x: nat, y: nat)
    requires x > 0 && y > 0
    ensures x * y > 0
  {
  }

  // ----- the two tails -----------------------------------------------------------------------

  /** The tails overlap in the observed table only: they sum to 1 plus its point mass. */
  lemma {:induction false} TailsMeetAtObserved(a: nat, b: nat, c: nat, d: nat)
    ensures Fisher(a, b, c, d, Greater) + Fisher(a, b, c, d, Less)
         == 1.0 + Hypergeom(a, a + c, a + b, a + b + c + d)
  {
    var N, K, n := a + b + c + d, a + c, a + b;
    MassesSumToOne(K, n, N);
    MassSplit(K, n, N, Lowest(K, n, N), a, Highest(K, n) + 1);
    MassSplit(K, n, N, Lowest(K, n, N), a, a + 1);
    assert Mass(K, n, N, a, a + 1) == Mass(K, n, N, a, a) + Hypergeom(a, K, n, N);
  }

  /** Both p-values lie in (0, 1]. */
  lemma {:induction false} TailsAreProbabilities(a: nat, b: nat, c: nat, d: nat, tail: Tail)
    ensures 0.0 < Fisher(a, b, c, d, tail) <= 1.0
  {
    var N, K, n := a + b + c + d, a + c, a + b;
    var lo, hi := Lowest(K, n, N), Highest(K, n) + 1;
    ObservedIsPossible(a, b, c, d);
    MassesSumToOne(K, n, N);
    MassNonNegative(K, n, N, lo, a);
    MassNonNegative(K, n, N, a + 1, hi);
    MassSplit(K, n, N, lo, a, hi);
    MassSplit(K, n, N, a, a + 1, hi);
    MassSplit(K, n, N, lo, a, a + 1);
    assert Mass(K, n, N, a, a + 1) == Mass(K, n, N, a, a) + Hypergeom(a, K, n, N);
  }

  /** With the margins fixed, one more hit in row 1 is strictly stronger evidence of improvement. */
  lemma {:induction false} MoreHitsSmallerP(a: nat, b: nat, c: nat, d: nat)
    requires b > 0 && c > 0
    ensures Fisher(a + 1, b - 1, c - 1, d + 1, Greater) < Fisher(a, b, c, d, Greater)
    ensures Fisher(a + 1, b - 1, c - 1, d + 1, Less) > Fisher(a, b, c, d, Less)
  {
    var N, K, n := a + b + c + d, a + c, a + b;
    ObservedIsPossible(a, b, c, d);
    ObservedIsPossible(a + 1, b - 1, c - 1, d + 1);
    MassSplit(K, n, N, a, a + 1, Highest(K, n) + 1);
    assert Mass(K, n, N, a, a + 1) == Mass(K, n, N, a, a) + Hypergeom(a, K, n, N);
  }

  // ----- swapping the rows -------------------------------------------------------------------

  /** Choosing k hits for row 1 is choosing the other K - k for row 2. */
  lemma {:induction false} TermMirror(K: nat, n: nat, N: nat, k: int)
    requires K <= N && n <= N && Lowest(K, n, N) <= k <= Highest(K, n)
    ensures Term(K, N - K, n)(k) == Term(K, N - K, N - n)(K - k)
  {
    CombSymmetric(K, k);
    CombSymmetric(N - K, n - k);
    assert (N - n) - (K - k) == (N - K) - (n - k);
  }

  /** Testing row 1 for a higher rate is testing row 2 for a lower one. */
  lemma {:induction false} RowSwap(a: nat, b: nat, c: nat, d: nat)
    ensures Fisher(a, b, c, d, Greater) == Fisher(c, d, a, b, Less)
  {
    var N, K, n := a + b + c + d, a + c, a + b;
    var hi := Highest(K, n) + 1;
    MassIsSum(K, n, N, a, hi);
    MassIsSum(K, N - n, N, Lowest(K, N - n, N), c + 1);
    TailMirror(K, n, N, a);
    assert K - a == c;
    CombSymmetric(N, n);
  }

  lemma {:induction false} TailMirror(K: nat, n: nat, N: nat, a: int)
    requires K <= N && n <= N && Lowest(K, n, N) <= a <= Highest(K, n)
    ensures Sum(Term(K, N - K, n), a, Highest(K, n) + 1)
         == Sum(Term(K, N - K, N - n), Lowest(K, N - n, N), K - a + 1)
  {
    var f, g, hi := Term(K, N - K, n), Term(K, N - K, N - n), Highest(K, n) + 1;
    forall k | a <= k < hi ensures f(k) == g(K - k) {
      TermMirror(K, n, N, k);
    }
    SumMirror(f, g, a, hi, K);
    assert K - hi + 1 == Lowest(K, N - n, N);
  }
}
