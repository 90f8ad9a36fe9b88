/** The exact two-sided sign test on discordant pairs (scripts/eval_attach.py `sign_test`,
    lines 136-143), over exact numbers. */
module SignTest {
  import opened Binomial
  import opened Common

  function Smaller(x: nat, y: nat): nat {
    if x < y then x else y
  }

  function Gap(x: nat, y: nat): nat {
    if x < y then y - x else x - y
  }

  /** Outcomes no more frequent than the rarer side: C(n, 0) + ... + C(n, min(x, y)). */
  function LowerTail(x: nat, y: nat): nat {
    Sum(Row(x + y), 0, Smaller(x, y) + 1)
  }

  function SignTest(x: nat, y: nat): real {
    if x + y == 0 then 1.0
    else
      PowPositive(x + y);
      var p := LowerTail(x, y) as real / Pow2(x + y) as real;
      if 2.0 * p < 1.0 then 2.0 * p else 1.0
  }

  lemma {:induction false} PowPositive(n: nat)
    ensures Pow2(n) > 0
  {
    if n > 0 {
      PowPositive(n - 1);
    }
  }

  lemma {:induction false} RowPositive(n: nat, lo: int, hi: int)
    requires 0 <= lo < hi <= n + 1
    ensures Sum(Row(n), lo, hi) > 0
    decreases hi
  {
    CombPositive(n, hi - 1);
  }

  lemma {:induction false} RowSymmetric(n: nat, i: nat)
    requires i <= n
    ensures Row(n)(i) == Row(n)(n - i)
  {
    CombSymmetric(n, i);
  }

  /** A row read from the right is the row read from the left. */
  lemma {:induction false} RowMirror(n: nat, k: nat)
    requires k <= n
    ensures Sum(Row(n), 0, k + 1) == Sum(Row(n), n - k, n + 1)
  {
    RowSymmetric(n, k);
    SumSplit(Row(n), n - k, n - k + 1, n + 1);
    if k > 0 {
      RowMirror(n, k - 1);
    }
  }

  /** Twice the lower tail against the whole row: below it by the middle of the row, or above it by
      the central coefficient when the counts are equal. */
  lemma {:induction false} DoubledTail(x: nat, y: nat)
    ensures x != y ==> 2 * LowerTail(x, y) + Sum(Row(x + y), Smaller(x, y) + 1, x + y - Smaller(x, y)) == Pow2(x + y)
    ensures x == y ==> 2 * LowerTail(x, y) == Pow2(x + y) + Comb(x + y, x)
  {
    var n, k := x + y, Smaller(x, y);
    RowSum(n);
    RowMirror(n, k);
    if x != y {
      SumSplit(Row(n), 0, k + 1, n + 1);
      SumSplit(Row(n), k + 1, n - k, n + 1);
    } else {
      SumSplit(Row(n), 0, k + 1, n + 1);
      SumSplit(Row(n), k, k + 1, n + 1);
      assert Sum(Row(n), k, k + 1) == Sum(Row(n), k, k) + Row(n)(k);
    }
  }

  // ----- what the p-value is -----------------------------------------------------------------

  /** C(n, i) for outcomes at least as lopsided as the gap, 0 for the others. */
  function Lopsided(n: nat, gap: nat): int -> nat {
    var row := Row(n);
    (i: int) => if 2 * i - n >= gap || n - 2 * i >= gap then row(i) else 0
  }

  lemma {:induction false} SumSame(f: int -> nat, g: int -> nat, lo: int, hi: int)
    requires forall i :: lo <= i < hi ==> f(i) == g(i)
    ensures Sum(f, lo, hi) == Sum(g, lo, hi)
    decreases if lo < hi then hi - lo else 0
  {
    if lo < hi {
      SumSame(f, g, lo, hi - 1);
    }
  }

  lemma {:induction false} BalancedSum(n: nat)
    ensures Sum(Lopsided(n, 0), 0, n + 1) == Pow2(n)
  {
    SumSame(Lopsided(n, 0), Row(n), 0, n + 1);
    RowSum(n);
  }

  /** Splits are this lopsided in the first k+1 and the last k+1 places of the row. */
  lemma {:induction false} LopsidedEnds(n: nat, k: nat)
    requires 2 * k < n
    ensures Sum(Lopsided(n, n - 2 * k), 0, n + 1) == Sum(Row(n), 0, k + 1) + Sum(Row(n), n - k, n + 1)
  {
    var f, g := Lopsided(n, n - 2 * k), Row(n);
    SumSplit(f, 0, k + 1, n + 1);
    SumSplit(f, k + 1, n - k, n + 1);
    SumSame(f, g, 0, k + 1);
    SumSame(f, g, n - k, n + 1);
    SumZero(f, k + 1, n - k);
  }

  lemma {:induction false} LopsidedSum(x: nat, y: nat)
    ensures x != y ==> Sum(Lopsided(x + y, Gap(x, y)), 0, x + y + 1) == 2 * LowerTail(x, y)
    ensures x == y ==> Sum(Lopsided(x + y, Gap(x, y)), 0, x + y + 1) == Pow2(x + y)
  {
    if x == y {
      BalancedSum(x + y);
    } else {
      assert Gap(x, y) == x + y - 2 * Smaller(x, y);
      LopsidedEnds(x + y, Smaller(x, y));
      RowMirror(x + y, Smaller(x, y));
    }
  }

  lemma {:induction false} FractionOrder(x: nat, y: nat, c: nat)
    requires c > 0
    ensures x < y <==> x as real / c as real < y as real / c as real
    ensures c as real / c as real == 1.0 && 2.0 * (x as real / c as real) == (2 * x) as real / c as real
  {
  }

  /** The result is the probability, under fair coin flips, of a split at least as lopsided as the
      observed one, in either direction; the clamp changes nothing but the balanced case. */
  lemma {:induction false} SignTestIsTwoSidedTail(x: nat, y: nat)
    ensures Pow2(x + y) > 0
    ensures SignTest(x, y) == Sum(Lopsided(x + y, Gap(x, y)), 0, x + y + 1) as real / Pow2(x + y) as real
  {
    PowPositive(x + y);
    LopsidedSum(x, y);
    DoubledTail(x, y);
    CombPositive(x + y, x);
    FractionOrder(LowerTail(x, y), 0, Pow2(x + y));
    FractionOrder(2 * LowerTail(x, y), Pow2(x + y), Pow2(x + y));
  }

  /** The clamp at 1 takes effect exactly when the counts are equal (and not both zero). */
  lemma {:induction false} ClampOnlyWhenBalanced(x: nat, y: nat)
    requires x + y > 0
    ensures Pow2(x + y) > 0
    ensures 2.0 * (LowerTail(x, y) as real / Pow2(x + y) as real) > 1.0 <==> x == y
  {
    PowPositive(x + y);
    DoubledTail(x, y);
    CombPositive(x + y, x);
    FractionOrder(LowerTail(x, y), 0, Pow2(x + y));
    FractionOrder(Pow2(x + y), 2 * LowerTail(x, y), Pow2(x + y));
  }

  /** The p-value does not depend on which side is named first. */
  lemma {:induction false} SignTestSymmetric(x: nat, y: nat)
    ensures SignTest(x, y) == SignTest(y, x)
  {
  }

  /** A probability that is never 0, and is 1 exactly when the counts differ by at most one. */
  lemma {:induction false} SignTestRange(x: nat, y: nat)
    ensures 0.0 < SignTest(x, y) <= 1.0
    ensures SignTest(x, y) == 1.0 <==> Gap(x, y) <= 1
  {
    if x + y > 0 {
      PowPositive(x + y);
      RowPositive(x + y, 0, Smaller(x, y) + 1);
      FractionOrder(0, LowerTail(x, y), Pow2(x + y));
      FractionOrder(LowerTail(x, y), 0, Pow2(x + y));
      FractionOrder(2 * LowerTail(x, y), Pow2(x + y), Pow2(x + y));
      TailAgainstRow(x, y);
    }
  }

  lemma {:induction false} TailAgainstRow(x: nat, y: nat)
    ensures 2 * LowerTail(x, y) < Pow2(x + y) <==> Gap(x, y) > 1
  {
    DoubledTail(x, y);
    if Gap(x, y) > 1 {
      RowPositive(x + y, Smaller(x, y) + 1, x + y - Smaller(x, y));
    }
  }
}
