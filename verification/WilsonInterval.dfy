/** The Wilson score interval over the reals (scripts/score_proposer_reviewer_gates.py `wilson`,
    lines 48-56). The square root is a parameter: the non-negative root of the radicand. */
module WilsonInterval {

  function Max(x: real, y: real): real {
    if x > y then x else y
  }

  function Min(x: real, y: real): real {
    if x < y then x else y
  }

  /** The number under the square root: p(1-p)/total + z^2/(4 total^2). */
  function Radicand(p: real, total: real, z: real): real
    requires total > 0.0
  {
    p * (1.0 - p) / total + z * z / (4.0 * total * total)
  }

  ghost predicate IsRoot(root: real, x: real) {
    root >= 0.0 && root * root == x
  }

  function Divisor(total: real, z: real): (d: real)
    requires total > 0.0
    ensures d >= 1.0
  {
    assert z * z >= 0.0;
    assert z * z / total >= 0.0;
    1.0 + z * z / total
  }

  function Centre(p: real, total: real, z: real): real
    requires total > 0.0
  {
    (p + z * z / (2.0 * total)) / Divisor(total, z)
  }

  function Half(total: real, z: real, root: real): real
    requires total > 0.0
  {
    z * root / Divisor(total, z)
  }

  /** The pair the source returns, clamps included. */
  function Wilson(hits: nat, total: nat, z: real, root: real): (real, real)
    requires hits <= total
    requires total > 0 ==> IsRoot(root, Radicand(hits as real / total as real, total as real, z))
  {
    if total == 0 then (0.0, 0.0)
    else
      var p, t := hits as real / total as real, total as real;
      (Max(0.0, Centre(p, t, z) - Half(t, z, root)), Min(1.0, Centre(p, t, z) + Half(t, z, root)))
  }

  /** The score test accepts rate q when the observed rate lies within z standard errors of q. */
  ghost predicate ScoreAccepts(p: real, total: real, z: real, q: real)
    requires total > 0.0
  {
    total * ((p - q) * (p - q)) <= z * z * (q * (1.0 - q))
  }

  // ----- arithmetic --------------------------------------------------------------------------

  lemma {:induction false} Positive(x: real, y: real)
    requires x > 0.0 && y > 0.0
    ensures x * y > 0.0
  {
  }

  lemma {:induction false} NonNegative(x: real, y: real)
    requires x >= 0.0 && y >= 0.0
    ensures x * y >= 0.0
  {
  }

  /** Squares are passed as a name of their own: the solver mistreats the sign of `x * x`. */
  lemma {:induction false} SquarePositive(x: real, xx: real)
    requires x != 0.0 && xx == x * x
    ensures xx > 0.0
    decreases x < 0.0
  {
    if x < 0.0 {
      SquarePositive(-x, xx);
    } else {
      PositiveProduct(x, x, xx);
    }
  }

  lemma {:induction false} PositiveProduct(x: real, y: real, xy: real)
    requires x > 0.0 && y > 0.0 && xy == x * y
    ensures xy > 0.0
  {
  }

  lemma {:induction false} FourSquare(t: real, den: real)
    requires t > 0.0 && den == 4.0 * t * t
    ensures den > 0.0
  {
    var tt := t * t;
    SquarePositive(t, tt);
    assert den == 4.0 * tt;
  }

  lemma {:induction false} Above(y: real, s: real)
    requires y > s >= 0.0
    ensures y * y > s * s
  {
    Positive(y - s, y + s);
    assert (y - s) * (y + s) == y * y - s * s;
  }

  lemma {:induction false} Inside(y: real, s: real)
    requires -s <= y <= s
    ensures y * y <= s * s
  {
  }

  lemma {:induction false} SquareWithin(y: real, s: real)
    requires s >= 0.0
    ensures -s <= y <= s <==> y * y <= s * s
  {
    if y > s {
      Above(y, s);
    } else if y < -s {
      Above(-y, s);
    } else {
      Inside(y, s);
    }
  }

  lemma {:induction false} Distribute(d: real, x: real, y: real, z: real)
    ensures d * x - d * y + d * z == d * (x - y + z)
  {
  }

  lemma {:induction false} HalfTerm(w: real, t: real)
    requires t > 0.0
    ensures w * t / (2.0 * t) == w / 2.0
  {
  }

  /** z^2 times the radicand, with w = z^2/total. */
  lemma {:induction false} ScaledRadicand(p: real, t: real, z: real, w: real)
    requires t > 0.0 && w * t == z * z
    ensures z * z * Radicand(p, t, z) == w * (p * (1.0 - p)) + w * w / 4.0
  {
  }

  lemma {:induction false} Cancelled(x: real, y: real)
    requires y > 0.0
    ensures (x / y) * y == x
  {
  }

  lemma {:induction false} DivideBounds(x: real, d: real, q: real)
    requires d > 0.0
    ensures x / d <= q <==> x <= d * q
    ensures q <= x / d <==> d * q <= x
  {
  }

  // ----- what the interval is ----------------------------------------------------------------

  /** Clearing denominators: q lies between the bounds iff (d q - c)^2 <= s^2. */
  lemma {:induction false} BoundsAsSquare(c: real, s: real, d: real, q: real)
    requires d > 0.0 && s >= 0.0
    ensures c / d - s / d <= q <= c / d + s / d <==> (d * q - c) * (d * q - c) <= s * s
  {
    DivideBounds(c - s, d, q);
    DivideBounds(c + s, d, q);
    SquareWithin(d * q - c, s);
  }

  lemma {:induction false} SameSign(d: real, gap: real)
    requires d > 0.0
    ensures d * gap <= 0.0 <==> gap <= 0.0
  {
  }

  /** For z >= 0 the unclamped interval is exactly the set of rates the score test accepts. */
  lemma {:induction false} IntervalInvertsScoreTest(p: real, t: real, z: real, root: real, q: real)
    requires t > 0.0 && z >= 0.0 && IsRoot(root, Radicand(p, t, z))
    ensures Centre(p, t, z) - Half(t, z, root) <= q <= Centre(p, t, z) + Half(t, z, root)
            <==> ScoreAccepts(p, t, z, q)
  {
    var w := z * z / t;
    var d, c, s := 1.0 + w, p + w / 2.0, z * root;
    assert w * t == z * z by { Cancelled(z * z, t); }
    assert d >= 1.0 && Divisor(t, z) == d;
    assert Centre(p, t, z) == c / d by { HalfTerm(w, t); }
    assert s >= 0.0 by { NonNegative(z, root); }
    BoundsAsSquare(c, s, d, q);
    assert s * s == w * (p * (1.0 - p)) + w * w / 4.0 by {
      SquareOfProduct(z, root);
      ScaledRadicand(p, t, z, w);
    }
    SquareIffGap(p, w, q, s * s);
    AcceptsIffGap(p, t, z, q, w);
  }

  ghost predicate GapClosed(p: real, w: real, q: real) {
    (p - q) * (p - q) - w * (q * (1.0 - q)) <= 0.0
  }

  lemma {:induction false} SquareIffGap(p: real, w: real, q: real, ss: real)
    requires w >= 0.0 && ss == w * (p * (1.0 - p)) + w * w / 4.0
    ensures var y := (1.0 + w) * q - (p + w / 2.0);
            y * y <= ss <==> GapClosed(p, w, q)
  {
  }

  lemma {:induction false} AcceptsIffGap(p: real, t: real, z: real, q: real, w: real)
    requires t > 0.0 && w * t == z * z
    ensures ScoreAccepts(p, t, z, q) <==> GapClosed(p, w, q)
  {
  }

  lemma {:induction false} SquareOfProduct(z: real, root: real)
    ensures (z * root) * (z * root) == z * z * (root * root)
  {
  }

  lemma {:induction false} OutsideIsNegative(q: real)
    requires q < 0.0 || q > 1.0
    ensures q * (1.0 - q) < 0.0
  {
  }

  lemma {:induction false} SquareTimesNegative(z: real, v: real)
    requires v < 0.0
    ensures z * z * v <= 0.0
  {
  }

  /** A rate outside [0, 1] is never accepted. */
  lemma {:induction false} AcceptedIsProbability(p: real, t: real, z: real, q: real)
    requires t > 0.0 && 0.0 <= p <= 1.0 && ScoreAccepts(p, t, z, q)
    ensures 0.0 <= q <= 1.0
  {
    if q < 0.0 || q > 1.0 {
      OutsideIsNegative(q);
      SquareTimesNegative(z, q * (1.0 - q));
      var e := (p - q) * (p - q);
      SquarePositive(p - q, e);
      Positive(t, e);
    }
  }

  /** The observed rate itself is always accepted. */
  lemma {:induction false} ObservedIsAccepted(p: real, t: real, z: real)
    requires t > 0.0 && 0.0 <= p <= 1.0
    ensures ScoreAccepts(p, t, z, p)
  {
  }

  lemma {:induction false} ObservedRate(hits: nat, total: nat) returns (p: real)
    requires hits <= total && total > 0
    ensures p == hits as real / total as real && 0.0 <= p <= 1.0
  {
    p := hits as real / total as real;
    DivideBounds(hits as real, total as real, 1.0);
    DivideBounds(hits as real, total as real, 0.0);
  }

  /** For z >= 0 the reported pair contains the observed rate, lies in [0, 1], and both clamps are
      no-ops: a rate is in the pair iff the score test accepts it. */
  lemma {:induction false} WilsonIsScoreInterval(hits: nat, total: nat, z: real, root: real, q: real)
    requires hits <= total && total > 0 && z >= 0.0
    requires IsRoot(root, Radicand(hits as real / total as real, total as real, z))
    ensures var (lo, hi) := Wilson(hits, total, z, root);
            && 0.0 <= lo <= hits as real / total as real <= hi <= 1.0
            && lo == Centre(hits as real / total as real, total as real, z) - Half(total as real, z, root)
            && hi == Centre(hits as real / total as real, total as real, z) + Half(total as real, z, root)
            && (lo <= q <= hi <==> ScoreAccepts(hits as real / total as real, total as real, z, q))
  {
    var p := ObservedRate(hits, total);
    var t := total as real;
    var lo, hi := Centre(p, t, z) - Half(t, z, root), Centre(p, t, z) + Half(t, z, root);
    ObservedIsAccepted(p, t, z);
    IntervalInvertsScoreTest(p, t, z, root, p);
    IntervalInvertsScoreTest(p, t, z, root, lo);
    IntervalInvertsScoreTest(p, t, z, root, hi);
    AcceptedIsProbability(p, t, z, lo);
    AcceptedIsProbability(p, t, z, hi);
    IntervalInvertsScoreTest(p, t, z, root, q);
  }

  lemma {:induction false} RadicandPositive(p: real, t: real, z: real)
    requires t > 0.0 && 0.0 <= p <= 1.0 && z != 0.0
    ensures Radicand(p, t, z) > 0.0
  {
    NonNegative(p, 1.0 - p);
    DivideBounds(p * (1.0 - p), t, 0.0);
    assert p * (1.0 - p) / t >= 0.0;
    var zz, den := z * z, 4.0 * t * t;
    SquarePositive(z, zz);
    FourSquare(t, den);
    PositiveFraction(zz, den);
  }

  lemma {:induction false} PositiveFraction(x: real, y: real)
    requires x > 0.0 && y > 0.0
    ensures x / y > 0.0
  {
  }

  /** The sign of z matters: the unclamped bounds are in order iff z >= 0. */
  lemma {:induction false} BoundsInOrderIff(p: real, t: real, z: real, root: real)
    requires t > 0.0 && 0.0 <= p <= 1.0 && IsRoot(root, Radicand(p, t, z))
    ensures Centre(p, t, z) - Half(t, z, root) <= Centre(p, t, z) + Half(t, z, root) <==> z >= 0.0
  {
    var h, d := Half(t, z, root), Divisor(t, z);
    Cancelled(z * root, d);
    if z < 0.0 {
      RadicandPositive(p, t, z);
      assert root > 0.0;
      Positive(-z, root);
      SameSign(d, h);
      SameSign(d, -h);
    } else {
      NonNegative(z, root);
      SameSign(d, h);
      SameSign(d, -h);
    }
  }
}
