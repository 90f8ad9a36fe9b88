/** nDCG at k (scripts/_calibrate_combiner.py `ndcg`, lines 88-92), over the reals. The discount
    1 / log2(rank + 2) is any positive non-increasing function of the rank. */
module RankingGain {

  /** One judged memory; a grades dictionary is a sequence of these with distinct ids. */
  datatype Graded = Graded(id: string, grade: int)

  ghost predicate DistinctIds(grades: seq<Graded>) {
    forall i, j :: 0 <= i < j < |grades| ==> grades[i].id != grades[j].id
  }

  ghost predicate Distinct(order: seq<string>) {
    forall i, j :: 0 <= i < j < |order| ==> order[i] != order[j]
  }

  /** `grades.get(id, 0)`. */
  function GradeOf(grades: seq<Graded>, id: string): int {
    if grades == [] then 0
    else if grades[|grades| - 1].id == id then grades[|grades| - 1].grade
    else GradeOf(grades[..|grades| - 1], id)
  }

  function GradesAlong(order: seq<string>, grades: seq<Graded>): seq<int> {
    if order == [] then [] else GradesAlong(order[..|order| - 1], grades) + [GradeOf(grades, order[|order| - 1])]
  }

  /** `grades.values()`. */
  function Values(grades: seq<Graded>): seq<int> {
    if grades == [] then [] else Values(grades[..|grades| - 1]) + [grades[|grades| - 1].grade]
  }

  // ----- gains -------------------------------------------------------------------------------

  /** 2^g for any integer g. */
  function Power(g: int): (p: real)
    ensures p > 0.0
    decreases if g < 0 then -g else g
  {
    if g == 0 then 1.0 else if g > 0 then 2.0 * Power(g - 1) else Power(g + 1) / 2.0
  }

  function Gain(g: int): real {
    Power(g) - 1.0
  }

  lemma {:induction false} GainMonotone(g: int, h: int)
    requires g <= h
    ensures Gain(g) <= Gain(h)
    decreases h - g
  {
    if g < h {
      GainMonotone(g, h - 1);
    }
  }

  lemma {:induction false} GainSign(g: int)
    ensures g >= 0 ==> Gain(g) >= 0.0
    ensures g < 0 ==> Gain(g) < 0.0
  {
    if g >= 0 {
      GainMonotone(0, g);
    } else {
      GainMonotone(g, -1);
      assert Power(-1) == 0.5;
    }
  }

  ghost predicate Discount(disc: nat -> real) {
    && (forall r: nat :: disc(r) > 0.0)
    && (forall r: nat, s: nat :: r <= s ==> disc(r) >= disc(s))
  }

  /** Discounted gain of a list of grades. */
  function Dcg(gs: seq<int>, disc: nat -> real): real {
    if gs == [] then 0.0
    else Dcg(gs[..|gs| - 1], disc) + Times(Gain(gs[|gs| - 1]), disc(|gs| - 1))
  }

  /** Undiscounted gain. */
  function GainSum(gs: seq<int>): real {
    if gs == [] then 0.0 else GainSum(gs[..|gs| - 1]) + Gain(gs[|gs| - 1])
  }

  // ----- sorted(values, reverse=True) --------------------------------------------------------

  ghost predicate Descending(gs: seq<int>) {
    forall i, j :: 0 <= i < j < |gs| ==> gs[i] >= gs[j]
  }

  function InsertDown(g: int, gs: seq<int>): seq<int> {
    if gs == [] || g >= gs[0] then [g] + gs else [gs[0]] + InsertDown(g, gs[1..])
  }

  function SortDown(gs: seq<int>): seq<int> {
    if gs == [] then [] else InsertDown(gs[|gs| - 1], SortDown(gs[..|gs| - 1]))
  }

  lemma {:induction false} InsertDownHolds(g: int, gs: seq<int>)
    ensures multiset(InsertDown(g, gs)) == multiset(gs) + multiset{g}
  {
    if gs != [] && g < gs[0] {
      assert gs == [gs[0]] + gs[1..];
      InsertDownHolds(g, gs[1..]);
    }
  }

  lemma {:induction false} InsertDownSorts(g: int, gs: seq<int>)
    requires Descending(gs)
    ensures Descending(InsertDown(g, gs))
  {
    if gs != [] && g < gs[0] {
      var rest := InsertDown(g, gs[1..]);
      InsertDownSorts(g, gs[1..]);
      InsertDownHolds(g, gs[1..]);
      forall i | 0 <= i < |rest| ensures rest[i] <= gs[0] {
        assert rest[i] in multiset(rest);
        assert rest[i] == g || rest[i] in gs[1..];
      }
      DescendingCons(gs[0], rest);
    } else {
      DescendingCons(g, gs);
    }
  }

  lemma {:induction false} DescendingCons(g: int, gs: seq<int>)
    requires Descending(gs) && forall i :: 0 <= i < |gs| ==> gs[i] <= g
    ensures Descending([g] + gs)
  {
  }

  lemma {:induction false} SortDownSorts(gs: seq<int>)
    ensures Descending(SortDown(gs)) && multiset(SortDown(gs)) == multiset(gs) && |SortDown(gs)| == |gs|
  {
    if gs != [] {
      var init, last := gs[..|gs| - 1], gs[|gs| - 1];
      assert gs == init + [last];
      SortDownSorts(init);
      InsertDownSorts(last, SortDown(init));
      InsertDownHolds(last, SortDown(init));
      assert |multiset(SortDown(gs))| == |multiset(gs)|;
    }
  }

  function Take<T>(s: seq<T>, k: nat): (r: seq<T>)
    ensures r == s[..if k < |s| then k else |s|]
  {
    if k < |s| then s[..k] else s
  }

  function Ideal(grades: seq<Graded>, k: nat, disc: nat -> real): real {
    Dcg(Take(SortDown(Values(grades)), k), disc)
  }

  function Ndcg(order: seq<string>, grades: seq<Graded>, k: nat, disc: nat -> real): real {
    var dcg := Dcg(GradesAlong(Take(order, k), grades), disc);
    var idcg := Ideal(grades, k, disc);
    if idcg > 0.0 then dcg / idcg else 0.0
  }

  // ----- sums --------------------------------------------------------------------------------

  lemma {:induction false} GainSumConcat(a: seq<int>, b: seq<int>)
    ensures GainSum(a + b) == GainSum(a) + GainSum(b)
  {
    if b == [] {
      assert a + b == a;
    } else {
      var init := b[..|b| - 1];
      assert (a + b)[..|a + b| - 1] == a + init;
      GainSumConcat(a, init);
    }
  }

  lemma {:induction false} DcgConcatZeros(a: seq<int>, n: nat, disc: nat -> real)
    ensures Dcg(a + Zeros(n), disc) == Dcg(a, disc)
  {
    if n == 0 {
      assert a + Zeros(0) == a;
    } else {
      var s := a + Zeros(n);
      assert s[..|s| - 1] == a + Zeros(n - 1);
      LastIsZero(s, disc);
      DcgConcatZeros(a, n - 1, disc);
    }
  }

  lemma {:induction false} LastIsZero(s: seq<int>, disc: nat -> real)
    requires s != [] && s[|s| - 1] == 0
    ensures Dcg(s, disc) == Dcg(s[..|s| - 1], disc)
  {
  }

  function Zeros(n: nat): (z: seq<int>)
    ensures |z| == n && forall i :: 0 <= i < n ==> z[i] == 0
  {
    seq(n, _ => 0)
  }

  ghost predicate NonNegative(gs: seq<int>) {
    forall i :: 0 <= i < |gs| ==> gs[i] >= 0
  }

  lemma {:induction false} LastAdds(gs: seq<int>, disc: nat -> real)
    requires Discount(disc) && gs != [] && gs[|gs| - 1] >= 0
    ensures Dcg(gs[..|gs| - 1], disc) <= Dcg(gs, disc)
  {
    var last, d := gs[|gs| - 1], disc(|gs| - 1);
    GainSign(last);
    assert Times(Gain(last), d) >= 0.0;
  }

  /** With non-negative grades, listing more never lowers the discounted gain. */
  lemma {:induction false} DcgPrefix(gs: seq<int>, n: nat, disc: nat -> real)
    requires n <= |gs| && Discount(disc) && NonNegative(gs)
    ensures 0.0 <= Dcg(gs[..n], disc) <= Dcg(gs, disc)
    decreases |gs|
  {
    if gs != [] {
      var init := gs[..|gs| - 1];
      LastAdds(gs, disc);
      if n == |gs| {
        assert gs[..n] == gs;
        DcgPrefix(init, |init|, disc);
        assert init[..|init|] == init;
      } else {
        assert gs[..n] == init[..n];
        DcgPrefix(init, n, disc);
      }
    }
  }

  // ----- rearrangement -----------------------------------------------------------------------

  function Without(s: seq<int>, t: nat): seq<int>
    requires t < |s|
  {
    s[..t] + s[t + 1..]
  }

  lemma {:induction false} WithoutSum(s: seq<int>, t: nat)
    requires t < |s|
    ensures GainSum(s) == GainSum(Without(s, t)) + Gain(s[t])
    ensures multiset(s) == multiset(Without(s, t)) + multiset{s[t]}
  {
    assert s == s[..t] + [s[t]] + s[t + 1..];
    GainSumConcat(s[..t] + [s[t]], s[t + 1..]);
    GainSumConcat(s[..t], [s[t]]);
    GainSumConcat(s[..t], s[t + 1..]);
    assert GainSum([s[t]]) == Gain(s[t]);
  }

  /** No selection from a descending list gains more than its first entries. */
  lemma {:induction false} TopIsBest(sorted: seq<int>, xs: seq<int>)
    requires Descending(sorted) && multiset(xs) <= multiset(sorted)
    ensures |xs| <= |sorted|
    ensures GainSum(xs) <= GainSum(sorted[..|xs|])
    decreases |sorted|
  {
    if xs != [] {
      assert xs[0] in multiset(xs);
      var s0, rest := sorted[0], sorted[1..];
      assert sorted == [s0] + rest && Descending(rest);
      if t :| 0 <= t < |xs| && xs[t] == s0 {
        TopIsBestWithFirst(s0, rest, xs, t);
      } else {
        TopIsBestWithoutFirst(sorted, xs);
      }
    }
  }

  lemma {:induction false} TopIsBestWithFirst(s0: int, rest: seq<int>, xs: seq<int>, t: nat)
    requires Descending(rest) && multiset(xs) <= multiset([s0] + rest) && t < |xs| && xs[t] == s0
    ensures |xs| <= |rest| + 1 && GainSum(xs) <= GainSum(([s0] + rest)[..|xs|])
    decreases |rest| + 1, 0
  {
    DropFirst(s0, rest, xs, t);
    TopIsBest(rest, Without(xs, t));
    KeepFirst(s0, rest, |xs|);
  }

  lemma {:induction false} DropFirst(s0: int, rest: seq<int>, xs: seq<int>, t: nat)
    requires multiset(xs) <= multiset([s0] + rest) && t < |xs| && xs[t] == s0
    ensures multiset(Without(xs, t)) <= multiset(rest)
    ensures GainSum(xs) == GainSum(Without(xs, t)) + Gain(s0)
  {
    WithoutSum(xs, t);
    var most := multiset([s0] + rest);
    assert most == multiset{s0} + multiset(rest);
    assert multiset(Without(xs, t)) == multiset(xs) - multiset{s0};
    assert multiset(rest) == most - multiset{s0};
  }

  lemma {:induction false} KeepFirst(s0: int, rest: seq<int>, n: nat)
    requires 0 < n <= |rest| + 1
    ensures GainSum(([s0] + rest)[..n]) == Gain(s0) + GainSum(rest[..n - 1])
  {
    assert ([s0] + rest)[..n] == [s0] + rest[..n - 1];
    GainSumConcat([s0], rest[..n - 1]);
    assert GainSum([s0]) == Gain(s0);
  }

  lemma {:induction false} TopIsBestWithoutFirst(sorted: seq<int>, xs: seq<int>)
    requires Descending(sorted) && multiset(xs) <= multiset(sorted)
    requires xs != [] && sorted != [] && sorted[0] !in xs
    ensures |xs| <= |sorted| && GainSum(xs) <= GainSum(sorted[..|xs|])
    decreases |sorted|, 0
  {
    var s0, rest, n := sorted[0], sorted[1..], |xs|;
    assert sorted == [s0] + rest;
    DropAbsent(s0, rest, xs);
    TopIsBest(rest, xs);
    ShiftedTop(s0, rest, n);
  }

  lemma {:induction false} DropAbsent(s0: int, rest: seq<int>, xs: seq<int>)
    requires multiset(xs) <= multiset([s0] + rest) && s0 !in xs
    ensures multiset(xs) <= multiset(rest)
  {
  }

  lemma {:induction false} ShiftedTop(s0: int, rest: seq<int>, n: nat)
    requires Descending([s0] + rest) && 0 < n <= |rest|
    ensures GainSum(rest[..n]) <= GainSum(([s0] + rest)[..n])
  {
    var mid, last := rest[..n - 1], rest[n - 1];
    KeepFirst(s0, rest, n);
    assert rest[..n] == mid + [last];
    GainSumConcat(mid, [last]);
    assert GainSum([last]) == Gain(last);
    assert ([s0] + rest)[0] >= ([s0] + rest)[n];
    GainMonotone(last, s0);
  }

  /** Summation by parts: if every prefix of ys gains at least the same prefix of xs, ys gains at
      least as much under any non-increasing discount, by the margin of the last prefix. */
  lemma {:induction false} PrefixesDecide(xs: seq<int>, ys: seq<int>, disc: nat -> real)
    requires Discount(disc) && PrefixesBelow(xs, ys)
    ensures Dcg(ys, disc) - Dcg(xs, disc) >= Margin(xs, ys, disc)
  {
    if xs != [] {
      PrefixesShrink(xs, ys);
      PrefixesDecide(xs[..|xs| - 1], ys[..|xs| - 1], disc);
      OneMoreRank(xs, ys, disc);
    }
  }

  function Times(x: real, y: real): real {
    x * y
  }

  function Margin(xs: seq<int>, ys: seq<int>, disc: nat -> real): real
    requires |xs| == |ys|
  {
    if xs == [] then 0.0 else Times(GainSum(ys) - GainSum(xs), disc(|xs| - 1))
  }

  lemma {:induction false} OneMoreRank(xs: seq<int>, ys: seq<int>, disc: nat -> real)
    requires Discount(disc) && |xs| == |ys| && xs != []
    requires var xi, yi := xs[..|xs| - 1], ys[..|xs| - 1];
             GainSum(xi) <= GainSum(yi) && Dcg(yi, disc) - Dcg(xi, disc) >= Margin(xi, yi, disc)
    ensures Dcg(ys, disc) - Dcg(xs, disc) >= Margin(xs, ys, disc)
  {
    var n := |xs| - 1;
    var xi, yi := xs[..n], ys[..n];
    var before := if n == 0 then disc(0) else disc(n - 1);
    var margin := GainSum(yi) - GainSum(xi);
    if n == 0 {
      assert xi == [] && yi == [];
    }
    PartialSum(Dcg(xi, disc), Dcg(yi, disc), margin, Gain(xs[n]), Gain(ys[n]), GainSum(ys) - GainSum(xs), before, disc(n));
  }

  ghost predicate PrefixBelow(xs: seq<int>, ys: seq<int>, j: nat)
    requires j <= |xs| && j <= |ys|
  {
    GainSum(xs[..j]) <= GainSum(ys[..j])
  }

  ghost predicate PrefixesBelow(xs: seq<int>, ys: seq<int>) {
    |xs| == |ys| && forall j {:trigger PrefixBelow(xs, ys, j)} :: 0 <= j <= |xs| ==> PrefixBelow(xs, ys, j)
  }

  lemma {:induction false} PrefixesShrink(xs: seq<int>, ys: seq<int>)
    requires PrefixesBelow(xs, ys) && xs != []
    ensures PrefixesBelow(xs[..|xs| - 1], ys[..|xs| - 1])
    ensures GainSum(xs[..|xs| - 1]) <= GainSum(ys[..|xs| - 1])
  {
    var n := |xs| - 1;
    var xi, yi := xs[..n], ys[..n];
    forall j | 0 <= j <= n ensures PrefixBelow(xi, yi, j) {
      assert PrefixBelow(xs, ys, j);
      assert xi[..j] == xs[..j] && yi[..j] == ys[..j];
    }
    assert PrefixBelow(xs, ys, n);
  }

  lemma {:induction false} PartialSum(dx: real, dy: real, margin: real, a: real, b: real, total: real, before: real, now: real)
    requires margin >= 0.0 && before >= now && total == margin + b - a
    requires dy - dx >= Times(margin, before) || (margin == 0.0 && dy - dx >= 0.0)
    ensures (dy + Times(b, now)) - (dx + Times(a, now)) >= Times(total, now)
  {
  }

  /** A list drawn from a descending one never beats the same number of its first entries. */
  lemma {:induction false} DrawnIsNoBetter(sorted: seq<int>, xs: seq<int>, disc: nat -> real)
    requires Descending(sorted) && multiset(xs) <= multiset(sorted) && Discount(disc)
    ensures |xs| <= |sorted| && Dcg(xs, disc) <= Dcg(sorted[..|xs|], disc)
  {
    TopIsBest(sorted, xs);
    var ys := sorted[..|xs|];
    DrawnPrefixes(sorted, xs);
    PrefixesDecide(xs, ys, disc);
    if xs != [] {
      var rise, d := GainSum(ys) - GainSum(xs), disc(|xs| - 1);
      assert Margin(xs, ys, disc) == Times(rise, d) == rise * d;
    }
  }

  lemma {:induction false} DrawnPrefixes(sorted: seq<int>, xs: seq<int>)
    requires Descending(sorted) && multiset(xs) <= multiset(sorted) && |xs| <= |sorted|
    ensures PrefixesBelow(xs, sorted[..|xs|])
  {
    var ys := sorted[..|xs|];
    forall j | 0 <= j <= |xs| ensures PrefixBelow(xs, ys, j) {
      PrefixIsDrawn(sorted, xs, j);
      TopIsBest(sorted, xs[..j]);
      assert ys[..j] == sorted[..j];
    }
  }

  lemma {:induction false} PrefixIsDrawn(sorted: seq<int>, xs: seq<int>, j: nat)
    requires multiset(xs) <= multiset(sorted) && j <= |xs|
    ensures multiset(xs[..j]) <= multiset(sorted)
  {
    assert xs == xs[..j] + xs[j..];
  }

  // ----- grades along an order are drawn from the judged grades --------------------------------

  function Drop<T>(s: seq<T>, t: nat): seq<T>
    requires t < |s|
  {
    s[..t] + s[t + 1..]
  }

  lemma {:induction false} GradeFound(grades: seq<Graded>, t: nat)
    requires DistinctIds(grades) && t < |grades|
    ensures GradeOf(grades, grades[t].id) == grades[t].grade
  {
    if t < |grades| - 1 {
      GradeFound(grades[..|grades| - 1], t);
    }
  }

  lemma {:induction false} GradeMissing(grades: seq<Graded>, id: string)
    requires forall i :: 0 <= i < |grades| ==> grades[i].id != id
    ensures GradeOf(grades, id) == 0
  {
    if grades != [] {
      GradeMissing(grades[..|grades| - 1], id);
    }
  }

  /** Forgetting one judged memory changes the grade of no other id. */
  lemma {:induction false} GradeAfterDrop(grades: seq<Graded>, t: nat, id: string)
    requires DistinctIds(grades) && t < |grades| && id != grades[t].id
    ensures DistinctIds(Drop(grades, t)) && GradeOf(Drop(grades, t), id) == GradeOf(grades, id)
  {
    var left := Drop(grades, t);
    forall i, j | 0 <= i < j < |left| ensures left[i].id != left[j].id {
      assert left[i] == grades[if i < t then i else i + 1] && left[j] == grades[if j < t then j else j + 1];
    }
    if u :| 0 <= u < |grades| && grades[u].id == id {
      GradeFound(grades, u);
      var u' := if u < t then u else u - 1;
      assert left[u'] == grades[u];
      GradeFound(left, u');
    } else {
      GradeMissing(grades, id);
      forall i | 0 <= i < |left| ensures left[i].id != id {
        assert left[i] == grades[if i < t then i else i + 1];
      }
      GradeMissing(left, id);
    }
  }

  lemma {:induction false} GradesAlongDrop(order: seq<string>, grades: seq<Graded>, t: nat)
    requires DistinctIds(grades) && t < |grades| && grades[t].id !in order
    ensures GradesAlong(order, grades) == GradesAlong(order, Drop(grades, t))
  {
    if order != [] {
      GradesAlongDrop(order[..|order| - 1], grades, t);
      assert order[|order| - 1] in order;
      GradeAfterDrop(grades, t, order[|order| - 1]);
    }
  }

  lemma {:induction false} ValuesSnoc(init: seq<Graded>, last: Graded)
    ensures multiset(Values(init + [last])) == multiset(Values(init)) + multiset{last.grade}
  {
  }

  lemma {:induction false} DropSnoc<T>(s: seq<T>, t: nat)
    requires t < |s| - 1
    ensures Drop(s, t) == Drop(s[..|s| - 1], t) + [s[|s| - 1]]
  {
  }

  lemma {:induction false} ValuesDrop(grades: seq<Graded>, t: nat)
    requires t < |grades|
    ensures multiset(Values(grades)) == multiset(Values(Drop(grades, t))) + multiset{grades[t].grade}
  {
    var init, last := grades[..|grades| - 1], grades[|grades| - 1];
    assert grades == init + [last];
    ValuesSnoc(init, last);
    if t < |init| {
      ValuesDrop(init, t);
      DropSnoc(grades, t);
      ValuesSnoc(Drop(init, t), last);
    } else {
      assert Drop(grades, t) == init;
    }
  }

  lemma {:induction false} AlongLength(order: seq<string>, grades: seq<Graded>)
    ensures |GradesAlong(order, grades)| == |order|
    ensures forall i :: 0 <= i < |order| ==> GradesAlong(order, grades)[i] == GradeOf(grades, order[i])
  {
    if order != [] {
      AlongLength(order[..|order| - 1], grades);
    }
  }

  /** Along distinct ids each judged grade is met at most once; every other place grades 0. */
  lemma {:induction false} AlongIsDrawn(order: seq<string>, grades: seq<Graded>)
    requires Distinct(order) && DistinctIds(grades)
    ensures multiset(GradesAlong(order, grades)) <= multiset(Values(grades) + Zeros(|order|))
    decreases |order|, 0
  {
    if order != [] {
      var init, last := order[..|order| - 1], order[|order| - 1];
      assert last !in init;
      OneMoreZero(Values(grades), |init|);
      var met, grade := GradesAlong(init, grades), GradeOf(grades, last);
      assert multiset(met + [grade]) == multiset(met) + multiset{grade};
      if t :| 0 <= t < |grades| && grades[t].id == last {
        GradeFound(grades, t);
        AlongIsDrawnAfter(init, grades, t);
      } else {
        GradeMissing(grades, last);
        AlongIsDrawn(init, grades);
      }
    }
  }

  lemma {:induction false} OneMoreZero(values: seq<int>, n: nat)
    ensures multiset(values + Zeros(n + 1)) == multiset(values + Zeros(n)) + multiset{0}
  {
    assert values + Zeros(n + 1) == values + Zeros(n) + [0];
  }

  lemma {:induction false} AlongIsDrawnAfter(init: seq<string>, grades: seq<Graded>, t: nat)
    requires Distinct(init) && DistinctIds(grades) && t < |grades| && grades[t].id !in init
    ensures multiset(GradesAlong(init, grades)) + multiset{grades[t].grade} <= multiset(Values(grades) + Zeros(|init|))
    decreases |init|, 1
  {
    DropKeepsDistinct(grades, t);
    GradesAlongDrop(init, grades, t);
    AlongIsDrawn(init, Drop(grades, t));
    ValuesDrop(grades, t);
  }

  lemma {:induction false} DropKeepsDistinct(grades: seq<Graded>, t: nat)
    requires DistinctIds(grades) && t < |grades|
    ensures DistinctIds(Drop(grades, t))
  {
  }

  /** Conversely, an order that names every judged id meets every judged grade. */
  lemma {:induction false} AlongHoldsAll(order: seq<string>, grades: seq<Graded>)
    requires Distinct(order) && DistinctIds(grades) && NamesAll(order, grades)
    ensures multiset(Values(grades)) <= multiset(GradesAlong(order, grades))
    decreases |grades|
  {
    if grades != [] {
      var n := |grades| - 1;
      var init, id := grades[..n], grades[n].id;
      var t :| 0 <= t < |order| && order[t] == id;
      var rest := Drop(order, t);
      AlongDrop(order, grades, t);
      AlongHoldsAll(rest, init);
      assert Drop(grades, n) == init;
      GradesAlongDrop(rest, grades, n);
      GradeFound(grades, n);
      LastValue(grades);
    }
  }

  lemma {:induction false} LastValue(grades: seq<Graded>)
    requires grades != []
    ensures multiset(Values(grades)) == multiset(Values(grades[..|grades| - 1])) + multiset{grades[|grades| - 1].grade}
  {
  }

  ghost predicate NamesAll(order: seq<string>, grades: seq<Graded>) {
    forall i :: 0 <= i < |grades| ==> grades[i].id in order
  }

  lemma {:induction false} AlongDrop(order: seq<string>, grades: seq<Graded>, t: nat)
    requires t < |order|
    ensures multiset(GradesAlong(order, grades))
         == multiset(GradesAlong(Drop(order, t), grades)) + multiset{GradeOf(grades, order[t])}
  {
    var init, last := order[..|order| - 1], order[|order| - 1];
    assert order == init + [last];
    if t < |init| {
      AlongDrop(init, grades, t);
      DropSnoc(order, t);
    } else {
      assert Drop(order, t) == init;
    }
  }

  // ----- the range of nDCG -------------------------------------------------------------------

  ghost predicate NoNegativeGrade(grades: seq<Graded>) {
    forall i :: 0 <= i < |grades| ==> grades[i].grade >= 0
  }

  lemma {:induction false} ValuesAt(grades: seq<Graded>)
    ensures |Values(grades)| == |grades| && forall i :: 0 <= i < |grades| ==> Values(grades)[i] == grades[i].grade
  {
    if grades != [] {
      ValuesAt(grades[..|grades| - 1]);
    }
  }

  lemma {:induction false} SortedStaysNonNegative(grades: seq<Graded>)
    requires NoNegativeGrade(grades)
    ensures NonNegative(SortDown(Values(grades)))
  {
    var sorted := SortDown(Values(grades));
    SortDownSorts(Values(grades));
    ValuesAt(grades);
    forall i | 0 <= i < |sorted| ensures sorted[i] >= 0 {
      assert sorted[i] in multiset(sorted);
      assert sorted[i] in Values(grades);
    }
  }

  lemma {:induction false} AlongNonNegative(order: seq<string>, grades: seq<Graded>)
    requires NoNegativeGrade(grades)
    ensures NonNegative(GradesAlong(order, grades))
  {
    AlongLength(order, grades);
    forall i | 0 <= i < |order| ensures GradeOf(grades, order[i]) >= 0 {
      GradeNonNegative(grades, order[i]);
    }
  }

  lemma {:induction false} GradeNonNegative(grades: seq<Graded>, id: string)
    requires NoNegativeGrade(grades)
    ensures GradeOf(grades, id) >= 0
  {
    if grades != [] {
      GradeNonNegative(grades[..|grades| - 1], id);
    }
  }

  /** No listing of distinct ids gains more than the ideal one. */
  lemma {:induction false} ListingBelowIdeal(order: seq<string>, grades: seq<Graded>, k: nat, disc: nat -> real)
    requires Distinct(order) && DistinctIds(grades) && NoNegativeGrade(grades) && Discount(disc)
    ensures 0.0 <= Dcg(GradesAlong(Take(order, k), grades), disc) <= Ideal(grades, k, disc)
  {
    var top := Take(order, k);
    var xs, sorted := GradesAlong(top, grades), SortDown(Values(grades));
    SortDownSorts(Values(grades));
    SortedStaysNonNegative(grades);
    AlongIsDrawn(top, grades);
    AlongLength(top, grades);
    AlongNonNegative(top, grades);
    var padded := sorted + Zeros(|top|);
    assert multiset(padded) == multiset(Values(grades) + Zeros(|top|));
    DrawnIsNoBetter(padded, xs, disc);
    PaddedPrefix(sorted, |top|, k, disc);
    DcgPrefix(xs, 0, disc);
  }

  lemma {:induction false} PaddedPrefix(sorted: seq<int>, n: nat, k: nat, disc: nat -> real)
    requires NonNegative(sorted) && Discount(disc) && n <= k
    ensures Dcg((sorted + Zeros(n))[..n], disc) <= Dcg(Take(sorted, k), disc)
  {
    var best := Take(sorted, k);
    if n <= |sorted| {
      assert (sorted + Zeros(n))[..n] == best[..n];
      DcgPrefix(best, n, disc);
    } else {
      assert (sorted + Zeros(n))[..n] == sorted + Zeros(n - |sorted|);
      DcgConcatZeros(sorted, n - |sorted|, disc);
      DcgPrefix(best, |best|, disc);
      assert best == sorted;
    }
  }

  /** nDCG of distinct ids with non-negative grades always lies in [0, 1]. */
  lemma {:induction false} NdcgInUnit(order: seq<string>, grades: seq<Graded>, k: nat, disc: nat -> real)
    requires Distinct(order) && DistinctIds(grades) && NoNegativeGrade(grades) && Discount(disc)
    ensures 0.0 <= Ndcg(order, grades, k, disc) <= 1.0
  {
    ListingBelowIdeal(order, grades, k, disc);
    if Ideal(grades, k, disc) > 0.0 {
      RatioInUnit(Dcg(GradesAlong(Take(order, k), grades), disc), Ideal(grades, k, disc));
    }
  }

  lemma {:induction false} RatioInUnit(x: real, y: real)
    requires y > 0.0
    ensures x <= y ==> x / y <= 1.0
    ensures x >= 0.0 ==> x / y >= 0.0
    ensures x < 0.0 ==> x / y < 0.0
    ensures x == y ==> x / y == 1.0
  {
    var r := x / y;
    assert r * y == x;
    if r > 1.0 {
      assert (r - 1.0) * y > 0.0;
    }
  }

  ghost predicate InUnitForAllOrders(grades: seq<Graded>, k: nat, disc: nat -> real) {
    forall order :: Distinct(order) ==> 0.0 <= Ndcg(order, grades, k, disc) <= 1.0
  }

  /** The source does not check the judge's grades. Every listing scores in [0, 1] iff there is
      nothing to gain or no grade is negative. */
  lemma {:induction false} NdcgInUnitIff(grades: seq<Graded>, k: nat, disc: nat -> real)
    requires DistinctIds(grades) && Discount(disc)
    ensures InUnitForAllOrders(grades, k, disc) <==> Ideal(grades, k, disc) <= 0.0 || NoNegativeGrade(grades)
  {
    if NoNegativeGrade(grades) {
      forall order | Distinct(order) ensures 0.0 <= Ndcg(order, grades, k, disc) <= 1.0 {
        NdcgInUnit(order, grades, k, disc);
      }
    } else if Ideal(grades, k, disc) > 0.0 {
      var t :| 0 <= t < |grades| && grades[t].grade < 0;
      var order := [grades[t].id];
      assert k > 0 by {
        assert Take(SortDown(Values(grades)), 0) == [];
      }
      assert Take(order, k) == order && order[..0] == [];
      GradeFound(grades, t);
      assert GradesAlong(order, grades) == [grades[t].grade];
      OneNegative(grades[t].grade, disc);
      RatioInUnit(Dcg([grades[t].grade], disc), Ideal(grades, k, disc));
      assert Distinct(order) && Ndcg(order, grades, k, disc) < 0.0;
    }
  }

  /** A judge that grades one memory -1 and another 1: listing the first alone scores -1/2 at k = 1. */
  lemma {:induction false} NegativeGradeLeavesUnit(disc: nat -> real)
    requires Discount(disc)
    ensures Ndcg(["a"], [Graded("a", -1), Graded("b", 1)], 1, disc) == -0.5
  {
    var grades := [Graded("a", -1), Graded("b", 1)];
    assert grades[..1] == [Graded("a", -1)] && grades[..1][..0] == [];
    assert Values(grades[..1]) == [-1] && Values(grades) == [-1, 1];
    assert [-1, 1][..1] == [-1] && [-1][..0] == [];
    assert SortDown([-1]) == InsertDown(-1, SortDown([-1][..0])) == [-1];
    assert SortDown([-1, 1]) == InsertDown(1, SortDown([-1, 1][..1])) == [1, -1];
    assert "b" != "a" && GradeOf(grades, "a") == GradeOf(grades[..1], "a") == -1;
    assert ["a"][..0] == [] && GradesAlong(["a"], grades) == [-1];
    OneGrade(-1, disc);
    OneGrade(1, disc);
    assert Power(-1) == 0.5 && Power(1) == 2.0;
    Halved(disc(0));
  }

  lemma {:induction false} OneGrade(g: int, disc: nat -> real)
    ensures Dcg([g], disc) == Times(Gain(g), disc(0))
  {
    assert [g][..0] == [];
  }

  lemma {:induction false} Halved(d: real)
    requires d > 0.0
    ensures Times(-0.5, d) / Times(1.0, d) == -0.5
  {
    assert Times(-0.5, d) == -0.5 * Times(1.0, d);
  }

  lemma {:induction false} OneNegative(g: int, disc: nat -> real)
    requires g < 0 && Discount(disc)
    ensures Dcg([g], disc) < 0.0
  {
    GainSign(g);
    assert [g][..0] == [];
    assert disc(0) > 0.0;
    NegativeTimes(Gain(g), disc(0));
  }

  lemma {:induction false} NegativeTimes(x: real, d: real)
    requires x < 0.0 && d > 0.0
    ensures Times(x, d) < 0.0
  {
  }

  /** A listing that names every judged id in descending order of grade is ideal: it scores 1. */
  lemma {:induction false} GradeOrderScoresOne(order: seq<string>, grades: seq<Graded>, k: nat, disc: nat -> real)
    requires Distinct(order) && DistinctIds(grades) && NoNegativeGrade(grades) && Discount(disc)
    requires NamesAll(order, grades) && Descending(GradesAlong(order, grades))
    requires Ideal(grades, k, disc) > 0.0
    ensures Ndcg(order, grades, k, disc) == 1.0
  {
    TakeAlong(order, grades, k);
    IdealBelowListing(order, grades, k, disc);
    ListingBelowIdeal(order, grades, k, disc);
    RatioInUnit(Dcg(Take(GradesAlong(order, grades), k), disc), Ideal(grades, k, disc));
  }

  lemma {:induction false} IdealBelowListing(order: seq<string>, grades: seq<Graded>, k: nat, disc: nat -> real)
    requires Distinct(order) && DistinctIds(grades) && NoNegativeGrade(grades) && Discount(disc)
    requires NamesAll(order, grades) && Descending(GradesAlong(order, grades))
    ensures Ideal(grades, k, disc) <= Dcg(Take(GradesAlong(order, grades), k), disc)
  {
    var along, sorted := GradesAlong(order, grades), SortDown(Values(grades));
    SortDownSorts(Values(grades));
    AlongHoldsAll(order, grades);
    AlongNonNegative(order, grades);
    var best := Take(sorted, k);
    PrefixIsDrawn(along, sorted, |best|);
    DrawnIsNoBetter(along, best, disc);
    PrefixOfPrefix(along, |best|, k, disc);
  }

  lemma {:induction false} PrefixOfPrefix(gs: seq<int>, n: nat, k: nat, disc: nat -> real)
    requires NonNegative(gs) && Discount(disc) && n <= k && n <= |gs|
    ensures Dcg(gs[..n], disc) <= Dcg(Take(gs, k), disc)
  {
    assert gs[..n] == Take(gs, k)[..n];
    DcgPrefix(Take(gs, k), n, disc);
  }

  lemma {:induction false} TakeAlong(order: seq<string>, grades: seq<Graded>, k: nat)
    ensures GradesAlong(Take(order, k), grades) == Take(GradesAlong(order, grades), k)
  {
    AlongLength(Take(order, k), grades);
    AlongLength(order, grades);
  }
}
