/** What span alignment means, independently of the loops that compute it: the overlap graph, its
    accepted components (claim heads), the exact-key buckets, and how the two partitions relate
    (scripts/eval_span_alignment.py 48-71 and 134-175, scripts/probe_scalar_proposer_reviewer.py). */
module ClaimHeads {
  import opened Common
  import opened VoteGate
  import opened Components

  /** The fields of a proposal that alignment looks at. `key` is its `source_key`, `reading` its
      `_interpretation_label`, `value` its `normalized_value`. */
  datatype Proposal = Proposal(episode: string, start: int, end: int, key: string, reading: string, value: string)

  /** One entry of `flat`: the sample a proposal came from, and the proposal. */
  datatype Entry = Entry(sample: nat, p: Proposal)

  type Flat = seq<Entry>

  // ----- one-dimensional Helly ---------------------------------------------------------------

  function MaxOf(xs: seq<int>): (m: int)
    requires xs != []
    ensures m in xs && forall x :: x in xs ==> x <= m
  {
    if |xs| == 1 then xs[0]
    else
      assert xs == [xs[0]] + xs[1..];
      var m := MaxOf(xs[1..]);
      if xs[0] > m then xs[0] else m
  }

  function MinOf(xs: seq<int>): (m: int)
    requires xs != []
    ensures m in xs && forall x :: x in xs ==> m <= x
  {
    if |xs| == 1 then xs[0]
    else
      assert xs == [xs[0]] + xs[1..];
      var m := MinOf(xs[1..]);
      if xs[0] < m then xs[0] else m
  }

  function Starts(ps: seq<Proposal>): seq<int> {
    seq(|ps|, i requires 0 <= i < |ps| => ps[i].start)
  }

  function Ends(ps: seq<Proposal>): seq<int> {
    seq(|ps|, i requires 0 <= i < |ps| => ps[i].end)
  }

  predicate CommonIntersection(ps: seq<Proposal>)
    requires ps != []
  {
    MaxOf(Starts(ps)) < MinOf(Ends(ps))
  }

  ghost predicate Covers(p: Proposal, x: int) {
    p.start <= x < p.end
  }

  ghost predicate AllCover(ps: seq<Proposal>, x: int) {
    forall p :: p in ps ==> Covers(p, x)
  }

  predicate Overlap(p: Proposal, q: Proposal) {
    p.start < q.end && q.start < p.end
  }

  /** The test on the extreme bounds holds iff all spans share a character position, iff every span
      starts before every span ends. */
  lemma {:induction false} CommonIntersectionMeaning(ps: seq<Proposal>)
    requires ps != []
    ensures CommonIntersection(ps) <==> exists x :: AllCover(ps, x)
    ensures CommonIntersection(ps) <==> forall p, q :: p in ps && q in ps ==> p.start < q.end
  {
    var lo, hi := MaxOf(Starts(ps)), MinOf(Ends(ps));
    var a :| 0 <= a < |ps| && Starts(ps)[a] == lo;
    var b :| 0 <= b < |ps| && Ends(ps)[b] == hi;
    forall p | p in ps ensures p.start <= lo && hi <= p.end {
      var i :| 0 <= i < |ps| && ps[i] == p;
      assert Starts(ps)[i] in Starts(ps) && Ends(ps)[i] in Ends(ps);
    }
    if CommonIntersection(ps) {
      assert AllCover(ps, lo);
    }
    if x :| AllCover(ps, x) {
      assert Covers(ps[a], x) && Covers(ps[b], x);
    }
    assert ps[a] in ps && ps[b] in ps;
  }

  /** Helly's theorem on a line: two or more non-empty spans share a position iff every two of
      them overlap. */
  lemma {:induction false} Helly(ps: seq<Proposal>)
    requires ps != []
    requires forall p :: p in ps ==> p.start < p.end
    ensures CommonIntersection(ps) <==> forall i, j :: 0 <= i < j < |ps| ==> Overlap(ps[i], ps[j])
  {
    CommonIntersectionMeaning(ps);
    if forall i, j :: 0 <= i < j < |ps| ==> Overlap(ps[i], ps[j]) {
      forall p, q | p in ps && q in ps ensures p.start < q.end {
        var i :| 0 <= i < |ps| && ps[i] == p;
        var j :| 0 <= j < |ps| && ps[j] == q;
        assert i < j ==> Overlap(ps[i], ps[j]);
        assert j < i ==> Overlap(ps[j], ps[i]);
      }
    }
  }

  /** An empty span can lie strictly inside a longer one: the pair overlaps but shares nothing. */
  lemma {:induction false} EmptySpanBreaksHelly()
    ensures var ps := [Proposal("e", 5, 5, "k1", "r", "v"), Proposal("e", 0, 10, "k2", "r", "v")];
            Overlap(ps[0], ps[1]) && !CommonIntersection(ps)
  {
  }

  // ----- the overlap graph -------------------------------------------------------------------

  /** Two readings may be linked: same episode, different samples, overlapping spans. */
  predicate Adjacent(a: Entry, b: Entry) {
    a.p.episode == b.p.episode && a.sample != b.sample && Overlap(a.p, b.p)
  }

  predicate IsIndex(flat: Flat, i: nat) {
    i < |flat|
  }

  function All(flat: Flat): set<nat> {
    set i: nat | i < |flat| && IsIndex(flat, i)
  }

  ghost function OverlapEdges(flat: Flat): Edges {
    map i: nat | i < |flat| :: set j: nat | j < |flat| && Adjacent(flat[i], flat[j])
  }

  /** Indices of all readings connected to reading `i`, itself included. */
  ghost function Component(flat: Flat, i: nat): set<nat> {
    set j: nat | j < |flat| && Connected(OverlapEdges(flat), i, j)
  }

  lemma {:induction false} ComponentIsComponent(flat: Flat, i: nat)
    requires i < |flat|
    ensures i in Component(flat, i)
    ensures IsComponent(OverlapEdges(flat), Component(flat, i))
    ensures Closed(OverlapEdges(flat), Component(flat, i))
  {
    var edges := OverlapEdges(flat);
    ConnectedSelf(edges, i);
    forall a, b | a in Component(flat, i) && b in Neighbours(edges, a) ensures b in Component(flat, i) {
      ConnectedStep(edges, i, a, b);
    }
    ClosedConnectedIsComponent(edges, Component(flat, i), i);
  }

  /** Any component is the component of each of its members. */
  lemma {:induction false} ComponentUnique(flat: Flat, s: set<nat>, i: nat)
    requires i < |flat| && i in s && IsComponent(OverlapEdges(flat), s)
    ensures s == Component(flat, i)
  {
    forall j | j in s ensures j in Component(flat, i) {
      ConnectedStays(OverlapEdges(flat), All(flat), i, j);
    }
  }

  lemma {:induction false} ComponentOfMember(flat: Flat, i: nat, j: nat)
    requires i < |flat| && j in Component(flat, i)
    ensures Component(flat, j) == Component(flat, i)
  {
    ComponentIsComponent(flat, i);
    ComponentUnique(flat, Component(flat, i), j);
  }

  lemma {:induction false} AdjacentJoins(flat: Flat, i: nat, j: nat)
    requires i < |flat| && j < |flat| && Adjacent(flat[i], flat[j])
    ensures j in Component(flat, i)
  {
    ConnectedSelf(OverlapEdges(flat), i);
    ConnectedStep(OverlapEdges(flat), i, i, j);
  }

  lemma {:induction false} ComponentStaysInEpisode(flat: Flat, i: nat, j: nat)
    requires i < |flat| && j in Component(flat, i)
    ensures flat[j].p.episode == flat[i].p.episode
  {
    var s := set x: nat | x < |flat| && flat[x].p.episode == flat[i].p.episode;
    ConnectedStays(OverlapEdges(flat), s, i, j);
  }

  // ----- accepted components -----------------------------------------------------------------

  ghost predicate Within(flat: Flat, s: set<nat>) {
    forall i :: i in s ==> i < |flat|
  }

  ghost predicate OnePerSample(flat: Flat, s: set<nat>)
    requires Within(flat, s)
  {
    forall i, j :: i in s && j in s && i != j ==> flat[i].sample != flat[j].sample
  }

  /** Every span of the group starts before every span of it ends. */
  ghost predicate SharePosition(flat: Flat, s: set<nat>)
    requires Within(flat, s)
  {
    forall i, j :: i in s && j in s ==> flat[i].p.start < flat[j].p.end
  }

  /** The grouping rule: two or more readings, one per sample, with a common position. */
  ghost predicate Accepted(flat: Flat, s: set<nat>)
    requires Within(flat, s)
  {
    |s| >= 2 && OnePerSample(flat, s) && SharePosition(flat, s)
  }

  ghost predicate Clique(flat: Flat, s: set<nat>)
    requires Within(flat, s)
  {
    forall i, j :: i in s && j in s && i != j ==> Adjacent(flat[i], flat[j])
  }

  lemma {:induction false} OtherMember(s: set<nat>, i: nat) returns (j: nat)
    requires |s| >= 2 && i in s
    ensures j in s && j != i
  {
    assert |s - {i}| == |s| - 1;
    j :| j in s - {i};
  }

  /** A component of two or more readings becomes a claim head iff it is a clique of the overlap
      graph and holds no empty span: chained overlap alone is never enough. */
  lemma {:induction false} AcceptedIsClique(flat: Flat, i: nat)
    requires i < |flat| && |Component(flat, i)| >= 2
    ensures Accepted(flat, Component(flat, i)) <==>
              Clique(flat, Component(flat, i))
              && forall j :: j in Component(flat, i) ==> flat[j].p.start < flat[j].p.end
  {
    forall j | j in Component(flat, i) ensures flat[j].p.episode == flat[i].p.episode {
      ComponentStaysInEpisode(flat, i, j);
    }
  }

  /** `A` overlaps `B`, `B` overlaps `C`, but `A` and `C` are apart: one component, no head. */
  lemma {:induction false} ChainIsRejected()
    ensures var flat := [Entry(0, Proposal("e", 0, 4, "a", "r", "v")),
                         Entry(1, Proposal("e", 3, 8, "b", "r", "v")),
                         Entry(2, Proposal("e", 7, 9, "c", "r", "v"))];
            Component(flat, 0) == {0, 1, 2} && !Accepted(flat, Component(flat, 0))
  {
    var flat := [Entry(0, Proposal("e", 0, 4, "a", "r", "v")),
                 Entry(1, Proposal("e", 3, 8, "b", "r", "v")),
                 Entry(2, Proposal("e", 7, 9, "c", "r", "v"))];
    AdjacentJoins(flat, 0, 1);
    ComponentIsComponent(flat, 0);
    assert 2 in Neighbours(OverlapEdges(flat), 1);
    assert forall j :: j in Component(flat, 0) ==> j in {0, 1, 2};
    assert 0 in Component(flat, 0) && 2 in Component(flat, 0);
  }

  // ----- buckets and heads as families of index sets -----------------------------------------

  ghost predicate InHead(flat: Flat, i: nat) {
    i < |flat| && Accepted(flat, Component(flat, i))
  }

  /** `grouped_idx`. */
  ghost function Grouped(flat: Flat): set<nat> {
    set i: nat | i < |flat| && InHead(flat, i)
  }

  ghost function Heads(flat: Flat): set<set<nat>> {
    set i: nat | i < |flat| && InHead(flat, i) :: Component(flat, i)
  }

  ghost function Bucket(flat: Flat, within: set<nat>, key: string): set<nat> {
    set i: nat | i < |flat| && i in within && flat[i].p.key == key
  }

  /** The exact-key buckets of the chosen readings. */
  ghost function Buckets(flat: Flat, within: set<nat>): set<set<nat>> {
    set i: nat | i < |flat| && i in within :: Bucket(flat, within, flat[i].p.key)
  }

  ghost function Baseline(flat: Flat): set<set<nat>> {
    Buckets(flat, All(flat))
  }

  ghost function Leftovers(flat: Flat): set<set<nat>> {
    Buckets(flat, All(flat) - Grouped(flat))
  }

  ghost function Aligned(flat: Flat): set<set<nat>> {
    Heads(flat) + Leftovers(flat)
  }

  ghost predicate Reads(flat: Flat, s: set<nat>, sample: nat) {
    exists i :: i in s && i < |flat| && flat[i].sample == sample
  }

  /** All k samples read the group and every reading in it carries one real label. */
  ghost predicate Unanimous(flat: Flat, k: nat, s: set<nat>) {
    && k > 0
    && Within(flat, s)
    && (forall n: nat :: n < k ==> Reads(flat, s, n))
    && (exists l :: Real(l) && forall i :: i in s ==> flat[i].p.reading == l)
  }

  ghost function Committed(flat: Flat, k: nat, family: set<set<nat>>): set<set<nat>> {
    set s | s in family && Unanimous(flat, k, s)
  }

  ghost predicate SamplesBelow(flat: Flat, k: nat) {
    forall i :: 0 <= i < |flat| ==> flat[i].sample < k
  }

  /** `source_key` is a digest of episode and offsets, so equal keys mean equal location. */
  ghost predicate KeyFixesLocation(flat: Flat) {
    forall i, j :: 0 <= i < |flat| && 0 <= j < |flat| && flat[i].p.key == flat[j].p.key ==>
      && flat[i].p.episode == flat[j].p.episode
      && flat[i].p.start == flat[j].p.start
      && flat[i].p.end == flat[j].p.end
  }

  // ----- the aligned partition coarsens the exact-key partition --------------------------------

  /** A head swallows whole buckets: alignment never tears readings of one key apart. */
  lemma {:induction false} BucketNeverSplit(flat: Flat, i: nat, j: nat)
    requires KeyFixesLocation(flat) && InHead(flat, i)
    requires j < |flat| && flat[i].p.key == flat[j].p.key
    ensures j in Component(flat, i)
  {
    ComponentIsComponent(flat, i);
    if flat[i].sample != flat[j].sample {
      AdjacentJoins(flat, i, j);
    } else if i != j {
      var h := OtherMember(Component(flat, i), i);
      ComponentStaysInEpisode(flat, i, h);
    }
  }

  lemma {:induction false} BucketInHead(flat: Flat, i: nat)
    requires KeyFixesLocation(flat) && InHead(flat, i)
    ensures Bucket(flat, All(flat), flat[i].p.key) <= Component(flat, i) <= Grouped(flat)
  {
    forall j | j in Bucket(flat, All(flat), flat[i].p.key) ensures j in Component(flat, i) {
      BucketNeverSplit(flat, i, j);
    }
    forall j | j in Component(flat, i) ensures j in Grouped(flat) {
      ComponentOfMember(flat, i, j);
    }
  }

  lemma {:induction false} BucketLeftOver(flat: Flat, i: nat)
    requires KeyFixesLocation(flat) && i < |flat| && !InHead(flat, i)
    ensures Bucket(flat, All(flat) - Grouped(flat), flat[i].p.key) == Bucket(flat, All(flat), flat[i].p.key)
    ensures Bucket(flat, All(flat), flat[i].p.key) in Leftovers(flat)
  {
    forall j | j in Bucket(flat, All(flat), flat[i].p.key) ensures j !in Grouped(flat) {
      if j in Grouped(flat) {
        BucketNeverSplit(flat, j, i);
        ComponentOfMember(flat, j, i);
      }
    }
    assert i in All(flat) - Grouped(flat);
  }

  /** Each exact-key bucket either survives unchanged as a leftover or lies inside one head. */
  lemma {:induction false} AlignmentCoarsens(flat: Flat, b: set<nat>)
    requires KeyFixesLocation(flat) && b in Baseline(flat)
    ensures b in Leftovers(flat) || exists h :: h in Heads(flat) && b <= h
    ensures b in Leftovers(flat) ==> b * Grouped(flat) == {}
  {
    var i: nat :| i < |flat| && i in All(flat) && b == Bucket(flat, All(flat), flat[i].p.key);
    if InHead(flat, i) {
      BucketInHead(flat, i);
      assert Component(flat, i) in Heads(flat);
    } else {
      BucketLeftOver(flat, i);
    }
    forall j | j in b && b in Leftovers(flat) ensures j !in Grouped(flat) {
      var n: nat :| n < |flat| && b == Bucket(flat, All(flat) - Grouped(flat), flat[n].p.key);
    }
  }

  lemma {:induction false} LeftoverIsBaseline(flat: Flat, b: set<nat>)
    requires KeyFixesLocation(flat) && b in Leftovers(flat)
    ensures b in Baseline(flat) && b * Grouped(flat) == {}
  {
    var i: nat :| i < |flat| && i in All(flat) - Grouped(flat)
                  && b == Bucket(flat, All(flat) - Grouped(flat), flat[i].p.key);
    BucketLeftOver(flat, i);
    assert i in All(flat);
  }

  /** Every reading lies in exactly one aligned group. */
  lemma {:induction false} AlignedPartitions(flat: Flat, i: nat)
    requires i < |flat|
    ensures exists s :: s in Aligned(flat) && i in s
    ensures forall s, t :: s in Aligned(flat) && t in Aligned(flat) && i in s && i in t ==> s == t
  {
    ComponentIsComponent(flat, i);
    var own := if InHead(flat, i) then Component(flat, i)
               else Bucket(flat, All(flat) - Grouped(flat), flat[i].p.key);
    assert i in All(flat) - Grouped(flat) || InHead(flat, i);
    assert own in Aligned(flat) && i in own;
    forall s | s in Aligned(flat) && i in s ensures s == own {
      AlignedGroupOf(flat, i, s);
    }
  }

  lemma {:induction false} AlignedGroupOf(flat: Flat, i: nat, s: set<nat>)
    requires i < |flat| && s in Aligned(flat) && i in s
    ensures s == if InHead(flat, i) then Component(flat, i)
                 else Bucket(flat, All(flat) - Grouped(flat), flat[i].p.key)
  {
    if s in Heads(flat) {
      var n: nat :| n < |flat| && InHead(flat, n) && s == Component(flat, n);
      ComponentOfMember(flat, n, i);
    } else {
      var n: nat :| n < |flat| && s == Bucket(flat, All(flat) - Grouped(flat), flat[n].p.key);
      assert i !in Grouped(flat);
    }
  }
}
