/** The promises of span alignment, over every family of samples: it never loses a commit that the
    exact-key baseline makes, what it gains is exactly the heads that mix keys, and where the second
    implementation (`align`, which falls back to single readings) departs from that. */
module AlignmentGuarantee {
  import opened Common
  import opened VoteGate
  import opened Components
  import opened ClaimHeads

  /** Every bucket the baseline commits is committed by the aligned grouping, as the same bucket. */
  lemma {:induction false} NeverLosesACommit(flat: Flat, k: nat)
    requires KeyFixesLocation(flat) && SamplesBelow(flat, k)
    ensures Committed(flat, k, Baseline(flat)) <= Committed(flat, k, Aligned(flat))
  {
    forall b | b in Committed(flat, k, Baseline(flat)) ensures b in Aligned(flat) {
      var i: nat :| i < |flat| && i in All(flat) && b == Bucket(flat, All(flat), flat[i].p.key);
      if InHead(flat, i) {
        UnanimousBucketFillsHead(flat, k, i);
      } else {
        BucketLeftOver(flat, i);
      }
    }
  }

  /** A head has room for one reading per sample, so a bucket read by all samples fills it. */
  lemma {:induction false} UnanimousBucketFillsHead(flat: Flat, k: nat, i: nat)
    requires KeyFixesLocation(flat) && SamplesBelow(flat, k) && InHead(flat, i)
    requires Unanimous(flat, k, Bucket(flat, All(flat), flat[i].p.key))
    ensures Bucket(flat, All(flat), flat[i].p.key) == Component(flat, i)
    ensures Component(flat, i) in Heads(flat)
  {
    var b := Bucket(flat, All(flat), flat[i].p.key);
    BucketInHead(flat, i);
    forall j | j in Component(flat, i) ensures j in b {
      assert Reads(flat, b, flat[j].sample);
    }
  }

  /** A member of the group is in a head that does not hold all of it. */
  ghost predicate Torn(flat: Flat, b: set<nat>) {
    exists i, j :: i in b && j in b && InHead(flat, i) && j !in Component(flat, i)
  }

  lemma {:induction false} UntornFillsHead(flat: Flat, k: nat, b: set<nat>, i: nat)
    requires SamplesBelow(flat, k) && Within(flat, b) && Unanimous(flat, k, b)
    requires i in b && InHead(flat, i) && !Torn(flat, b)
    ensures b == Component(flat, i)
  {
    assert b <= Component(flat, i);
    forall j | j in Component(flat, i) ensures j in b {
      assert Reads(flat, b, flat[j].sample);
    }
  }

  /** Exactly when the aligned grouping keeps a commit of the baseline, whatever the keys are: no head tears
      the bucket apart. */
  lemma {:induction false} AlignmentKeepsCommitIff(flat: Flat, k: nat, b: set<nat>)
    requires SamplesBelow(flat, k) && b in Committed(flat, k, Baseline(flat))
    ensures b in Committed(flat, k, Aligned(flat)) <==> !Torn(flat, b)
  {
    var n: nat :| n < |flat| && n in All(flat) && b == Bucket(flat, All(flat), flat[n].p.key);
    if i :| i in b && InHead(flat, i) {
      ComponentIsComponent(flat, i);
      if b in Aligned(flat) {
        AlignedGroupOf(flat, i, b);
        forall x, y | x in b && y in b && InHead(flat, x) ensures y in Component(flat, x) {
          AlignedGroupOf(flat, x, b);
        }
      }
      if !Torn(flat, b) {
        UntornFillsHead(flat, k, b, i);
      }
    } else {
      assert b == Bucket(flat, All(flat) - Grouped(flat), flat[n].p.key);
      assert n in All(flat) - Grouped(flat);
    }
  }

  ghost predicate MixesKeys(flat: Flat, s: set<nat>) {
    exists i, j :: i in s && j in s && i < |flat| && j < |flat| && flat[i].p.key != flat[j].p.key
  }

  /** Committed heads that no single exact-key bucket could have produced. */
  ghost function Rescued(flat: Flat, k: nat): set<set<nat>> {
    set h | h in Heads(flat) && Unanimous(flat, k, h) && MixesKeys(flat, h)
  }

  /** Alignment gains exactly the rescued heads: nothing else is added and nothing is dropped. */
  lemma {:induction false} GainIsExactlyTheRescued(flat: Flat, k: nat)
    requires KeyFixesLocation(flat) && SamplesBelow(flat, k)
    ensures Committed(flat, k, Aligned(flat)) == Committed(flat, k, Baseline(flat)) + Rescued(flat, k)
    ensures Committed(flat, k, Baseline(flat)) !! Rescued(flat, k)
    ensures |Committed(flat, k, Aligned(flat))| == |Committed(flat, k, Baseline(flat))| + |Rescued(flat, k)|
  {
    NeverLosesACommit(flat, k);
    forall s | s in Committed(flat, k, Aligned(flat)) && s !in Rescued(flat, k) ensures s in Baseline(flat) {
      if s in Leftovers(flat) {
        LeftoverIsBaseline(flat, s);
      } else {
        PlainHeadIsBucket(flat, s);
      }
    }
    forall s | s in Baseline(flat) ensures !MixesKeys(flat, s) {
      var i: nat :| i < |flat| && i in All(flat) && s == Bucket(flat, All(flat), flat[i].p.key);
    }
  }

  lemma {:induction false} PlainHeadIsBucket(flat: Flat, h: set<nat>)
    requires KeyFixesLocation(flat) && h in Heads(flat) && !MixesKeys(flat, h)
    ensures h in Baseline(flat)
  {
    var i: nat :| i < |flat| && InHead(flat, i) && h == Component(flat, i);
    BucketInHead(flat, i);
    ComponentIsComponent(flat, i);
    assert h == Bucket(flat, All(flat), flat[i].p.key);
    assert i in All(flat);
  }

  lemma {:induction false} HeadsAndLeftoversAreDisjoint(flat: Flat)
    ensures Heads(flat) !! Leftovers(flat)
  {
    forall s | s in Heads(flat) ensures s !in Leftovers(flat) {
      var i: nat :| i < |flat| && InHead(flat, i) && s == Component(flat, i);
      ComponentIsComponent(flat, i);
      forall n: nat | n < |flat| ensures s != Bucket(flat, All(flat) - Grouped(flat), flat[n].p.key) {
        assert i in Grouped(flat);
      }
    }
  }

  ghost predicate PairwiseDisjoint(family: set<set<nat>>) {
    forall s, t, x :: s in family && t in family && x in s && x in t ==> s == t
  }

  /** Disjoint sets that each contain a member of `parts` are no more numerous than `parts`. */
  lemma {:induction false} CoarserIsNoLarger(family: set<set<nat>>, parts: set<set<nat>>)
    requires PairwiseDisjoint(family) && {} !in parts
    requires forall s :: s in family ==> exists t :: t in parts && t <= s
    ensures |family| <= |parts|
  {
    if family != {} {
      var s :| s in family;
      var t :| t in parts && t <= s;
      forall s' | s' in family - {s} ensures exists t' :: t' in parts - {t} && t' <= s' {
        var t' :| t' in parts && t' <= s';
        assert t' != {};
        var x :| x in t';
        assert t' == t ==> x in s;
      }
      CoarserIsNoLarger(family - {s}, parts - {t});
    }
  }

  /** The number of buckets to vote on never rises. */
  lemma {:induction false} BucketsNeverRise(flat: Flat)
    requires KeyFixesLocation(flat)
    ensures |Heads(flat)| + |Leftovers(flat)| <= |Baseline(flat)|
  {
    HeadsAndLeftoversAreDisjoint(flat);
    assert |Aligned(flat)| == |Heads(flat)| + |Leftovers(flat)|;
    forall s, t, x | s in Aligned(flat) && t in Aligned(flat) && x in s && x in t ensures s == t {
      AlignedPartitions(flat, x);
    }
    forall s | s in Aligned(flat) ensures exists t :: t in Baseline(flat) && t <= s {
      if s in Leftovers(flat) {
        LeftoverIsBaseline(flat, s);
      } else {
        var i: nat :| i < |flat| && InHead(flat, i) && s == Component(flat, i);
        BucketInHead(flat, i);
        assert i in All(flat);
        assert Bucket(flat, All(flat), flat[i].p.key) in Baseline(flat);
      }
    }
    forall s | s in Baseline(flat) ensures s != {} {
      var i: nat :| i < |flat| && i in All(flat) && s == Bucket(flat, All(flat), flat[i].p.key);
      assert i in s;
    }
    CoarserIsNoLarger(Aligned(flat), Baseline(flat));
  }

  /** The interpretation label contains the normalized value. */
  ghost predicate LabelFixesValue(flat: Flat) {
    forall i, j :: 0 <= i < |flat| && 0 <= j < |flat| && flat[i].p.reading == flat[j].p.reading ==>
      flat[i].p.value == flat[j].p.value
  }

  /** Readings that merge but disagree on the value abstain; neither value is silently chosen. */
  lemma {:induction false} ConflictingValuesAbstain(flat: Flat, k: nat, s: set<nat>, i: nat, j: nat)
    requires LabelFixesValue(flat) && Within(flat, s) && i in s && j in s
    requires flat[i].p.value != flat[j].p.value
    ensures !Unanimous(flat, k, s)
  {
  }

  /** One key in two episodes, and a third reading that overlaps the first. */
  function SharedKey(): Flat {
    [Entry(0, Proposal("e", 0, 5, "K", "r", "v")), Entry(1, Proposal(" e", 0, 5, "K", "r", "v")),
     Entry(1, Proposal("e", 1, 5, "X", "q", "w"))]
  }

  lemma {:induction false} SharedKeyHead()
    ensures Component(SharedKey(), 0) == {0, 2} && InHead(SharedKey(), 0) && InHead(SharedKey(), 2)
  {
    var flat := SharedKey();
    SharedKeyComponent();
    assert |Component(flat, 0)| == 2;
    assert Accepted(flat, {0, 2});
  }

  lemma {:induction false} SharedKeyComponent()
    ensures Component(SharedKey(), 0) == Component(SharedKey(), 2) == {0, 2}
  {
    var flat := SharedKey();
    AdjacentJoins(flat, 0, 2);
    ComponentIsComponent(flat, 0);
    forall j | j in Component(flat, 0) ensures j != 1 {
      ComponentStaysInEpisode(flat, 0, j);
    }
    assert Component(flat, 0) == {0, 2};
    ComponentOfMember(flat, 0, 2);
  }

  lemma {:induction false} SharedKeyBaseline()
    ensures {0, 1} in Committed(SharedKey(), 2, Baseline(SharedKey()))
  {
    var flat := SharedKey();
    var b: set<nat> := {0, 1};
    assert IsIndex(flat, 0) && IsIndex(flat, 1) && 0 in All(flat) && 1 in All(flat);
    assert Bucket(flat, All(flat), flat[0].p.key) == b;
    assert flat[0].sample == 0 && flat[1].sample == 1 && Real("r");
    assert Reads(flat, b, 0) && Reads(flat, b, 1);
    assert forall i :: i in b ==> flat[i].p.reading == "r";
  }

  /** Were one key to name two episodes, a commit could be lost: reading 0 is merged with reading 2
      and torn from reading 1, which carries the same key. */
  lemma {:induction false} SharedKeyAcrossEpisodesLosesACommit()
    ensures SamplesBelow(SharedKey(), 2)
    ensures {0, 1} in Committed(SharedKey(), 2, Baseline(SharedKey()))
    ensures Committed(SharedKey(), 2, Aligned(SharedKey())) == {}
  {
    var flat := SharedKey();
    SharedKeyBaseline();
    SharedKeyHead();
    forall s | s in Aligned(flat) ensures !Unanimous(flat, 2, s) {
      if 0 in s {
        AlignedGroupOf(flat, 0, s);
        assert flat[0].p.reading != flat[2].p.reading;
      } else {
        assert forall i: nat :: i < |flat| && flat[i].sample == 0 ==> i == 0;
        assert !Reads(flat, s, 0);
      }
    }
  }

  // ----- `align`: the same heads, but single readings instead of leftover buckets -------------

  ghost function Singles(flat: Flat): set<set<nat>> {
    set i: nat | i < |flat| && !InHead(flat, i) :: {i}
  }

  ghost function ProbeGroups(flat: Flat): set<set<nat>> {
    Heads(flat) + Singles(flat)
  }

  /** With two or more samples the probe commits heads only, so it falls short of the aligned
      grouping by exactly the unanimous leftover buckets. */
  lemma {:induction false} ProbeCommitsOnlyHeads(flat: Flat, k: nat)
    requires k >= 2
    ensures Committed(flat, k, ProbeGroups(flat)) == Committed(flat, k, Heads(flat))
    ensures |Committed(flat, k, Aligned(flat))|
         == |Committed(flat, k, ProbeGroups(flat))| + |Committed(flat, k, Leftovers(flat))|
  {
    forall s | s in Singles(flat) ensures !Unanimous(flat, k, s) {
      assert !(Reads(flat, s, 0) && Reads(flat, s, 1));
    }
    HeadsAndLeftoversAreDisjoint(flat);
    assert Committed(flat, k, Aligned(flat)) == Committed(flat, k, Heads(flat)) + Committed(flat, k, Leftovers(flat));
  }

  /** Exactly when the probe keeps a commit of the baseline: the span is not empty and the whole
      overlap component of the bucket has k readings. With a single sample, when the bucket has one. */
  lemma {:induction false} ProbeKeepsCommitIff(flat: Flat, k: nat, i: nat)
    requires KeyFixesLocation(flat) && SamplesBelow(flat, k) && i < |flat|
    requires Unanimous(flat, k, Bucket(flat, All(flat), flat[i].p.key))
    ensures var b := Bucket(flat, All(flat), flat[i].p.key);
            b in Committed(flat, k, ProbeGroups(flat)) <==>
              if k == 1 then |b| == 1
              else flat[i].p.start < flat[i].p.end && |Component(flat, i)| == k
  {
    var b := Bucket(flat, All(flat), flat[i].p.key);
    assert i in b;
    ComponentIsComponent(flat, i);
    BucketHoldsEverySample(flat, k, b);
    if k == 1 {
      OneSampleHasNoHeads(flat, i);
      assert b in ProbeGroups(flat) ==> b in Singles(flat);
      if |b| == 1 {
        SingletonOf(b, i);
        assert b in Singles(flat);
      }
    } else {
      ProbeCommitsOnlyHeads(flat, k);
      if b in Heads(flat) {
        var n: nat :| n < |flat| && InHead(flat, n) && b == Component(flat, n);
        ComponentOfMember(flat, n, i);
        OnePerSampleIsSmall(flat, k, b);
      }
      if flat[i].p.start < flat[i].p.end && |Component(flat, i)| == k {
        BucketIsConnected(flat, k, i);
        SubsetOfEqualSize(b, Component(flat, i));
        EverySampleOnce(flat, k, b);
        assert InHead(flat, i);
      }
    }
  }

  lemma {:induction false} OneSampleHasNoHeads(flat: Flat, i: nat)
    requires SamplesBelow(flat, 1) && i < |flat|
    ensures Heads(flat) == {} && !InHead(flat, i)
  {
    forall n: nat | InHead(flat, n) ensures false {
      ComponentIsComponent(flat, n);
      var m := OtherMember(Component(flat, n), n);
    }
  }

  lemma {:induction false} SingletonOf(s: set<nat>, i: nat)
    requires |s| == 1 && i in s
    ensures s == {i}
  {
    assert |s - {i}| == 0;
    assert s - {i} == {};
  }

  lemma {:induction false} SubsetOfEqualSize(s: set<nat>, t: set<nat>)
    requires s <= t && |s| >= |t|
    ensures s == t
  {
    assert t == s + (t - s);
    assert |t - s| == 0;
  }

  /** A group read by all k samples has at least k readings. */
  lemma {:induction false} BucketHoldsEverySample(flat: Flat, k: nat, s: set<nat>)
    requires forall n: nat :: n < k ==> Reads(flat, s, n)
    ensures |s| >= k
  {
    if k > 0 {
      assert Reads(flat, s, k - 1);
      var i :| i in s && i < |flat| && flat[i].sample == k - 1;
      forall n: nat | n < k - 1 ensures Reads(flat, s - {i}, n) {
        assert Reads(flat, s, n);
        var j :| j in s && j < |flat| && flat[j].sample == n;
        assert j in s - {i};
      }
      BucketHoldsEverySample(flat, k - 1, s - {i});
    }
  }

  /** A group with one reading per sample has at most k readings. */
  lemma {:induction false} OnePerSampleIsSmall(flat: Flat, k: nat, s: set<nat>)
    requires Within(flat, s) && OnePerSample(flat, s) && forall i :: i in s ==> flat[i].sample < k
    ensures |s| <= k
  {
    if k > 0 {
      if i :| i in s && flat[i].sample == k - 1 {
        OnePerSampleIsSmall(flat, k - 1, s - {i});
      } else {
        OnePerSampleIsSmall(flat, k - 1, s);
      }
    } else {
      assert s == {} by {
        if i :| i in s {
          assert false;
        }
      }
    }
  }

  /** k readings that cover k samples cover each of them once. */
  lemma {:induction false} EverySampleOnce(flat: Flat, k: nat, s: set<nat>)
    requires Within(flat, s) && |s| == k && forall n: nat :: n < k ==> Reads(flat, s, n)
    requires forall i :: i in s ==> flat[i].sample < k
    ensures OnePerSample(flat, s)
  {
    forall i, j | i in s && j in s && i != j ensures flat[i].sample != flat[j].sample {
      if flat[i].sample == flat[j].sample {
        forall n: nat | n < k ensures Reads(flat, s - {i}, n) {
          assert Reads(flat, s, n);
          var m :| m in s && m < |flat| && flat[m].sample == n;
          assert m in s - {i} || (m == i && j in s - {i});
        }
        BucketHoldsEverySample(flat, k, s - {i});
      }
    }
  }

  /** With two or more samples, a unanimous bucket of a non-empty span is connected. */
  lemma {:induction false} BucketIsConnected(flat: Flat, k: nat, i: nat)
    requires KeyFixesLocation(flat) && i < |flat| && k >= 2 && flat[i].p.start < flat[i].p.end
    requires Unanimous(flat, k, Bucket(flat, All(flat), flat[i].p.key))
    ensures Bucket(flat, All(flat), flat[i].p.key) <= Component(flat, i)
  {
    var b := Bucket(flat, All(flat), flat[i].p.key);
    ComponentIsComponent(flat, i);
    var other: nat := if flat[i].sample == 0 then 1 else 0;
    assert Reads(flat, b, other);
    var h :| h in b && flat[h].sample == other;
    AdjacentJoins(flat, i, h);
    forall j | j in b ensures j in Component(flat, i) {
      if flat[j].sample != flat[i].sample {
        AdjacentJoins(flat, i, j);
      } else {
        assert j in Neighbours(OverlapEdges(flat), h);
      }
    }
  }

  /** One sample reads the clause twice, the other once. */
  function ReadTwice(): Flat {
    [Entry(0, Proposal("e", 0, 5, "K", "r", "v")), Entry(0, Proposal("e", 0, 5, "K", "r", "v")),
     Entry(1, Proposal("e", 0, 5, "K", "r", "v"))]
  }

  lemma {:induction false} ReadTwiceBucket()
    ensures KeyFixesLocation(ReadTwice()) && SamplesBelow(ReadTwice(), 2)
    ensures Bucket(ReadTwice(), All(ReadTwice()), "K") == {0, 1, 2}
    ensures Unanimous(ReadTwice(), 2, {0, 1, 2})
    ensures {0, 1, 2} in Baseline(ReadTwice())
  {
    var flat := ReadTwice();
    var b: set<nat> := {0, 1, 2};
    assert IsIndex(flat, 0) && IsIndex(flat, 1) && IsIndex(flat, 2);
    assert 0 in All(flat) && 1 in All(flat) && 2 in All(flat);
    assert Bucket(flat, All(flat), flat[0].p.key) == b;
    assert flat[0].sample == 0 && flat[2].sample == 1 && Real("r");
    assert Reads(flat, b, 0) && Reads(flat, b, 1);
    assert forall i :: i in b ==> flat[i].p.reading == "r";
  }

  /** The baseline and the aligned grouping commit the clause; the probe, whose fallback is single
      readings, does not, so its worst case is not the status quo. */
  lemma {:induction false} ReadTwiceIsLostByProbe()
    ensures {0, 1, 2} in Committed(ReadTwice(), 2, Baseline(ReadTwice()))
    ensures {0, 1, 2} in Committed(ReadTwice(), 2, Aligned(ReadTwice()))
    ensures Committed(ReadTwice(), 2, ProbeGroups(ReadTwice())) == {}
  {
    var flat := ReadTwice();
    ReadTwiceBucket();
    NeverLosesACommit(flat, 2);
    forall i: nat | i < |flat| ensures !InHead(flat, i) {
      BucketIsConnected(flat, 2, i);
      assert 0 in Component(flat, i) && 1 in Component(flat, i);
    }
    assert Heads(flat) == {};
    ProbeCommitsOnlyHeads(flat, 2);
  }
}
