/** The whole scoring run of scripts/eval_span_alignment.py `main` (lines 106-220): both bucket
    passes, the heads, and the counters it reports. */
module AlignmentRun {
  import opened Common
  import opened VoteGate
  import opened Components
  import opened ClaimHeads
  import opened AlignmentGuarantee
  import opened AlignmentScore
  import opened HeadSearch

  /** One more group to vote on: it is new, so it adds one to the count exactly if it commits. */
  lemma {:induction false} CommittedGrows(flat: Flat, k: nat, groups: seq<seq<nat>>, g: nat)
    requires DistinctGroups(groups) && g < |groups|
    ensures var before, after := Committed(flat, k, Family(groups[..g])), Committed(flat, k, Family(groups[..g + 1]));
            |after| == |before| + if Unanimous(flat, k, Elements(groups[g])) then 1 else 0
  {
    NextIsNewGroup(groups, g);
    AddCommitted(flat, k, Family(groups[..g]), Elements(groups[g]));
  }

  lemma {:induction false} NextIsNewGroup(groups: seq<seq<nat>>, g: nat)
    requires DistinctGroups(groups) && g < |groups|
    ensures Family(groups[..g + 1]) == Family(groups[..g]) + {Elements(groups[g])}
    ensures Elements(groups[g]) !in Family(groups[..g])
  {
    assert groups[..g + 1] == groups[..g] + [groups[g]];
    FamilyGrows(groups[..g], groups[g]);
  }

  lemma {:induction false} AddCommitted(flat: Flat, k: nat, family: set<set<nat>>, s: set<nat>)
    requires s !in family
    ensures Committed(flat, k, family + {s}) == Committed(flat, k, family) + if Unanimous(flat, k, s) then {s} else {}
    ensures |Committed(flat, k, family + {s})| == |Committed(flat, k, family)| + if Unanimous(flat, k, s) then 1 else 0
  {
    assert Committed(flat, k, family + {s})
        == if Unanimous(flat, k, s) then Committed(flat, k, family) + {s} else Committed(flat, k, family);
  }

  // ----- exact-key buckets -------------------------------------------------------------------

  ghost function Lists(order: seq<string>, groups: map<string, seq<nat>>): seq<seq<nat>>
    requires forall key :: key in order ==> key in groups
  {
    seq(|order|, i requires 0 <= i < |order| => groups[order[i]])
  }

  /** The dictionary's lists are the buckets of the chosen readings, each once. */
  lemma {:induction false} ListsAreBuckets(flat: Flat, skip: set<nat>, order: seq<string>, groups: map<string, seq<nat>>)
    requires GroupsOf(KeysOf(flat), |flat|, skip, order, groups)
    ensures Family(Lists(order, groups)) == Buckets(flat, All(flat) - skip)
    ensures DistinctGroups(Lists(order, groups)) && |order| == |Buckets(flat, All(flat) - skip)|
  {
    var lists, within := Lists(order, groups), All(flat) - skip;
    forall key | key in groups ensures Elements(groups[key]) == Bucket(flat, within, key) {
      forall i: nat | i < |flat| && i in within && flat[i].p.key == key ensures i in groups[key] {
        assert KeysOf(flat)[i] == key;
      }
    }
    forall s | s in Buckets(flat, within) ensures s in Family(lists) {
      var i: nat :| i < |flat| && i in within && s == Bucket(flat, within, flat[i].p.key);
      assert KeysOf(flat)[i] in groups;
      var j :| 0 <= j < |order| && order[j] == flat[i].p.key;
      assert lists[j] in lists;
    }
    forall list | list in lists ensures Elements(list) in Buckets(flat, within) {
      var j :| 0 <= j < |order| && lists[j] == list;
      assert order[j] in groups;
      assert list[0] in list;
    }
    forall i, j | 0 <= i < j < |lists| ensures Elements(lists[i]) != Elements(lists[j]) {
      assert order[i] in groups && order[j] in groups;
      assert lists[i][0] in Elements(lists[i]) && lists[j][0] in Elements(lists[j]);
    }
    FamilySize(lists);
  }

  lemma {:induction false} FamilySize(groups: seq<seq<nat>>)
    requires DistinctGroups(groups)
    ensures |Family(groups)| == |groups|
  {
    if groups != [] {
      var rest, last := groups[..|groups| - 1], groups[|groups| - 1];
      assert groups == rest + [last];
      FamilySize(rest);
      FamilyGrows(rest, last);
      assert Elements(last) !in Family(rest);
    }
  }

  /** One bucket pass: group the readings that are not skipped, vote on each bucket, count. */
  method CountBuckets(flat: Flat, k: nat, skip: set<nat>) returns (buckets: nat, commits: nat)
    requires SamplesBelow(flat, k)
    ensures buckets == |Buckets(flat, All(flat) - skip)|
    ensures commits == |Committed(flat, k, Buckets(flat, All(flat) - skip))|
  {
    var order, groups := GroupIndices(KeysOf(flat), skip);
    ListsAreBuckets(flat, skip, order, groups);
    ghost var lists := Lists(order, groups);
    buckets, commits := 0, 0;
    for i := 0 to |order|
      invariant buckets == i && commits == |Committed(flat, k, Family(lists[..i]))|
    {
      buckets := buckets + 1;
      var members := groups[order[i]];
      assert lists[i] == members;
      assert ListOf(KeysOf(flat), |flat|, skip, order[i], members);
      var votes := BucketVotes(flat, members, k);
      GateCommitsUnanimous(flat, Elements(members), k, votes);
      CommittedGrows(flat, k, lists, i);
      if Gate(votes, k).0 {
        commits := commits + 1;
      }
    }
    assert lists[..|order|] == lists;
  }

  // ----- heads -------------------------------------------------------------------------------

  function ValuesOf(flat: Flat, comp: seq<nat>): set<string>
    requires forall i :: i in comp ==> i < |flat|
  {
    set i | i in comp :: flat[i].p.value
  }

  ghost predicate HasTwoValues(flat: Flat, s: set<nat>) {
    exists i, j :: i in s && j in s && i < |flat| && j < |flat| && flat[i].p.value != flat[j].p.value
  }

  /** The groups of a family whose readings disagree on the value. */
  ghost function Conflicting(flat: Flat, family: set<set<nat>>): set<set<nat>> {
    set s | s in family && HasTwoValues(flat, s)
  }

  lemma {:induction false} ConflictMeaning(flat: Flat, comp: seq<nat>)
    requires forall i :: i in comp ==> i < |flat|
    ensures |ValuesOf(flat, comp)| > 1 <==> HasTwoValues(flat, Elements(comp))
  {
    var values := ValuesOf(flat, comp);
    if |values| > 1 {
      var v :| v in values;
      assert |values - {v}| == |values| - 1;
      var w :| w in values - {v};
      var i :| i in comp && flat[i].p.value == v;
      var j :| j in comp && flat[j].p.value == w;
      assert i in Elements(comp) && j in Elements(comp);
    }
    if HasTwoValues(flat, Elements(comp)) {
      var i, j :| i in Elements(comp) && j in Elements(comp) && i < |flat| && j < |flat| && flat[i].p.value != flat[j].p.value;
      assert {flat[i].p.value, flat[j].p.value} <= values;
      SubsetIsSmaller({flat[i].p.value, flat[j].p.value}, values);
    }
  }

  lemma {:induction false} SubsetIsSmaller<T>(s: set<T>, t: set<T>)
    requires s <= t
    ensures |s| <= |t|
  {
    assert t == s + (t - s);
  }

  /** One more head: it is new, so it adds one to the conflicting ones exactly if it conflicts. */
  lemma {:induction false} ConflictingGrows(flat: Flat, k: nat, groups: seq<seq<nat>>, g: nat)
    requires DistinctGroups(groups) && g < |groups|
    ensures |Conflicting(flat, Family(groups[..g + 1]))|
         == |Conflicting(flat, Family(groups[..g]))| + if HasTwoValues(flat, Elements(groups[g])) then 1 else 0
    ensures |Conflicting(flat, Committed(flat, k, Family(groups[..g + 1])))|
         == |Conflicting(flat, Committed(flat, k, Family(groups[..g])))|
            + if Unanimous(flat, k, Elements(groups[g])) && HasTwoValues(flat, Elements(groups[g])) then 1 else 0
  {
    var family, s := Family(groups[..g]), Elements(groups[g]);
    NextIsNewGroup(groups, g);
    AddConflicting(flat, family, s);
    AddCommitted(flat, k, family, s);
    AddConflicting(flat, Committed(flat, k, family), s);
  }

  lemma {:induction false} AddConflicting(flat: Flat, family: set<set<nat>>, s: set<nat>)
    requires s !in family
    ensures |Conflicting(flat, family + {s})| == |Conflicting(flat, family)| + if HasTwoValues(flat, s) then 1 else 0
  {
    assert Conflicting(flat, family + {s})
        == if HasTwoValues(flat, s) then Conflicting(flat, family) + {s} else Conflicting(flat, family);
  }

  datatype HeadCounts = HeadCounts(commits: nat, collisions: nat, conflicts: nat, conflictsCommitted: nat)

  /** The heads pass (lines 173-203), with its two self-checks. */
  method CountHeads(flat: Flat, k: nat, heads: seq<seq<nat>>) returns (c: HeadCounts)
    requires SamplesBelow(flat, k) && HeadsFound(flat, All(flat), heads)
    ensures c.commits == |Committed(flat, k, Heads(flat))|
    ensures c.collisions == 0 && c.conflicts == |Conflicting(flat, Heads(flat))|
    ensures c.conflictsCommitted == |Conflicting(flat, Committed(flat, k, Heads(flat)))|
    ensures LabelFixesValue(flat) ==> c.conflictsCommitted == 0
  {
    c := HeadCounts(0, 0, 0, 0);
    for h := 0 to |heads|
      invariant c.commits == |Committed(flat, k, Family(heads[..h]))|
      invariant c.conflicts == |Conflicting(flat, Family(heads[..h]))|
      invariant c.collisions == 0
      invariant c.conflictsCommitted == |Conflicting(flat, Committed(flat, k, Family(heads[..h])))|
    {
      var comp := heads[h];
      HeadIsAccepted(flat, heads, comp);
      var collided := if |Elements(SampleIds(flat, comp))| != |SampleIds(flat, comp)| then 1 else 0;
      c := c.(collisions := c.collisions + collided);
      var votes := HeadVotes(flat, comp, k);
      GateCommitsUnanimous(flat, Elements(comp), k, votes);
      var isConflict := |ValuesOf(flat, comp)| > 1;
      ConflictMeaning(flat, comp);
      ConflictingGrows(flat, k, heads, h);
      if isConflict {
        c := c.(conflicts := c.conflicts + 1);
      }
      CommittedGrows(flat, k, heads, h);
      if Gate(votes, k).0 {
        c := c.(commits := c.commits + 1);
        if isConflict {
          c := c.(conflictsCommitted := c.conflictsCommitted + 1);
        }
      }
    }
    assert heads[..|heads|] == heads;
    assert Family(heads) == Heads(flat);
    if LabelFixesValue(flat) {
      NoConflictCommits(flat, k, Heads(flat));
    }
  }

  lemma {:induction false} HeadIsAccepted(flat: Flat, heads: seq<seq<nat>>, comp: seq<nat>)
    requires HeadsFound(flat, All(flat), heads) && comp in heads
    ensures Within(flat, Elements(comp)) && OnePerSample(flat, Elements(comp))
    ensures forall i :: i in comp ==> i < |flat|
    ensures |Elements(SampleIds(flat, comp))| == |SampleIds(flat, comp)|
  {
    assert Elements(comp) in Family(heads);
    var i: nat :| i in All(flat) && InHead(flat, i) && Elements(comp) == Component(flat, i);
    assert forall j :: j in comp ==> j in Elements(comp);
    SampleIdsMeaning(flat, comp);
    DistinctCount(SampleIds(flat, comp));
  }

  lemma {:induction false} NoConflictCommits(flat: Flat, k: nat, family: set<set<nat>>)
    requires LabelFixesValue(flat) && forall s :: s in family ==> Within(flat, s)
    ensures Conflicting(flat, Committed(flat, k, family)) == {}
  {
    forall s | s in family && HasTwoValues(flat, s) ensures !Unanimous(flat, k, s) {
      var i, j :| i in s && j in s && i < |flat| && j < |flat| && flat[i].p.value != flat[j].p.value;
      ConflictingValuesAbstain(flat, k, s, i, j);
    }
  }

  // ----- the run -----------------------------------------------------------------------------

  datatype Score = Score(baseBuckets: nat, baseCommits: nat, alignedBuckets: nat, alignedCommits: nat,
                         abstained: nat, heads: HeadCounts)

  /** One namespace. The counters are the sizes of the families they are meant to count, and on
      keys that fix the location the aligned count is the baseline count plus the rescued heads. */
  method ScoreNamespace(samples: seq<seq<Proposal>>, k: nat) returns (score: Score)
    requires SamplesBelow(Flatten(samples), k)
    ensures var flat := Flatten(samples);
            && score.baseBuckets == |Baseline(flat)|
            && score.baseCommits == |Committed(flat, k, Baseline(flat))|
            && score.alignedBuckets == |Heads(flat)| + |Leftovers(flat)|
            && score.alignedCommits == |Committed(flat, k, Aligned(flat))|
            && score.abstained == |AmbiguousOver(flat, All(flat))|
            && score.heads.collisions == 0
            && score.heads.commits == |Committed(flat, k, Heads(flat))|
            && score.heads.conflicts == |Conflicting(flat, Heads(flat))|
            && score.heads.conflictsCommitted == |Conflicting(flat, Committed(flat, k, Heads(flat)))|
            && (LabelFixesValue(flat) ==> score.heads.conflictsCommitted == 0)
            && (KeyFixesLocation(flat) ==>
                  score.alignedCommits == score.baseCommits + |Rescued(flat, k)|
                  && score.alignedBuckets <= score.baseBuckets)
  {
    var flat := Flatten(samples);
    var baseBuckets, baseCommits := CountBuckets(flat, k, {});
    assert All(flat) - {} == All(flat);
    var heads, grouped, abstained := CollectHeads(flat);
    var headCounts := CountHeads(flat, k, heads);
    var leftBuckets, leftCommits := CountBuckets(flat, k, grouped);
    FamilySize(heads);
    AlignedSplits(flat, k);
    if KeyFixesLocation(flat) {
      CountsCompare(flat, k);
    }
    assert leftBuckets == |Leftovers(flat)| && leftCommits == |Committed(flat, k, Leftovers(flat))|;
    score := Score(baseBuckets, baseCommits, |heads| + leftBuckets, headCounts.commits + leftCommits, abstained, headCounts);
  }

  lemma {:induction false} AlignedSplits(flat: Flat, k: nat)
    ensures |Committed(flat, k, Aligned(flat))|
         == |Committed(flat, k, Heads(flat))| + |Committed(flat, k, Leftovers(flat))|
  {
    var heads, leftovers := Committed(flat, k, Heads(flat)), Committed(flat, k, Leftovers(flat));
    HeadsAndLeftoversAreDisjoint(flat);
    assert heads !! leftovers;
    assert Committed(flat, k, Aligned(flat)) == heads + leftovers;
  }

  lemma {:induction false} CountsCompare(flat: Flat, k: nat)
    requires SamplesBelow(flat, k) && KeyFixesLocation(flat)
    ensures |Committed(flat, k, Aligned(flat))| == |Committed(flat, k, Baseline(flat))| + |Rescued(flat, k)|
    ensures |Heads(flat)| + |Leftovers(flat)| <= |Baseline(flat)|
  {
    GainIsExactlyTheRescued(flat, k);
    BucketsNeverRise(flat);
  }

  /** Over all namespaces of a frozen set: commits never fall, buckets never rise, both self-checks
      stay at zero. */
  method ScoreAll(namespaces: seq<seq<seq<Proposal>>>, k: nat) returns (score: Score)
    requires forall ns :: ns in namespaces ==>
      SamplesBelow(Flatten(ns), k) && KeyFixesLocation(Flatten(ns)) && LabelFixesValue(Flatten(ns))
    ensures score.baseCommits <= score.alignedCommits && score.alignedBuckets <= score.baseBuckets
    ensures score.heads.collisions == 0 && score.heads.conflictsCommitted == 0
    ensures score.baseCommits == BaseTotal(namespaces, k) && score.alignedCommits == AlignedTotal(namespaces, k)
  {
    score := Score(0, 0, 0, 0, 0, HeadCounts(0, 0, 0, 0));
    for n := 0 to |namespaces|
      invariant score.baseCommits <= score.alignedCommits && score.alignedBuckets <= score.baseBuckets
      invariant score.heads.collisions == 0 && score.heads.conflictsCommitted == 0
      invariant score.baseCommits == BaseTotal(namespaces[..n], k)
      invariant score.alignedCommits == AlignedTotal(namespaces[..n], k)
    {
      assert namespaces[n] in namespaces;
      var one := ScoreNamespace(namespaces[n], k);
      assert namespaces[..n + 1][..n] == namespaces[..n];
      score := Score(score.baseBuckets + one.baseBuckets, score.baseCommits + one.baseCommits,
                     score.alignedBuckets + one.alignedBuckets, score.alignedCommits + one.alignedCommits,
                     score.abstained + one.abstained,
                     HeadCounts(score.heads.commits + one.heads.commits,
                                score.heads.collisions + one.heads.collisions,
                                score.heads.conflicts + one.heads.conflicts,
                                score.heads.conflictsCommitted + one.heads.conflictsCommitted));
    }
    assert namespaces[..|namespaces|] == namespaces;
  }

  ghost function BaseTotal(namespaces: seq<seq<seq<Proposal>>>, k: nat): nat {
    if namespaces == [] then 0
    else
      var flat := Flatten(namespaces[|namespaces| - 1]);
      BaseTotal(namespaces[..|namespaces| - 1], k) + |Committed(flat, k, Baseline(flat))|
  }

  ghost function AlignedTotal(namespaces: seq<seq<seq<Proposal>>>, k: nat): nat {
    if namespaces == [] then 0
    else
      var flat := Flatten(namespaces[|namespaces| - 1]);
      AlignedTotal(namespaces[..|namespaces| - 1], k) + |Committed(flat, k, Aligned(flat))|
  }
}
