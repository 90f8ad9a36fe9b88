/** The second implementation of the grouping, scripts/probe_scalar_proposer_reviewer.py `align` and
    `commits_from_heads` (lines 61-122): the search is inlined, heads keep discovery order, and
    ungrouped readings become heads of their own. */
module ProbeAlign {
  import opened Common
  import opened VoteGate
  import opened Components
  import opened ClaimHeads
  import opened AlignmentGuarantee
  import opened AlignmentScore
  import opened HeadSearch
  import opened AlignmentRun

  function EntriesOf(flat: Flat, comp: seq<nat>): (head: Flat)
    requires forall i :: i in comp ==> i < |flat|
    ensures |head| == |comp|
  {
    seq<Entry>(|comp|, i requires 0 <= i < |comp| => assert comp[i] in comp; flat[comp[i]])
  }

  /** `heads` holds the readings of the index groups `found`, one head per group. */
  ghost predicate HeadsList(flat: Flat, found: seq<seq<nat>>, heads: seq<Flat>) {
    && |heads| == |found|
    && forall h :: 0 <= h < |found| ==>
         (forall i :: i in found[h] ==> i < |flat|) && heads[h] == EntriesOf(flat, found[h])
  }

  /** The variables of `align` after the readings `p`. */
  ghost predicate AlignState(flat: Flat, p: set<nat>, found: seq<seq<nat>>, heads: seq<Flat>, grouped: set<nat>) {
    HeadsFound(flat, p, found) && HeadsList(flat, found, heads) && grouped == GroupedOver(flat, p)
  }

  /** The inlined search over one episode. */
  method AlignEpisode(flat: Flat, idxs: seq<nat>, heads: seq<Flat>, grouped: set<nat>,
                      ghost p: set<nat>, ghost found: seq<seq<nat>>)
    returns (heads': seq<Flat>, grouped': set<nat>, ghost found': seq<seq<nat>>)
    requires WholeEpisode(flat, idxs) && Ascending(idxs) && p !! Elements(idxs)
    requires AlignState(flat, p, found, heads, grouped)
    ensures AlignState(flat, p + Elements(idxs), found', heads', grouped')
  {
    heads', grouped', found' := heads, grouped, found;
    var edges := BuildEdges(flat, idxs);
    EpisodeGraph(flat, idxs, edges);
    var seen: set<nat> := {};
    assert p + seen == p;
    for n := 0 to |idxs|
      invariant Closed(edges, seen) && Elements(idxs[..n]) <= seen <= Elements(idxs)
      invariant AlignState(flat, p + seen, found', heads', grouped')
    {
      assert Elements(idxs[..n + 1]) == Elements(idxs[..n]) + {idxs[n]};
      if idxs[n] !in seen {
        ghost var before := seen;
        var comp;
        seen, comp := SearchComponent(flat, idxs, edges, seen, idxs[n]);
        assert p + seen == p + before + Elements(comp);
        heads', grouped', found' := AlignComponent(flat, comp, heads', grouped', p + before, found');
      }
    }
    assert idxs[..|idxs|] == idxs;
    assert seen == Elements(idxs);
  }

  /** The stack search from one start node, which yields a component of the whole overlap graph. */
  method SearchComponent(flat: Flat, idxs: seq<nat>, edges: Edges, before: set<nat>, root: nat)
    returns (seen: set<nat>, comp: seq<nat>)
    requires EpisodeEdges(flat, idxs, edges) && Symmetric(edges) && Closed(edges, Elements(idxs))
    requires Closed(edges, before) && root in idxs && root !in before
    ensures ListsComponent(flat, comp) && root in comp && Elements(comp) <= Elements(idxs)
    ensures seen == before + Elements(comp) && before !! Elements(comp) && Closed(edges, seen)
  {
    seen, comp := Explore(root, edges, before);
    forall b | b in Elements(comp) ensures b in Elements(idxs) {
      ConnectedStays(edges, Elements(idxs), root, b);
    }
    FirstOf(flat, idxs, edges, comp);
  }

  /** The three tests of `align`, in its order. */
  method AlignComponent(flat: Flat, comp: seq<nat>, heads: seq<Flat>, grouped: set<nat>,
                        ghost p: set<nat>, ghost found: seq<seq<nat>>)
    returns (heads': seq<Flat>, grouped': set<nat>, ghost found': seq<seq<nat>>)
    requires ListsComponent(flat, comp) && p !! Elements(comp)
    requires AlignState(flat, p, found, heads, grouped)
    ensures AlignState(flat, p + Elements(comp), found', heads', grouped')
  {
    heads', grouped', found' := heads, grouped, found;
    AcceptableComponent(flat, comp);
    AlignStep(flat, p, found, heads, grouped, comp);
    if |comp| < 2 {
      return;
    }
    if MaxOf(Starts(Spans(flat, comp))) >= MinOf(Ends(Spans(flat, comp))) {
      return;
    }
    if |Elements(SampleIds(flat, comp))| != |SampleIds(flat, comp)| {
      return;
    }
    heads' := heads + [EntriesOf(flat, comp)];
    grouped' := grouped + Elements(comp);
    found' := found + [comp];
  }

  lemma {:induction false} AlignStep(flat: Flat, p: set<nat>, found: seq<seq<nat>>, heads: seq<Flat>,
                                     grouped: set<nat>, comp: seq<nat>)
    requires ListsComponent(flat, comp) && p !! Elements(comp)
    requires AlignState(flat, p, found, heads, grouped)
    ensures forall i :: i in comp ==> i < |flat|
    ensures InHead(flat, comp[0]) ==>
      AlignState(flat, p + Elements(comp), found + [comp], heads + [EntriesOf(flat, comp)], grouped + Elements(comp))
    ensures !InHead(flat, comp[0]) ==> AlignState(flat, p + Elements(comp), found, heads, grouped)
  {
    NextHolds(flat, p, found, comp);
    AcceptableComponent(flat, comp);
    GroupedStep(flat, p, comp[0]);
    HeadAppended(flat, p, found, comp, comp[0]);
    if InHead(flat, comp[0]) {
      HeadsListGrows(flat, found, heads, comp);
    }
  }

  lemma {:induction false} HeadsListGrows(flat: Flat, found: seq<seq<nat>>, heads: seq<Flat>, comp: seq<nat>)
    requires HeadsList(flat, found, heads) && forall i :: i in comp ==> i < |flat|
    ensures HeadsList(flat, found + [comp], heads + [EntriesOf(flat, comp)])
  {
  }

  /** Each group of the probe is listed once, as the readings of its members, each once. */
  ghost predicate ListsGroups(flat: Flat, found: seq<seq<nat>>, heads: seq<Flat>) {
    && HeadsList(flat, found, heads) && DistinctGroups(found) && Family(found) == ProbeGroups(flat)
    && forall h :: h in found ==> NoRepeats(h)
  }

  ghost predicate AlignedHeads(flat: Flat, heads: seq<Flat>) {
    exists found :: ListsGroups(flat, found, heads)
  }

  /** `align`: the heads are exactly the accepted components and the ungrouped readings, each once. */
  method Align(samples: seq<seq<Proposal>>) returns (heads: seq<Flat>)
    ensures AlignedHeads(Flatten(samples), heads)
  {
    var flat := Flatten(samples);
    var order, groups := GroupIndices(EpisodesOf(flat), {});
    var grouped := {};
    heads := [];
    ghost var found: seq<seq<nat>> := [];
    ghost var p: set<nat> := {};
    for e := 0 to |order|
      invariant AlignState(flat, p, found, heads, grouped)
      invariant forall i: nat :: i in p <==> i < |flat| && flat[i].p.episode in order[..e]
    {
      EpisodeIsWhole(flat, order, groups, order[e]);
      heads, grouped, found := AlignEpisode(flat, groups[order[e]], heads, grouped, p, found);
      p := p + Elements(groups[order[e]]);
      assert order[..e + 1] == order[..e] + [order[e]];
    }
    assert order[..|order|] == order;
    EveryEpisode(flat, order, groups, p);
    assert Family(found) == Heads(flat) && grouped == Grouped(flat);
    for i := 0 to |flat|
      invariant HeadsList(flat, found, heads) && DistinctGroups(found)
      invariant Family(found) == Heads(flat) + SinglesBelow(flat, i)
      invariant forall h :: h in found ==> NoRepeats(h)
    {
      if i !in grouped {
        FamilyGrows(found, [i]);
        SingleIsNew(flat, i);
        GroupsStayDistinct(found, [i]);
        found := found + [[i]];
        heads := heads + [[flat[i]]];
      }
      SinglesStep(flat, i);
    }
    assert SinglesBelow(flat, |flat|) == Singles(flat);
    assert ListsGroups(flat, found, heads);
  }

  ghost function SinglesBelow(flat: Flat, n: nat): set<set<nat>> {
    set i: nat | i < n && i < |flat| && !InHead(flat, i) :: {i}
  }

  lemma {:induction false} SinglesStep(flat: Flat, n: nat)
    requires n < |flat|
    ensures SinglesBelow(flat, n + 1) == SinglesBelow(flat, n) + if InHead(flat, n) then {} else {{n}}
  {
  }

  lemma {:induction false} SingleIsNew(flat: Flat, n: nat)
    requires n < |flat| && !InHead(flat, n)
    ensures Elements([n]) == {n} && {n} !in Heads(flat) + SinglesBelow(flat, n)
  {
  }

  // ----- commits_from_heads ------------------------------------------------------------------

  /** `{si: label for si, p in head}`: a later reading of a sample overwrites an earlier one. */
  function LabelsOf(head: Flat): map<nat, string> {
    if head == [] then map[]
    else LabelsOf(head[..|head| - 1])[head[|head| - 1].sample := head[|head| - 1].p.reading]
  }

  predicate HeadCommits(head: Flat, k: nat) {
    |LabelsOf(head)| == k && |LabelsOf(head).Values| == 1
  }

  lemma {:induction false} LabelsMeaning(head: Flat)
    requires forall i, j :: 0 <= i < j < |head| ==> head[i].sample != head[j].sample
    ensures forall n :: n in LabelsOf(head) <==> exists i :: 0 <= i < |head| && head[i].sample == n
    ensures forall i :: 0 <= i < |head| ==> LabelsOf(head)[head[i].sample] == head[i].p.reading
  {
    if head != [] {
      var rest := head[..|head| - 1];
      LabelsMeaning(rest);
      assert forall i :: 0 <= i < |rest| ==> rest[i] == head[i];
    }
  }

  lemma {:induction false} BelowCount(k: nat, keys: set<nat>)
    requires forall n :: n in keys ==> n < k
    ensures |keys| <= k
    ensures |keys| == k <==> forall n: nat :: n < k ==> n in keys
  {
    if k > 0 {
      BelowCount(k - 1, keys - {k - 1});
      assert forall n: nat :: n < k - 1 ==> (n in keys <==> n in keys - {k - 1});
    } else {
      assert keys == {};
    }
  }

  lemma {:induction false} OneValue(values: set<string>)
    ensures |values| == 1 <==> exists v :: values == {v}
  {
    if |values| == 1 {
      var v :| v in values;
      assert |values - {v}| == 0;
      assert values == {v};
    }
  }

  ghost predicate OneReading(flat: Flat, s: set<nat>, lbl: string) {
    forall i :: i in s && i < |flat| ==> flat[i].p.reading == lbl
  }

  /** On a group with one reading per sample, the count in `commits_from_heads` asks for what the
      gate asks for, except that it does not set sentinel-like labels apart. */
  lemma {:induction false} HeadCommitsMeaning(flat: Flat, comp: seq<nat>, k: nat)
    requires SamplesBelow(flat, k) && NoRepeats(comp) && (forall i :: i in comp ==> i < |flat|)
    requires OnePerSample(flat, Elements(comp))
    ensures HeadCommits(EntriesOf(flat, comp), k) <==>
              k > 0 && (forall n: nat :: n < k ==> Reads(flat, Elements(comp), n))
              && exists lbl :: OneReading(flat, Elements(comp), lbl)
  {
    var head, s := EntriesOf(flat, comp), Elements(comp);
    forall i, j | 0 <= i < j < |head| ensures head[i].sample != head[j].sample {
      assert comp[i] in s && comp[j] in s;
    }
    LabelsMeaning(head);
    var labels := LabelsOf(head);
    forall n ensures n in labels <==> Reads(flat, s, n) {
      if Reads(flat, s, n) {
        var i :| i in s && i < |flat| && flat[i].sample == n;
        var x :| 0 <= x < |comp| && comp[x] == i;
        assert head[x].sample == n;
      }
      if n in labels {
        var x :| 0 <= x < |head| && head[x].sample == n;
        assert comp[x] in s;
      }
    }
    BelowCount(k, labels.Keys);
    OneValue(labels.Values);
    HeadReadings(flat, comp, k);
  }

  lemma {:induction false} HeadReadings(flat: Flat, comp: seq<nat>, k: nat)
    requires (forall i :: i in comp ==> i < |flat|)
    requires forall i, j :: 0 <= i < j < |comp| ==> EntriesOf(flat, comp)[i].sample != EntriesOf(flat, comp)[j].sample
    ensures forall lbl :: OneReading(flat, Elements(comp), lbl) && comp != [] <==> LabelsOf(EntriesOf(flat, comp)).Values == {lbl}
  {
    var head, s := EntriesOf(flat, comp), Elements(comp);
    LabelsMeaning(head);
    var labels := LabelsOf(head);
    forall lbl ensures OneReading(flat, s, lbl) && comp != [] <==> labels.Values == {lbl} {
      if labels.Values == {lbl} {
        assert comp != [] by {
          assert lbl in labels.Values;
        }
        forall i | i in s ensures flat[i].p.reading == lbl {
          var x :| 0 <= x < |comp| && comp[x] == i;
          assert head[x].sample in labels && labels[head[x].sample] in labels.Values;
        }
      }
      if OneReading(flat, s, lbl) && comp != [] {
        assert head[0].sample in labels && comp[0] in s;
        forall n | n in labels ensures labels[n] == lbl {
          var x :| 0 <= x < |head| && head[x].sample == n;
          assert comp[x] in s;
        }
      }
    }
  }

  ghost predicate LabelsAreReal(flat: Flat) {
    forall i :: 0 <= i < |flat| ==> Real(flat[i].p.reading)
  }

  lemma {:induction false} HeadCommitsUnanimous(flat: Flat, comp: seq<nat>, k: nat)
    requires SamplesBelow(flat, k) && LabelsAreReal(flat) && NoRepeats(comp) && (forall i :: i in comp ==> i < |flat|)
    requires OnePerSample(flat, Elements(comp))
    ensures HeadCommits(EntriesOf(flat, comp), k) <==> Unanimous(flat, k, Elements(comp))
  {
    var s := Elements(comp);
    HeadCommitsMeaning(flat, comp, k);
    if HeadCommits(EntriesOf(flat, comp), k) {
      var lbl :| OneReading(flat, s, lbl);
      assert Reads(flat, s, 0);
      assert Real(lbl);
    }
    if Unanimous(flat, k, s) {
      var lbl :| Real(lbl) && forall i :: i in s ==> flat[i].p.reading == lbl;
      assert OneReading(flat, s, lbl);
    }
  }

  ghost function CommittingHeads(heads: seq<Flat>, k: nat, n: nat): set<nat>
    requires n <= |heads|
  {
    set h: nat | h < n && HeadCommits(heads[h], k)
  }

  lemma {:induction false} CommittingStep(heads: seq<Flat>, k: nat, n: nat)
    requires n < |heads|
    ensures CommittingHeads(heads, k, n + 1) == CommittingHeads(heads, k, n) + if HeadCommits(heads[n], k) then {n} else {}
    ensures n !in CommittingHeads(heads, k, n)
  {
  }

  method CommitsFromHeads(heads: seq<Flat>, k: nat) returns (n: nat)
    ensures n == |CommittingHeads(heads, k, |heads|)|
  {
    n := 0;
    for h := 0 to |heads|
      invariant n == |CommittingHeads(heads, k, h)|
    {
      CommittingStep(heads, k, h);
      if HeadCommits(heads[h], k) {
        n := n + 1;
      }
    }
  }

  /** On what `align` returns, the count is the number of unanimous groups, so both scripts agree on
      every claim head. */
  lemma {:induction false} ProbeCountsUnanimous(flat: Flat, k: nat, found: seq<seq<nat>>, heads: seq<Flat>, n: nat)
    requires SamplesBelow(flat, k) && LabelsAreReal(flat)
    requires ListsGroups(flat, found, heads) && n <= |found|
    ensures |CommittingHeads(heads, k, n)| == |Committed(flat, k, Family(found[..n]))|
  {
    if n > 0 {
      ProbeCountsUnanimous(flat, k, found, heads, n - 1);
      GroupCommits(flat, k, found, heads, n - 1);
      CommittedGrows(flat, k, found, n - 1);
      CommittingStep(heads, k, n - 1);
    }
  }

  lemma {:induction false} GroupCommits(flat: Flat, k: nat, found: seq<seq<nat>>, heads: seq<Flat>, h: nat)
    requires SamplesBelow(flat, k) && LabelsAreReal(flat)
    requires HeadsList(flat, found, heads) && Family(found) == ProbeGroups(flat)
    requires h < |found| && NoRepeats(found[h])
    ensures HeadCommits(heads[h], k) <==> Unanimous(flat, k, Elements(found[h]))
  {
    assert found[h] in found && Elements(found[h]) in Family(found);
    GroupHasOnePerSample(flat, Elements(found[h]));
    HeadCommitsUnanimous(flat, found[h], k);
  }

  lemma {:induction false} GroupHasOnePerSample(flat: Flat, s: set<nat>)
    requires s in ProbeGroups(flat)
    ensures Within(flat, s) && OnePerSample(flat, s)
  {
  }

  /** The scored population of the probe: its commits are the unanimous claim heads and nothing
      else, once there are two or more samples. */
  method ProbeScore(samples: seq<seq<Proposal>>, k: nat) returns (n: nat)
    requires SamplesBelow(Flatten(samples), k) && LabelsAreReal(Flatten(samples))
    ensures n == |Committed(Flatten(samples), k, ProbeGroups(Flatten(samples)))|
    ensures k >= 2 ==> n == |Committed(Flatten(samples), k, Heads(Flatten(samples)))|
  {
    ghost var flat := Flatten(samples);
    var heads := Align(samples);
    ghost var found :| ListsGroups(flat, found, heads);
    n := CommitsFromHeads(heads, k);
    ProbeCountsUnanimous(flat, k, found, heads, |found|);
    assert found[..|found|] == found;
    if k >= 2 {
      ProbeCommitsOnlyHeads(flat, k);
    }
  }
}
