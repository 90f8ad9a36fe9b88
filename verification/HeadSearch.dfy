/** Building claim heads: the per-episode overlap edges, the acceptance test and the two head
    collectors, `main` of scripts/eval_span_alignment.py (lines 134-165) and `align` of
    scripts/probe_scalar_proposer_reviewer.py (lines 61-113). */
module HeadSearch {
  import opened Common
  import opened VoteGate
  import opened Components
  import opened ClaimHeads
  import opened AlignmentGuarantee
  import opened AlignmentScore

  // ----- edges of one episode ----------------------------------------------------------------

  function AddLink(edges: Edges, a: nat, b: nat): Edges {
    edges[a := Neighbours(edges, a) + {b}]
  }

  /** The pair was visited: its smaller index is an earlier row, or it is the current row `x` and
      the larger index is among the first `y` columns. */
  ghost predicate Visited(idxs: seq<nat>, x: nat, y: nat, a: nat, b: nat)
    requires x <= |idxs| && y <= |idxs|
  {
    var lo, hi := if a < b then a else b, if a < b then b else a;
    lo in idxs[..x] || (x < |idxs| && lo == idxs[x] && hi in idxs[..y])
  }

  ghost predicate LinkIn(flat: Flat, idxs: seq<nat>, a: nat, b: nat)
    requires forall i :: i in idxs ==> i < |flat|
  {
    a in idxs && b in idxs && Adjacent(flat[a], flat[b])
  }

  ghost predicate LinksSoFar(flat: Flat, idxs: seq<nat>, x: nat, y: nat, edges: Edges)
    requires x <= |idxs| && y <= |idxs| && forall i :: i in idxs ==> i < |flat|
  {
    forall a: nat, b: nat :: b in Neighbours(edges, a) <==> LinkIn(flat, idxs, a, b) && Visited(idxs, x, y, a, b)
  }

  ghost predicate OneEpisode(flat: Flat, idxs: seq<nat>) {
    && (forall i :: i in idxs ==> i < |flat|)
    && (forall i, j :: i in idxs && j in idxs ==> flat[i].p.episode == flat[j].p.episode)
  }

  /** The dictionary links exactly the adjacent pairs of the episode. */
  ghost predicate LinksAll(flat: Flat, idxs: seq<nat>, edges: Edges)
    requires forall i :: i in idxs ==> i < |flat|
  {
    forall a: nat, b: nat :: b in Neighbours(edges, a) <==> LinkIn(flat, idxs, a, b)
  }

  lemma {:induction false} EpisodeGraph(flat: Flat, idxs: seq<nat>, edges: Edges)
    requires OneEpisode(flat, idxs) && LinksAll(flat, idxs, edges)
    ensures Symmetric(edges) && Closed(edges, Elements(idxs))
  {
  }

  method BuildEdges(flat: Flat, idxs: seq<nat>) returns (edges: Edges)
    requires Ascending(idxs) && OneEpisode(flat, idxs)
    ensures LinksAll(flat, idxs, edges)
  {
    edges := map[];
    for x := 0 to |idxs|
      invariant LinksSoFar(flat, idxs, x, 0, edges)
    {
      var a := idxs[x];
      assert a in idxs;
      for y := 0 to |idxs|
        invariant LinksSoFar(flat, idxs, x, y, edges)
      {
        var b := idxs[y];
        assert b in idxs;
        ghost var was := edges;
        if b > a && flat[a].sample != flat[b].sample && Overlap(flat[a].p, flat[b].p) {
          edges := AddLink(AddLink(edges, a, b), b, a);
        }
        NextColumn(flat, idxs, x, y, was, edges);
      }
    }
  }

  lemma {:induction false} NextColumn(flat: Flat, idxs: seq<nat>, x: nat, y: nat, was: Edges, edges: Edges)
    requires x < |idxs| && y < |idxs| && Ascending(idxs) && OneEpisode(flat, idxs)
    requires LinksSoFar(flat, idxs, x, y, was)
    requires var a, b := idxs[x], idxs[y];
             assert a in idxs && b in idxs;
             edges == if b > a && Adjacent(flat[a], flat[b]) then AddLink(AddLink(was, a, b), b, a) else was
    ensures LinksSoFar(flat, idxs, x, y + 1, edges)
  {
  }

  /** The list is everything the episode holds. */
  ghost predicate WholeEpisode(flat: Flat, idxs: seq<nat>) {
    && OneEpisode(flat, idxs)
    && forall i, j :: i in idxs && 0 <= j < |flat| && flat[j].p.episode == flat[i].p.episode ==> j in idxs
  }

  ghost predicate EpisodeEdges(flat: Flat, idxs: seq<nat>, edges: Edges) {
    && WholeEpisode(flat, idxs)
    && LinksAll(flat, idxs, edges)
  }

  /** A component found inside its episode is a component of the whole overlap graph. */
  lemma {:induction false} EpisodeComponent(flat: Flat, idxs: seq<nat>, edges: Edges, s: set<nat>)
    requires EpisodeEdges(flat, idxs, edges) && s <= Elements(idxs) && IsComponent(edges, s)
    ensures IsComponent(OverlapEdges(flat), s)
  {
    var whole, here := OverlapEdges(flat), Elements(idxs);
    forall x | x in here ensures Neighbours(edges, x) == Neighbours(whole, x) {
    }
    forall a, b | a in s ensures b in s <==> Connected(whole, a, b) {
      if Connected(whole, a, b) {
        SameConnections(whole, edges, here, a, b);
      }
      if b in s {
        SameConnections(edges, whole, here, a, b);
      }
    }
  }

  // ----- the acceptance test -----------------------------------------------------------------

  function SampleIds(flat: Flat, comp: seq<nat>): seq<nat>
    requires forall i :: i in comp ==> i < |flat|
  {
    seq<nat>(|comp|, i requires 0 <= i < |comp| => assert comp[i] in comp; flat[comp[i]].sample)
  }

  function Spans(flat: Flat, comp: seq<nat>): seq<Proposal>
    requires forall i :: i in comp ==> i < |flat|
  {
    seq<Proposal>(|comp|, i requires 0 <= i < |comp| => assert comp[i] in comp; flat[comp[i]].p)
  }

  /** `common_intersection(spans)` and `len(set(sample_ids)) == len(sample_ids)`. */
  predicate Acceptable(flat: Flat, comp: seq<nat>)
    requires comp != [] && forall i :: i in comp ==> i < |flat|
  {
    CommonIntersection(Spans(flat, comp)) && |Elements(SampleIds(flat, comp))| == |SampleIds(flat, comp)|
  }

  lemma {:induction false} DistinctCount(s: seq<nat>)
    ensures |Elements(s)| <= |s|
    ensures |Elements(s)| == |s| <==> NoRepeats(s)
  {
    if s != [] {
      var rest, last := s[..|s| - 1], s[|s| - 1];
      DistinctCount(rest);
      assert s == rest + [last];
      assert Elements(s) == Elements(rest) + {last};
      if last in rest {
        assert Elements(s) == Elements(rest);
        var i :| 0 <= i < |rest| && rest[i] == last;
        assert s[i] == s[|rest|];
      }
    }
  }

  lemma {:induction false} SampleIdsMeaning(flat: Flat, comp: seq<nat>)
    requires NoRepeats(comp) && forall i :: i in comp ==> i < |flat|
    ensures NoRepeats(SampleIds(flat, comp)) <==> OnePerSample(flat, Elements(comp))
  {
    var ids, s := SampleIds(flat, comp), Elements(comp);
    if OnePerSample(flat, s) {
      forall x, y | 0 <= x < y < |ids| ensures ids[x] != ids[y] {
        assert comp[x] in s && comp[y] in s;
      }
    }
    if NoRepeats(ids) {
      forall i, j | i in s && j in s && i != j ensures flat[i].sample != flat[j].sample {
        var x :| 0 <= x < |comp| && comp[x] == i;
        var y :| 0 <= y < |comp| && comp[y] == j;
        assert ids[x] != ids[y];
      }
    }
  }

  lemma {:induction false} SpansMeaning(flat: Flat, comp: seq<nat>)
    requires comp != [] && forall i :: i in comp ==> i < |flat|
    ensures CommonIntersection(Spans(flat, comp)) <==> SharePosition(flat, Elements(comp))
  {
    CommonIntersectionMeaning(Spans(flat, comp));
    var spans, s := Spans(flat, comp), Elements(comp);
    if SharePosition(flat, s) {
      forall p, q | p in spans && q in spans ensures p.start < q.end {
        var x :| 0 <= x < |comp| && spans[x] == p;
        var y :| 0 <= y < |comp| && spans[y] == q;
        assert comp[x] in s && comp[y] in s;
      }
    }
    if CommonIntersection(spans) {
      forall i, j | i in s && j in s ensures flat[i].p.start < flat[j].p.end {
        var x :| 0 <= x < |comp| && comp[x] == i;
        var y :| 0 <= y < |comp| && comp[y] == j;
        assert spans[x] in spans && spans[y] in spans;
      }
    }
  }

  /** The source's test on a component is the grouping rule. */
  lemma {:induction false} AcceptableMeaning(flat: Flat, comp: seq<nat>)
    requires |comp| >= 2 && NoRepeats(comp) && forall i :: i in comp ==> i < |flat|
    ensures Acceptable(flat, comp) <==> Accepted(flat, Elements(comp))
  {
    DistinctCount(comp);
    DistinctCount(SampleIds(flat, comp));
    SampleIdsMeaning(flat, comp);
    SpansMeaning(flat, comp);
  }

  /** Listed without repeats, the group is the component of its first reading. */
  ghost predicate ListsComponent(flat: Flat, comp: seq<nat>) {
    comp != [] && comp[0] < |flat| && NoRepeats(comp) && Elements(comp) == Component(flat, comp[0])
  }

  /** On a component, two or more members and the source's test make it a head. */
  lemma {:induction false} AcceptableComponent(flat: Flat, comp: seq<nat>)
    requires ListsComponent(flat, comp)
    ensures forall i :: i in comp ==> i < |flat|
    ensures InHead(flat, comp[0]) <==> |comp| >= 2 && Acceptable(flat, comp)
  {
    assert forall j :: j in comp ==> j in Component(flat, comp[0]);
    DistinctCount(comp);
    if |comp| >= 2 {
      AcceptableMeaning(flat, comp);
    }
  }

  // ----- collecting heads --------------------------------------------------------------------

  ghost function HeadsOver(flat: Flat, p: set<nat>): set<set<nat>> {
    set i: nat | i in p && InHead(flat, i) :: Component(flat, i)
  }

  ghost function GroupedOver(flat: Flat, p: set<nat>): set<nat> {
    set i: nat | i in p && InHead(flat, i)
  }

  /** Components of two or more readings that are not a claim head. */
  ghost function AmbiguousOver(flat: Flat, p: set<nat>): set<set<nat>> {
    set i: nat | i in p && i < |flat| && |Component(flat, i)| >= 2 && !InHead(flat, i) :: Component(flat, i)
  }

  ghost function Family(heads: seq<seq<nat>>): set<set<nat>> {
    set h | h in heads :: Elements(h)
  }

  ghost predicate DistinctGroups(heads: seq<seq<nat>>) {
    forall i, j :: 0 <= i < j < |heads| ==> Elements(heads[i]) != Elements(heads[j])
  }

  ghost predicate WholeComponent(flat: Flat, p: set<nat>, i: nat) {
    Component(flat, i) <= p
  }

  /** No component is cut: only looked at reading by reading. */
  ghost predicate WholeComponents(flat: Flat, p: set<nat>) {
    forall i {:trigger WholeComponent(flat, p, i)} :: i in p ==> WholeComponent(flat, p, i)
  }

  /** The processed readings `p` are whole components, and `heads` lists their heads, each once. */
  ghost predicate HeadsFound(flat: Flat, p: set<nat>, heads: seq<seq<nat>>) {
    && p <= All(flat)
    && WholeComponents(flat, p)
    && Family(heads) == HeadsOver(flat, p)
    && DistinctGroups(heads)
    && (forall h :: h in heads ==> NoRepeats(h))
  }

  /** A component not processed yet: it shares nothing with the processed readings. */
  ghost predicate Next(flat: Flat, p: set<nat>, i: nat) {
    && i < |flat| && p <= All(flat) && p !! Component(flat, i)
    && WholeComponents(flat, p)
  }

  lemma {:induction false} NextIsNew(flat: Flat, p: set<nat>, i: nat)
    requires Next(flat, p, i)
    ensures forall j :: j in Component(flat, i) ==> Component(flat, j) == Component(flat, i)
    ensures forall j :: j in p ==> Component(flat, j) != Component(flat, i)
    ensures i in Component(flat, i)
  {
    ComponentIsComponent(flat, i);
    forall j | j in Component(flat, i) ensures Component(flat, j) == Component(flat, i) {
      ComponentOfMember(flat, i, j);
    }
    forall j | j in p ensures Component(flat, j) != Component(flat, i) {
      assert WholeComponent(flat, p, j);
    }
  }

  lemma {:induction false} WholeStep(flat: Flat, p: set<nat>, i: nat)
    requires Next(flat, p, i)
    ensures WholeComponents(flat, p + Component(flat, i))
  {
    NextIsNew(flat, p, i);
    forall j | j in p + Component(flat, i) ensures WholeComponent(flat, p + Component(flat, i), j) {
      assert j in p ==> WholeComponent(flat, p, j);
    }
  }

  lemma {:induction false} HeadsStep(flat: Flat, p: set<nat>, i: nat)
    requires Next(flat, p, i)
    ensures var q := p + Component(flat, i);
            HeadsOver(flat, q) == HeadsOver(flat, p) + (if InHead(flat, i) then {Component(flat, i)} else {})
    ensures Component(flat, i) !in HeadsOver(flat, p)
  {
    NextIsNew(flat, p, i);
    var c := Component(flat, i);
    forall s ensures s in HeadsOver(flat, p + c) <==> s in HeadsOver(flat, p) || (s == c && InHead(flat, i)) {
      if s in HeadsOver(flat, p + c) {
        var j: nat :| j in p + c && InHead(flat, j) && s == Component(flat, j);
      }
      if s in HeadsOver(flat, p) {
        var j: nat :| j in p && InHead(flat, j) && s == Component(flat, j);
        assert j in p + c;
      }
      if s == c && InHead(flat, i) {
        assert i in p + c;
      }
    }
  }

  lemma {:induction false} GroupedStep(flat: Flat, p: set<nat>, i: nat)
    requires Next(flat, p, i)
    ensures GroupedOver(flat, p + Component(flat, i))
         == GroupedOver(flat, p) + (if InHead(flat, i) then Component(flat, i) else {})
  {
    NextIsNew(flat, p, i);
  }

  lemma {:induction false} AmbiguousStep(flat: Flat, p: set<nat>, i: nat)
    requires Next(flat, p, i)
    ensures AmbiguousOver(flat, p + Component(flat, i))
         == AmbiguousOver(flat, p) + (if |Component(flat, i)| >= 2 && !InHead(flat, i) then {Component(flat, i)} else {})
    ensures Component(flat, i) !in AmbiguousOver(flat, p)
  {
    NextIsNew(flat, p, i);
    var c := Component(flat, i);
    forall s ensures s in AmbiguousOver(flat, p + c) <==>
                     s in AmbiguousOver(flat, p) || (s == c && |c| >= 2 && !InHead(flat, i)) {
      if s in AmbiguousOver(flat, p + c) {
        var j: nat :| j in p + c && j < |flat| && |Component(flat, j)| >= 2 && !InHead(flat, j) && s == Component(flat, j);
      }
      if s in AmbiguousOver(flat, p) {
        var j: nat :| j in p && j < |flat| && |Component(flat, j)| >= 2 && !InHead(flat, j) && s == Component(flat, j);
        assert j in p + c;
      }
      if s == c && |c| >= 2 && !InHead(flat, i) {
        assert i in p + c;
      }
    }
  }

  lemma {:induction false} HeadAppended(flat: Flat, p: set<nat>, heads: seq<seq<nat>>, comp: seq<nat>, i: nat)
    requires HeadsFound(flat, p, heads) && NoRepeats(comp)
    requires Next(flat, p, i) && Elements(comp) == Component(flat, i)
    ensures HeadsFound(flat, p + Elements(comp), if InHead(flat, i) then heads + [comp] else heads)
  {
    var c := Component(flat, i);
    HeadsStep(flat, p, i);
    WholeStep(flat, p, i);
    ComponentIsComponent(flat, i);
    assert p + c <= All(flat);
    if InHead(flat, i) {
      FamilyGrows(heads, comp);
      GroupsStayDistinct(heads, comp);
      assert Family(heads + [comp]) == HeadsOver(flat, p + c);
    } else {
      assert Family(heads) == HeadsOver(flat, p + c);
    }
  }

  lemma {:induction false} GroupsStayDistinct(heads: seq<seq<nat>>, comp: seq<nat>)
    requires DistinctGroups(heads) && Elements(comp) !in Family(heads)
    ensures DistinctGroups(heads + [comp])
  {
  }

  lemma {:induction false} FamilyGrows(heads: seq<seq<nat>>, comp: seq<nat>)
    ensures Family(heads + [comp]) == Family(heads) + {Elements(comp)}
  {
  }

  /** The collector's variables after the readings `p`. */
  ghost predicate Collected(flat: Flat, p: set<nat>, heads: seq<seq<nat>>, grouped: set<nat>, abstained: nat) {
    && HeadsFound(flat, p, heads)
    && grouped == GroupedOver(flat, p)
    && abstained == |AmbiguousOver(flat, p)|
  }

  /** One component: a head, an abstention, or a single reading that is passed over. */
  method Consider(flat: Flat, comp: seq<nat>, heads: seq<seq<nat>>, grouped: set<nat>, abstained: nat,
                  ghost p: set<nat>)
    returns (heads': seq<seq<nat>>, grouped': set<nat>, abstained': nat)
    requires Collected(flat, p, heads, grouped, abstained)
    requires ListsComponent(flat, comp) && Next(flat, p, comp[0])
    ensures Collected(flat, p + Elements(comp), heads', grouped', abstained')
  {
    heads', grouped', abstained' := heads, grouped, abstained;
    AcceptableComponent(flat, comp);
    GroupedStep(flat, p, comp[0]);
    AmbiguousStep(flat, p, comp[0]);
    HeadAppended(flat, p, heads, comp, comp[0]);
    DistinctCount(comp);
    if |comp| == 1 {
      return;
    }
    if !Acceptable(flat, comp) {
      abstained' := abstained + 1;
      return;
    }
    heads' := heads + [comp];
    grouped' := grouped + Elements(comp);
  }

  /** The components of one episode's overlap graph. */
  method EpisodeComponents(flat: Flat, idxs: seq<nat>) returns (comps: seq<seq<nat>>)
    requires WholeEpisode(flat, idxs) && Ascending(idxs)
    ensures Partitions(comps, Elements(idxs))
    ensures forall c :: 0 <= c < |comps| ==> ListsComponent(flat, comps[c])
  {
    var edges := BuildEdges(flat, idxs);
    EpisodeGraph(flat, idxs, edges);
    comps := ConnectedComponents(idxs, edges);
    forall c | 0 <= c < |comps| ensures ListsComponent(flat, comps[c]) {
      assert forall x :: x in comps[c] ==> x in Elements(idxs);
      FirstOf(flat, idxs, edges, comps[c]);
    }
  }

  method CollectEpisode(flat: Flat, idxs: seq<nat>, heads: seq<seq<nat>>, grouped: set<nat>, abstained: nat,
                        ghost p: set<nat>)
    returns (heads': seq<seq<nat>>, grouped': set<nat>, abstained': nat)
    requires Collected(flat, p, heads, grouped, abstained)
    requires WholeEpisode(flat, idxs) && Ascending(idxs) && p !! Elements(idxs)
    ensures Collected(flat, p + Elements(idxs), heads', grouped', abstained')
  {
    heads', grouped', abstained' := heads, grouped, abstained;
    var comps := EpisodeComponents(flat, idxs);
    ghost var done: set<nat> := {};
    assert p + done == p;
    for c := 0 to |comps|
      invariant Collected(flat, p + done, heads', grouped', abstained')
      invariant UnionOf(comps, c, done)
    {
      NextHolds(flat, p + done, heads', comps[c]);
      heads', grouped', abstained' :=
        Consider(flat, comps[c], heads', grouped', abstained', p + done);
      assert p + (done + Elements(comps[c])) == p + done + Elements(comps[c]);
      done := done + Elements(comps[c]);
    }
    UnionIsAll(comps, Elements(idxs), done);
  }

  lemma {:induction false} NextHolds(flat: Flat, p: set<nat>, heads: seq<seq<nat>>, comp: seq<nat>)
    requires HeadsFound(flat, p, heads) && ListsComponent(flat, comp) && p !! Elements(comp)
    ensures Next(flat, p, comp[0])
  {
  }

  ghost predicate UnionOf(comps: seq<seq<nat>>, c: nat, done: set<nat>)
    requires c <= |comps|
  {
    forall x :: x in done <==> exists d :: 0 <= d < c && x in comps[d]
  }

  lemma {:induction false} UnionIsAll(comps: seq<seq<nat>>, nodes: set<nat>, done: set<nat>)
    requires Partitions(comps, nodes) && UnionOf(comps, |comps|, done)
    ensures done == nodes
  {
  }

  /** Head collection as the evaluation script does it. */
  method CollectHeads(flat: Flat) returns (heads: seq<seq<nat>>, grouped: set<nat>, abstained: nat)
    ensures HeadsFound(flat, All(flat), heads)
    ensures Family(heads) == Heads(flat) && grouped == Grouped(flat)
    ensures abstained == |AmbiguousOver(flat, All(flat))|
  {
    var order, groups := GroupIndices(EpisodesOf(flat), {});
    heads, grouped, abstained := [], {}, 0;
    ghost var p: set<nat> := {};
    for e := 0 to |order|
      invariant Collected(flat, p, heads, grouped, abstained)
      invariant forall i: nat :: i in p <==> i < |flat| && flat[i].p.episode in order[..e]
    {
      EpisodeIsWhole(flat, order, groups, order[e]);
      heads, grouped, abstained := CollectEpisode(flat, groups[order[e]], heads, grouped, abstained, p);
      p := p + Elements(groups[order[e]]);
      assert order[..e + 1] == order[..e] + [order[e]];
    }
    assert order[..|order|] == order;
    EveryEpisode(flat, order, groups, p);
  }

  lemma {:induction false} EveryEpisode(flat: Flat, order: seq<string>, groups: map<string, seq<nat>>, p: set<nat>)
    requires GroupsOf(EpisodesOf(flat), |flat|, {}, order, groups)
    requires forall i: nat :: i in p <==> i < |flat| && flat[i].p.episode in order
    ensures p == All(flat)
  {
    forall i | i in All(flat) ensures i in p {
      assert EpisodesOf(flat)[i] in groups;
    }
  }

  lemma {:induction false} EpisodeIsWhole(flat: Flat, order: seq<string>, groups: map<string, seq<nat>>, ep: string)
    requires GroupsOf(EpisodesOf(flat), |flat|, {}, order, groups) && ep in groups
    ensures WholeEpisode(flat, groups[ep]) && Ascending(groups[ep])
    ensures forall i: nat :: i in groups[ep] <==> i < |flat| && flat[i].p.episode == ep
  {
    forall i: nat | i < |flat| && flat[i].p.episode == ep ensures i in groups[ep] {
      assert EpisodesOf(flat)[i] == ep;
    }
  }

  lemma {:induction false} FirstOf(flat: Flat, idxs: seq<nat>, edges: Edges, comp: seq<nat>)
    requires EpisodeEdges(flat, idxs, edges) && Elements(comp) <= Elements(idxs)
    requires comp != [] && IsComponent(edges, Elements(comp))
    ensures comp[0] < |flat| && Elements(comp) == Component(flat, comp[0])
  {
    EpisodeComponent(flat, idxs, edges, Elements(comp));
    assert comp[0] in Elements(comp);
    ComponentUnique(flat, Elements(comp), comp[0]);
  }
}
