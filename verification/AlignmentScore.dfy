/** Loops of scripts/eval_span_alignment.py `main`: flattening the samples, filing readings by key or
    episode, and the per-sample votes, each proved against the specification in ClaimHeads. */
module AlignmentScore {
  import opened Common
  import opened VoteGate
  import opened Components
  import opened ClaimHeads
  import opened AlignmentGuarantee

  // ----- flattening and bucketing ------------------------------------------------------------

  function Tagged(si: nat, ps: seq<Proposal>): Flat {
    seq(|ps|, i requires 0 <= i < |ps| => Entry(si, ps[i]))
  }

  lemma {:induction false} TaggedMembers(si: nat, ps: seq<Proposal>, e: Entry)
    ensures e in Tagged(si, ps) <==> e.sample == si && e.p in ps
  {
    if e.sample == si && e.p in ps {
      var i :| 0 <= i < |ps| && ps[i] == e.p;
      assert Tagged(si, ps)[i] == e;
    }
  }

  function FlattenFrom(samples: seq<seq<Proposal>>, si: nat): Flat
    requires si <= |samples|
    decreases |samples| - si
  {
    if si == |samples| then []
    else Tagged(si, samples[si]) + FlattenFrom(samples, si + 1)
  }

  /** `flat`: every proposal with the index of its sample, in order. */
  function Flatten(samples: seq<seq<Proposal>>): Flat {
    FlattenFrom(samples, 0)
  }

  lemma {:induction false} FlattenedSamples(samples: seq<seq<Proposal>>, si: nat, e: Entry)
    requires si <= |samples|
    ensures e in FlattenFrom(samples, si) <==> si <= e.sample < |samples| && e.p in samples[e.sample]
    decreases |samples| - si
  {
    if si < |samples| {
      FlattenedSamples(samples, si + 1, e);
      TaggedMembers(si, samples[si], e);
    }
  }

  /** Samples are numbered below k when there are k of them. */
  lemma {:induction false} FlattenedBelow(samples: seq<seq<Proposal>>, k: nat)
    requires |samples| <= k
    ensures SamplesBelow(Flatten(samples), k)
  {
    forall i | 0 <= i < |Flatten(samples)| ensures Flatten(samples)[i].sample < k {
      FlattenedSamples(samples, 0, Flatten(samples)[i]);
    }
  }

  /** The list filed under `key` after n positions: ascending, not empty, and nothing foreign. */
  ghost predicate ListOf(keys: seq<string>, n: nat, skip: set<nat>, key: string, list: seq<nat>)
    requires n <= |keys|
  {
    list != [] && Ascending(list) && forall i :: i in list ==> i < n && i !in skip && keys[i] == key
  }

  /** A dictionary of lists in first-seen key order: each list holds, ascending, exactly the
      positions of its key that were not skipped. */
  ghost predicate GroupsOf(keys: seq<string>, n: nat, skip: set<nat>,
                           order: seq<string>, groups: map<string, seq<nat>>)
    requires n <= |keys|
  {
    && (forall i, j :: 0 <= i < j < |order| ==> order[i] != order[j])
    && (forall key :: key in order <==> key in groups)
    && (forall i: nat :: i < n && i !in skip ==> keys[i] in groups && i in groups[keys[i]])
    && (forall key :: key in groups ==> ListOf(keys, n, skip, key, groups[key]))
  }

  lemma {:induction false} AscendingAppend(s: seq<nat>, x: nat)
    requires Ascending(s) && forall y :: y in s ==> y < x
    ensures Ascending(s + [x]) && forall y :: y in s + [x] <==> y in s || y == x
  {
    assert forall i :: 0 <= i < |s| ==> s[i] in s;
  }

  method GroupIndices(keys: seq<string>, skip: set<nat>)
    returns (order: seq<string>, groups: map<string, seq<nat>>)
    ensures GroupsOf(keys, |keys|, skip, order, groups)
  {
    order, groups := [], map[];
    for i := 0 to |keys|
      invariant GroupsOf(keys, i, skip, order, groups)
    {
      if i !in skip {
        if keys[i] !in groups {
          order := order + [keys[i]];
          groups := groups[keys[i] := [i]];
        } else {
          AscendingAppend(groups[keys[i]], i);
          groups := groups[keys[i] := groups[keys[i]] + [i]];
        }
      }
    }
  }

  function KeysOf(flat: Flat): seq<string> {
    seq(|flat|, i requires 0 <= i < |flat| => flat[i].p.key)
  }

  function EpisodesOf(flat: Flat): seq<string> {
    seq(|flat|, i requires 0 <= i < |flat| => flat[i].p.episode)
  }

  // ----- per-sample votes --------------------------------------------------------------------

  ghost predicate ReadAs(flat: Flat, s: set<nat>, n: nat, reading: string) {
    forall i :: i in s && i < |flat| && flat[i].sample == n ==> flat[i].p.reading == reading
  }

  ghost predicate ReadTwoWays(flat: Flat, s: set<nat>, n: nat) {
    exists i, j :: i in s && j in s && i < |flat| && j < |flat| && flat[i].sample == n == flat[j].sample
                   && flat[i].p.reading != flat[j].p.reading
  }

  /** The vote a sample is entitled to: nothing if it did not read the group, its reading if it has
      one, the conflict sentinel if it has two. The order of the readings plays no part. */
  ghost predicate VoteOf(flat: Flat, s: set<nat>, n: nat, vote: Option<string>) {
    if !Reads(flat, s, n) then vote == None
    else if ReadTwoWays(flat, s, n) then vote == Some(CONFLICTED)
    else vote.Some? && ReadAs(flat, s, n, vote.value)
  }

  /** The vote loop of both bucket passes (lines 121-132 and 209-220). */
  method BucketVotes(flat: Flat, members: seq<nat>, k: nat) returns (votes: seq<Option<string>>)
    requires SamplesBelow(flat, k) && forall i :: i in members ==> i < |flat|
    ensures |votes| == k
    ensures forall n :: 0 <= n < k ==> VoteOf(flat, Elements(members), n, votes[n])
  {
    var perSample := new Option<string>[k](_ => None);
    var conflicted := new bool[k](_ => false);
    for m := 0 to |members|
      invariant forall n :: 0 <= n < k ==>
        VoteState(flat, Elements(members[..m]), n, perSample[n], conflicted[n])
    {
      var i := members[m];
      assert i in members;
      var si, lbl := flat[i].sample, flat[i].p.reading;
      assert members[..m + 1] == members[..m] + [i];
      assert Elements(members[..m + 1]) == Elements(members[..m]) + {i};
      forall n | 0 <= n < k
        ensures VoteState(flat, Elements(members[..m + 1]), n,
                          if n == si then Some(lbl) else perSample[n],
                          conflicted[n] || (n == si && perSample[n] != None && perSample[n] != Some(lbl)))
      {
        VoteStateStep(flat, Elements(members[..m]), n, perSample[n], conflicted[n], i);
      }
      if perSample[si] != None && perSample[si] != Some(lbl) {
        conflicted[si] := true;
      }
      perSample[si] := Some(lbl);
    }
    assert members[..|members|] == members;
    votes := seq(k, n requires 0 <= n < k reads perSample, conflicted =>
      if conflicted[n] then Some(CONFLICTED) else perSample[n]);
  }

  ghost predicate VoteState(flat: Flat, s: set<nat>, n: nat, current: Option<string>, conflict: bool) {
    && (current.None? <==> !Reads(flat, s, n))
    && (conflict <==> ReadTwoWays(flat, s, n))
    && (!conflict && current.Some? ==> ReadAs(flat, s, n, current.value))
    && (current.Some? ==> exists i :: i in s && i < |flat| && flat[i].sample == n && flat[i].p.reading == current.value)
  }

  lemma {:induction false} VoteStateStep(flat: Flat, s: set<nat>, n: nat, current: Option<string>, conflict: bool, i: nat)
    requires VoteState(flat, s, n, current, conflict) && i < |flat|
    ensures var lbl := flat[i].p.reading;
            VoteState(flat, s + {i}, n, if n == flat[i].sample then Some(lbl) else current,
                      conflict || (n == flat[i].sample && current != None && current != Some(lbl)))
  {
  }

  /** Heads overwrite without a conflict check (lines 178-181): enough, because a head has at most
      one reading per sample. */
  method HeadVotes(flat: Flat, members: seq<nat>, k: nat) returns (votes: seq<Option<string>>)
    requires SamplesBelow(flat, k) && Within(flat, Elements(members)) && OnePerSample(flat, Elements(members))
    ensures |votes| == k
    ensures forall n :: 0 <= n < k ==> VoteOf(flat, Elements(members), n, votes[n])
  {
    var perSample := new Option<string>[k](_ => None);
    for m := 0 to |members|
      invariant forall n :: 0 <= n < k ==> VoteOf(flat, Elements(members[..m]), n, perSample[n])
    {
      var i := members[m];
      assert i in Elements(members);
      assert Elements(members[..m + 1]) == Elements(members[..m]) + {i};
      forall n | 0 <= n < k
        ensures VoteOf(flat, Elements(members[..m + 1]), n,
                       if n == flat[i].sample then Some(flat[i].p.reading) else perSample[n])
      {
        assert forall j :: j in Elements(members[..m]) ==> j in Elements(members);
      }
      perSample[flat[i].sample] := Some(flat[i].p.reading);
    }
    assert members[..|members|] == members;
    votes := perSample[..];
  }

  /** The gate applied to a group's votes commits it iff all k samples read it one real way. */
  lemma {:induction false} GateCommitsUnanimous(flat: Flat, s: set<nat>, k: nat, votes: seq<Option<string>>)
    requires SamplesBelow(flat, k) && Within(flat, s) && |votes| == k
    requires forall n :: 0 <= n < k ==> VoteOf(flat, s, n, votes[n])
    ensures Gate(votes, k).0 <==> Unanimous(flat, k, s)
  {
    GateIsUnanimity(votes, k);
    if Gate(votes, k).0 {
      var lbl :| AllCast(votes, lbl);
      forall i | i in s ensures flat[i].p.reading == lbl {
        assert Reads(flat, s, flat[i].sample);
        assert votes[flat[i].sample] == Some(lbl);
      }
      forall n: nat | n < k ensures Reads(flat, s, n) {
        assert votes[n] == Some(lbl);
      }
    }
    if Unanimous(flat, k, s) {
      var lbl :| Real(lbl) && forall i :: i in s ==> flat[i].p.reading == lbl;
      forall n | 0 <= n < k ensures votes[n] == Some(lbl) {
        assert Reads(flat, s, n);
      }
      assert AllCast(votes, lbl);
    }
  }
}
