/** The k-vote unanimity gate of scripts/eval_span_alignment.py.

    A vote is a label, or nothing (the sample did not read the claim). Sentinel votes are strings
    that start with NUL, exactly as in the source, so a sentinel can dilute a vote but never win. */
module VoteGate {
  import opened Common

  datatype Reason = NoRealVote | Scattered(top: nat, of: nat) | Tie | Commit

  const NUL := '\0'
  const ABSENT := "\0absent"
  const CONFLICTED := "\0conflicted"

  type Tallied = (string, nat)

  /** A vote that can win: not a sentinel. */
  predicate Real(lbl: string) {
    lbl == "" || lbl[0] != NUL
  }

  function Cast(vote: Option<string>): string {
    match vote
    case None => ABSENT
    case Some(lbl) => lbl
  }

  function Votes(labels: seq<Option<string>>): (votes: seq<string>)
    ensures |votes| == |labels|
    ensures forall i :: 0 <= i < |labels| ==> votes[i] == Cast(labels[i])
  {
    seq(|labels|, i requires 0 <= i < |labels| => Cast(labels[i]))
  }

  // ----- Counter and most_common -------------------------------------------------------------

  function Bump(tally: seq<Tallied>, vote: string): seq<Tallied> {
    if tally == [] then [(vote, 1)]
    else if tally[0].0 == vote then [(vote, tally[0].1 + 1)] + tally[1..]
    else [tally[0]] + Bump(tally[1..], vote)
  }

  /** Counts per label, in first-seen order. */
  function Tally(votes: seq<string>): seq<Tallied> {
    if votes == [] then [] else Bump(Tally(votes[..|votes| - 1]), votes[|votes| - 1])
  }

  function Insert(x: Tallied, sorted: seq<Tallied>): seq<Tallied> {
    if sorted == [] || sorted[0].1 <= x.1 then [x] + sorted
    else [sorted[0]] + Insert(x, sorted[1..])
  }

  /** Descending by count; labels with equal counts stay in first-seen order. */
  function MostCommon(tally: seq<Tallied>): seq<Tallied> {
    if tally == [] then [] else Insert(tally[0], MostCommon(tally[1..]))
  }

  function RealVotes(tally: seq<Tallied>): seq<Tallied> {
    if tally == [] then []
    else (if Real(tally[0].0) then [tally[0]] else []) + RealVotes(tally[1..])
  }

  function Gate(labels: seq<Option<string>>, k: nat): (bool, Reason) {
    var ranked := RealVotes(MostCommon(Tally(Votes(labels))));
    if ranked == [] then (false, NoRealVote)
    else if ranked[0].1 < k then (false, Scattered(ranked[0].1, k))
    else if |ranked| >= 2 && ranked[1].1 == ranked[0].1 then (false, Tie)
    else (true, Commit)
  }

  // ----- what the tally holds ----------------------------------------------------------------

  ghost predicate DistinctLabels(tally: seq<Tallied>) {
    forall i, j :: 0 <= i < j < |tally| ==> tally[i].0 != tally[j].0
  }

  ghost predicate Descending(tally: seq<Tallied>) {
    forall i, j :: 0 <= i < j < |tally| ==> tally[i].1 >= tally[j].1
  }

  /** Every vote cast is listed with its exact multiplicity, once, and nothing else is listed. */
  ghost predicate Counts(tally: seq<Tallied>, votes: seq<string>) {
    && DistinctLabels(tally)
    && (forall e :: e in tally ==> e.1 > 0 && e.1 == multiset(votes)[e.0])
    && (forall v :: v in votes ==> (v, multiset(votes)[v]) in tally)
  }

  lemma {:induction false} BumpFound(tally: seq<Tallied>, vote: string, at: nat)
    requires at < |tally| && tally[at].0 == vote && DistinctLabels(tally)
    ensures Bump(tally, vote) == tally[at := (vote, tally[at].1 + 1)]
  {
    if at > 0 {
      BumpFound(tally[1..], vote, at - 1);
    }
  }

  lemma {:induction false} BumpFresh(tally: seq<Tallied>, vote: string)
    requires forall i :: 0 <= i < |tally| ==> tally[i].0 != vote
    ensures Bump(tally, vote) == tally + [(vote, 1)]
  {
    if tally != [] {
      BumpFresh(tally[1..], vote);
    }
  }

  /** `Counter(votes)` is the multiset of votes. */
  lemma {:induction false} TallyCounts(votes: seq<string>)
    ensures Counts(Tally(votes), votes)
  {
    if votes != [] {
      var init, vote := votes[..|votes| - 1], votes[|votes| - 1];
      assert votes == init + [vote];
      TallyCounts(init);
      var t := Tally(init);
      if at :| 0 <= at < |t| && t[at].0 == vote {
        BumpFound(t, vote, at);
        assert t[at] in t;
        TallyExtends(t, t[at := (vote, t[at].1 + 1)], at, init, vote);
      } else {
        BumpFresh(t, vote);
        TallyAppends(t, init, vote);
      }
    }
  }

  lemma {:induction false} TallyAppends(t: seq<Tallied>, init: seq<string>, vote: string)
    requires Counts(t, init) && forall i :: 0 <= i < |t| ==> t[i].0 != vote
    ensures Counts(t + [(vote, 1)], init + [vote])
  {
  }

  lemma {:induction false} TallyExtends(t: seq<Tallied>, r: seq<Tallied>, at: nat, init: seq<string>, vote: string)
    requires Counts(t, init) && at < |t| && t[at].0 == vote && r == t[at := (vote, t[at].1 + 1)]
    ensures Counts(r, init + [vote])
  {
    var votes := init + [vote];
    assert t[at] in t;
    forall e | e in r ensures e.1 > 0 && e.1 == multiset(votes)[e.0] {
      var i :| 0 <= i < |r| && r[i] == e;
      assert i != at ==> t[i] in t && t[i].0 != vote;
    }
    forall v | v in votes ensures (v, multiset(votes)[v]) in r {
      if v == vote {
        assert r[at] == (vote, multiset(votes)[vote]);
      } else {
        var i :| 0 <= i < |t| && t[i] == (v, multiset(init)[v]);
        assert r[i] == t[i];
      }
    }
  }

  /** Sorted by descending count, each label once. */
  ghost predicate Ranked(tally: seq<Tallied>) {
    Descending(tally) && DistinctLabels(tally)
  }

  ghost predicate Leads(x: Tallied, tally: seq<Tallied>) {
    forall e :: e in tally ==> e.1 <= x.1 && e.0 != x.0
  }

  lemma {:induction false} RankedCons(x: Tallied, rest: seq<Tallied>)
    requires Ranked(rest) && Leads(x, rest)
    ensures Ranked([x] + rest)
  {
  }

  lemma {:induction false} InsertKeeps(x: Tallied, sorted: seq<Tallied>)
    requires Ranked(sorted) && forall e :: e in sorted ==> e.0 != x.0
    ensures Ranked(Insert(x, sorted)) && forall e :: e in Insert(x, sorted) <==> e == x || e in sorted
  {
    if sorted == [] {
    } else if sorted[0].1 <= x.1 {
      RankedCons(x, sorted);
    } else {
      InsertKeeps(x, sorted[1..]);
      RankedCons(sorted[0], Insert(x, sorted[1..]));
    }
  }

  lemma {:induction false} MostCommonSorts(tally: seq<Tallied>)
    requires DistinctLabels(tally)
    ensures Ranked(MostCommon(tally)) && forall e :: e in MostCommon(tally) <==> e in tally
  {
    if tally != [] {
      MostCommonSorts(tally[1..]);
      assert forall e :: e in tally <==> e == tally[0] || e in tally[1..];
      InsertKeeps(tally[0], MostCommon(tally[1..]));
    }
  }

  lemma {:induction false} RealVotesMembers(tally: seq<Tallied>, e: Tallied)
    ensures e in RealVotes(tally) <==> e in tally && Real(e.0)
  {
    if tally != [] {
      RealVotesMembers(tally[1..], e);
    }
  }

  lemma {:induction false} RealVotesKeeps(tally: seq<Tallied>)
    requires Ranked(tally)
    ensures Ranked(RealVotes(tally))
  {
    if tally != [] {
      RealVotesKeeps(tally[1..]);
      forall e | e in RealVotes(tally[1..]) ensures e in tally[1..] {
        RealVotesMembers(tally[1..], e);
      }
      if Real(tally[0].0) {
        RankedCons(tally[0], RealVotes(tally[1..]));
      }
    }
  }

  /** The ranked real votes: exactly the real labels that were cast, each with its multiplicity. */
  lemma {:induction false} RankedVotes(labels: seq<Option<string>>) returns (ranked: seq<Tallied>)
    ensures ranked == RealVotes(MostCommon(Tally(Votes(labels))))
    ensures Ranked(ranked)
    ensures forall e :: e in ranked ==> Real(e.0) && e.1 > 0 && e.1 == multiset(Votes(labels))[e.0]
    ensures forall v :: v in Votes(labels) && Real(v) ==> (v, multiset(Votes(labels))[v]) in ranked
  {
    TallyCounts(Votes(labels));
    MostCommonSorts(Tally(Votes(labels)));
    RealVotesKeeps(MostCommon(Tally(Votes(labels))));
    forall e: Tallied {
      RealVotesMembers(MostCommon(Tally(Votes(labels))), e);
    }
    ranked := RealVotes(MostCommon(Tally(Votes(labels))));
  }

  // ----- what the gate decides ---------------------------------------------------------------

  /** Every one of the samples cast the same real label. */
  ghost predicate AllCast(labels: seq<Option<string>>, lbl: string) {
    Real(lbl) && forall i :: 0 <= i < |labels| ==> labels[i] == Some(lbl)
  }

  lemma {:induction false} FullMultiplicity(votes: seq<string>, lbl: string)
    ensures multiset(votes)[lbl] <= |votes|
    ensures multiset(votes)[lbl] == |votes| <==> forall i :: 0 <= i < |votes| ==> votes[i] == lbl
  {
    if votes != [] {
      assert votes == [votes[0]] + votes[1..];
      FullMultiplicity(votes[1..], lbl);
      assert forall i :: 0 < i < |votes| ==> votes[i] == votes[1..][i - 1];
    }
  }

  lemma {:induction false} TwoLabelsShare(votes: seq<string>, a: string, b: string)
    requires a != b
    ensures multiset(votes)[a] + multiset(votes)[b] <= |votes|
  {
    if votes != [] {
      assert votes == [votes[0]] + votes[1..];
      TwoLabelsShare(votes[1..], a, b);
    }
  }

  /** With one vote per configured sample, the gate commits iff all k samples cast one real label. */
  lemma {:induction false} GateIsUnanimity(labels: seq<Option<string>>, k: nat)
    requires |labels| == k
    ensures Gate(labels, k).0 <==> k > 0 && exists lbl :: AllCast(labels, lbl)
    ensures Gate(labels, k).0 <==> Gate(labels, k).1 == Commit
  {
    var votes := Votes(labels);
    var ranked := RankedVotes(labels);
    if Gate(labels, k).0 {
      assert ranked[0] in ranked;
      FullMultiplicity(votes, ranked[0].0);
      forall i | 0 <= i < k ensures labels[i] == Some(ranked[0].0) {
        assert votes[i] == ranked[0].0;
      }
      assert AllCast(labels, ranked[0].0);
    }
    if k > 0 && exists lbl :: AllCast(labels, lbl) {
      var lbl :| AllCast(labels, lbl);
      FullMultiplicity(votes, lbl);
      assert votes[0] == lbl && Real(lbl);
      assert (lbl, k) in ranked;
      assert forall i :: 0 <= i < |ranked| ==> ranked[i] in ranked && ranked[i].0 in votes;
      assert ranked[0] in ranked;
    }
  }

  /** The tie branch is dead when there is one vote per sample. */
  lemma {:induction false} TieIsUnreachable(labels: seq<Option<string>>, k: nat)
    requires |labels| == k
    ensures Gate(labels, k).1 != Tie
  {
    var ranked := RankedVotes(labels);
    if |ranked| >= 2 {
      assert ranked[0] in ranked && ranked[1] in ranked;
      TwoLabelsShare(Votes(labels), ranked[0].0, ranked[1].0);
    }
  }

  /** The two abstention reasons say what they claim: no real vote was cast at all, or the best
      real label fell short of k and no other real label did better. */
  lemma {:induction false} AbstentionReasons(labels: seq<Option<string>>, k: nat)
    ensures Gate(labels, k).1 == NoRealVote <==> forall v :: v in Votes(labels) ==> !Real(v)
    ensures Gate(labels, k).1.Scattered? ==>
              var top := Gate(labels, k).1.top;
              && top < k == Gate(labels, k).1.of
              && (exists l :: Real(l) && l in Votes(labels) && multiset(Votes(labels))[l] == top)
              && (forall l :: Real(l) && l in Votes(labels) ==> multiset(Votes(labels))[l] <= top)
  {
    var ranked := RankedVotes(labels);
    var votes := Votes(labels);
    if ranked != [] {
      assert ranked[0] in ranked;
      assert multiset(votes)[ranked[0].0] > 0;
      assert ranked[0].0 in votes && Real(ranked[0].0);
      forall l | Real(l) && l in votes ensures multiset(votes)[l] <= ranked[0].1 {
        assert (l, multiset(votes)[l]) in ranked;
      }
    }
  }
}
