/** Repair of source times from a fixture: plan, apply, re-plan (scripts/repair_lme_scalar_source_times_planning.py
    and scripts/repair_lme_scalar_source_times_apply.py). Instants are integers; a missing id is the empty string. */
module SourceTimeRepair {
  import opened Common
  import opened FixtureIndex

  /** A stored timestamp property: null, the empty string, text that is no ISO-8601 date, or an instant. */
  datatype Stored = Missing | EmptyText | Unreadable | At(instant: int)

  datatype Evidence = Evidence(turn: string, namespace: string, session: string, occurredAt: Stored)

  /** `founds` holds the turn ids of the evidence that founds the assertion; `original` is the backup. */
  datatype Assertion = Assertion(id: string, namespace: string, episode: string, subject: string, pending: bool,
                                 validAt: Stored, original: Stored, founds: set<string>)

  // ----- judging one row ---------------------------------------------------------------------

  /** `Elsewhere`: outside the namespace prefix, so not returned by the query. */
  datatype Verdict = Elsewhere | Unmapped | Unparsed | Conflicting | Correct | Update(target: int)

  predicate Mapped(times: Times, e: Evidence) {
    e.turn != "" && (e.namespace, e.session) in times
  }

  function EvidenceVerdict(times: Times, prefix: string, e: Evidence): Verdict {
    if !(prefix <= e.namespace) then Elsewhere
    else if !Mapped(times, e) then Unmapped
    else
      match e.occurredAt
      case Unreadable => Unparsed
      case Missing => Update(times[(e.namespace, e.session)])
      case EmptyText => Conflicting
      case At(t) => if t == times[(e.namespace, e.session)] then Correct else Conflicting
  }

  /** The target of every mapped turn; a repeated turn id keeps its last row. */
  function TargetByTurn(times: Times, prefix: string, rows: seq<Evidence>): map<string, int> {
    if rows == [] then map[]
    else
      var last := rows[|rows| - 1];
      var targets := TargetByTurn(times, prefix, rows[..|rows| - 1]);
      if prefix <= last.namespace && Mapped(times, last)
      then targets[last.turn := times[(last.namespace, last.session)]] else targets
  }

  function Candidates(a: Assertion): set<string> {
    var founded := a.founds - {""};
    if founded != {} then founded else if a.episode != "" then {a.episode} else {}
  }

  function TargetsOf(targets: map<string, int>, turns: set<string>): set<int> {
    set turn | turn in turns && turn in targets :: targets[turn]
  }

  /** What an assertion's turns say about its time. */
  datatype Founded = Unfounded | Disagreeing | Agreed(target: int)

  function FoundedOn(targets: map<string, int>, a: Assertion): Founded {
    var turns := Candidates(a);
    var found := TargetsOf(targets, turns);
    if a.id == "" || found == {} || turns - targets.Keys != {} then Unfounded
    else if |found| != 1 then Disagreeing
    else Agreed(TheOnly(found))
  }

  function AssertionVerdict(targets: map<string, int>, prefix: string, a: Assertion): Verdict {
    if !(prefix <= a.namespace) then Elsewhere
    else
      match FoundedOn(targets, a)
      case Unfounded => Unmapped
      case Disagreeing => Conflicting
      case Agreed(target) =>
        if a.validAt == Unreadable then Unparsed
        else if a.validAt == At(target) then Correct else Update(target)
  }

  function TheOnly<T>(s: set<T>): (x: T)
    requires |s| == 1
    ensures s == {x}
  {
    OnlyOne(s);
    var x :| x in s && s == {x};
    x
  }

  lemma {:induction false} OnlyOne<T>(s: set<T>)
    requires |s| == 1
    ensures exists x :: x in s && s == {x}
    ensures forall x, y :: x in s && y in s ==> x == y
  {
    var x :| x in s;
    assert |s - {x}| == 0;
    assert s == {x};
  }

  predicate Rebuildable(a: Assertion) {
    a.subject != "" && a.namespace != "" && !a.pending && !("unbound:" <= a.subject)
  }

  // ----- the plan ----------------------------------------------------------------------------

  datatype Change = Change(id: string, target: int)

  datatype Judged = Judged(id: string, verdict: Verdict)

  datatype Reason =
    | NoEvidence | UnparsedTime | UnmappedEvidence | ConflictingEvidence | UnmappedAssertions | AmbiguousAssertions

  datatype Plan = Plan(evidence: seq<Change>, assertions: seq<Change>, rebuild: set<(string, string)>,
                       evidenceTotal: nat, assertionTotal: nat, evidenceCorrect: nat, assertionsCorrect: nat)

  datatype Outcome<+T> = Ok(value: T) | Refused(reason: Reason)

  function JudgeEvidence(times: Times, prefix: string, rows: seq<Evidence>): seq<Judged> {
    seq(|rows|, i requires 0 <= i < |rows| => Judged(rows[i].turn, EvidenceVerdict(times, prefix, rows[i])))
  }

  function JudgeAssertions(targets: map<string, int>, prefix: string, rows: seq<Assertion>): seq<Judged> {
    seq(|rows|, i requires 0 <= i < |rows| => Judged(rows[i].id, AssertionVerdict(targets, prefix, rows[i])))
  }

  function Changes(judged: seq<Judged>): seq<Change> {
    if judged == [] then []
    else
      var last := judged[|judged| - 1];
      Changes(judged[..|judged| - 1]) + if last.verdict.Update? then [Change(last.id, last.verdict.target)] else []
  }

  function CountCorrect(judged: seq<Judged>): nat {
    if judged == [] then 0
    else CountCorrect(judged[..|judged| - 1]) + if judged[|judged| - 1].verdict == Correct then 1 else 0
  }

  function CountListed(judged: seq<Judged>): nat {
    if judged == [] then 0
    else CountListed(judged[..|judged| - 1]) + if judged[|judged| - 1].verdict == Elsewhere then 0 else 1
  }

  predicate Has(judged: seq<Judged>, verdict: Verdict) {
    exists i :: 0 <= i < |judged| && judged[i].verdict == verdict
  }

  /** The assertion has a single target. */
  predicate Single(verdict: Verdict) {
    verdict == Correct || verdict.Update?
  }

  /** What each row contributes to the rebuild. */
  function RebuiltSets(targets: map<string, int>, prefix: string, rows: seq<Assertion>): seq<set<(string, string)>> {
    seq(|rows|, i requires 0 <= i < |rows| => Rebuilt(AssertionVerdict(targets, prefix, rows[i]), rows[i]))
  }

  function Union<T>(sets: seq<set<T>>, n: nat): set<T>
    requires n <= |sets|
  {
    if n == 0 then {} else Union(sets, n - 1) + sets[n - 1]
  }

  /** The subjects to rebuild: those of every listed assertion with a single target, among the first n. */
  function RebuildTargets(targets: map<string, int>, prefix: string, rows: seq<Assertion>, n: nat): set<(string, string)>
    requires n <= |rows|
  {
    Union(RebuiltSets(targets, prefix, rows), n)
  }

  function Rebuilt(verdict: Verdict, row: Assertion): set<(string, string)> {
    if Single(verdict) && Rebuildable(row) then {(row.subject, row.namespace)} else {}
  }

  function EvidenceRefusal(es: seq<Judged>): Option<Reason> {
    if Has(es, Unparsed) then Some(UnparsedTime)
    else if Has(es, Unmapped) then Some(UnmappedEvidence)
    else if Has(es, Conflicting) then Some(ConflictingEvidence) else None
  }

  function AssertionRefusal(judged: seq<Judged>): Option<Reason> {
    if Has(judged, Unparsed) then Some(UnparsedTime)
    else if Has(judged, Unmapped) then Some(UnmappedAssertions)
    else if Has(judged, Conflicting) then Some(AmbiguousAssertions) else None
  }

  /** The whole plan, with its refusals in the order in which they are raised. */
  function PlanOf(times: Times, prefix: string, evidence: seq<Evidence>, assertions: seq<Assertion>): Outcome<Plan> {
    var es, targets := JudgeEvidence(times, prefix, evidence), TargetByTurn(times, prefix, evidence);
    var js := JudgeAssertions(targets, prefix, assertions);
    if CountListed(es) == 0 then Refused(NoEvidence)
    else if EvidenceRefusal(es).Some? then Refused(EvidenceRefusal(es).value)
    else if AssertionRefusal(js).Some? then Refused(AssertionRefusal(js).value)
    else Ok(Plan(Changes(es), Changes(js), RebuildTargets(targets, prefix, assertions, |assertions|),
                 CountListed(es), CountListed(js), CountCorrect(es), CountCorrect(js)))
  }

  // ----- the write ---------------------------------------------------------------------------

  function SetTime(e: Evidence, c: Change): Evidence {
    if e.turn == c.id then e.(occurredAt := At(c.target)) else e
  }

  function EvidenceAfter(e: Evidence, changes: seq<Change>): Evidence {
    if changes == [] then e
    else SetTime(EvidenceAfter(e, changes[..|changes| - 1]), changes[|changes| - 1])
  }

  /** The first write keeps the old value as the backup; `coalesce` keeps a backup that is there. */
  function SetValid(a: Assertion, c: Change): Assertion {
    if a.id == c.id
    then a.(validAt := At(c.target), original := if a.original == Missing then a.validAt else a.original)
    else a
  }

  function AssertionAfter(a: Assertion, changes: seq<Change>): Assertion {
    if changes == [] then a
    else SetValid(AssertionAfter(a, changes[..|changes| - 1]), changes[|changes| - 1])
  }

  function Carriers(ids: seq<string>, id: string): nat {
    if ids == [] then 0 else Carriers(ids[..|ids| - 1], id) + if ids[|ids| - 1] == id then 1 else 0
  }

  /** What the write statement counts: one for every change and node that carries its id. */
  function Matched(ids: seq<string>, changes: seq<Change>): nat {
    if changes == [] then 0
    else Matched(ids, changes[..|changes| - 1]) + Carriers(ids, changes[|changes| - 1].id)
  }

  function Turns(rows: seq<Evidence>): seq<string> {
    seq(|rows|, i requires 0 <= i < |rows| => rows[i].turn)
  }

  function AssertionIds(rows: seq<Assertion>): seq<string> {
    seq(|rows|, i requires 0 <= i < |rows| => rows[i].id)
  }

  function AllEvidenceAfter(rows: seq<Evidence>, changes: seq<Change>): seq<Evidence> {
    seq(|rows|, i requires 0 <= i < |rows| => EvidenceAfter(rows[i], changes))
  }

  function AllAssertionsAfter(rows: seq<Assertion>, changes: seq<Change>): seq<Assertion> {
    seq(|rows|, i requires 0 <= i < |rows| => AssertionAfter(rows[i], changes))
  }

  /** The evidence and assertion nodes of the graph, each in the order of its query. */
  class Graph {
    var evidence: seq<Evidence>
    var assertions: seq<Assertion>

    constructor (evidence: seq<Evidence>, assertions: seq<Assertion>)
      ensures this.evidence == evidence && this.assertions == assertions
    {
      this.evidence := evidence;
      this.assertions := assertions;
    }

    /** The evidence loop of `build_repair_plan`. */
    method ReviewEvidence(times: Times, prefix: string)
      returns (targets: map<string, int>, changes: seq<Change>, correct: nat, total: nat, refusal: Option<Reason>)
      ensures refusal == EvidenceRefusal(JudgeEvidence(times, prefix, evidence))
      ensures refusal.None? ==>
        && targets == TargetByTurn(times, prefix, evidence)
        && Tallied(JudgeEvidence(times, prefix, evidence), changes, correct, total)
    {
      targets, changes, correct, total := map[], [], 0, 0;
      var unmapped, conflicting := 0, 0;
      for i := 0 to |evidence|
        invariant targets == TargetByTurn(times, prefix, evidence[..i])
        invariant Counted(JudgeEvidence(times, prefix, evidence[..i]), changes, correct, total, unmapped, conflicting)
      {
        var row := evidence[i];
        EvidenceStep(times, prefix, evidence, i);
        CountRow(JudgeEvidence(times, prefix, evidence[..i + 1]), JudgeEvidence(times, prefix, evidence[..i]),
                 Judged(row.turn, EvidenceVerdict(times, prefix, row)), changes, correct, total, unmapped, conflicting);
        if prefix <= row.namespace {
          total := total + 1;
          if row.turn == "" || (row.namespace, row.session) !in times {
            unmapped := unmapped + 1;
          } else {
            var target := times[(row.namespace, row.session)];
            targets := targets[row.turn := target];
            if row.occurredAt == Unreadable {
              HasWithin(JudgeEvidence(times, prefix, evidence), i);
              return targets, changes, correct, total, Some(UnparsedTime);
            } else if row.occurredAt == At(target) {
              correct := correct + 1;
            } else if row.occurredAt != Missing {
              conflicting := conflicting + 1;
            } else {
              changes := changes + [Change(row.turn, target)];
            }
          }
        }
      }
      assert evidence[..|evidence|] == evidence;
      refusal := if unmapped > 0 then Some(UnmappedEvidence)
                 else if conflicting > 0 then Some(ConflictingEvidence) else None;
    }
  
    /** The assertion loop of `build_repair_plan`. */
    method ReviewAssertions(targets: map<string, int>, prefix: string)
      returns (changes: seq<Change>, rebuild: set<(string, string)>, correct: nat, total: nat, refusal: Option<Reason>)
      ensures refusal == AssertionRefusal(JudgeAssertions(targets, prefix, assertions))
      ensures refusal.None? ==>
        && rebuild == RebuildTargets(targets, prefix, assertions, |assertions|)
        && Tallied(JudgeAssertions(targets, prefix, assertions), changes, correct, total)
    {
      changes, rebuild, correct, total := [], {}, 0, 0;
      var unmapped, ambiguous := 0, 0;
      for i := 0 to |assertions|
        invariant rebuild == RebuildTargets(targets, prefix, assertions, i)
        invariant Counted(JudgeAssertions(targets, prefix, assertions[..i]), changes, correct, total, unmapped, ambiguous)
      {
        var row := assertions[i];
        AssertionStep(targets, prefix, assertions, i);
        RebuildStep(targets, prefix, assertions, i);
        CountRow(JudgeAssertions(targets, prefix, assertions[..i + 1]), JudgeAssertions(targets, prefix, assertions[..i]),
                 Judged(row.id, AssertionVerdict(targets, prefix, row)), changes, correct, total, unmapped, ambiguous);
        if prefix <= row.namespace {
          total := total + 1;
          var founded := FoundedOn(targets, row);
          if founded.Unfounded? {
            unmapped := unmapped + 1;
          } else if founded.Disagreeing? {
            ambiguous := ambiguous + 1;
          } else {
            if row.validAt == Unreadable {
              HasWithin(JudgeAssertions(targets, prefix, assertions), i);
              return changes, rebuild, correct, total, Some(UnparsedTime);
            } else if row.validAt == At(founded.target) {
              correct := correct + 1;
            } else {
              changes := changes + [Change(row.id, founded.target)];
            }
            if Rebuildable(row) {
              rebuild := rebuild + {(row.subject, row.namespace)};
            }
          }
        }
      }
      assert assertions[..|assertions|] == assertions;
      refusal := if unmapped > 0 then Some(UnmappedAssertions)
                 else if ambiguous > 0 then Some(AmbiguousAssertions) else None;
    }

    /** `build_repair_plan`. */
    method BuildPlan(times: Times, prefix: string) returns (plan: Outcome<Plan>)
      ensures plan == PlanOf(times, prefix, evidence, assertions)
    {
      ListedIff(times, prefix, evidence);
      if forall row <- evidence :: !(prefix <= row.namespace) {
        return Refused(NoEvidence);
      }
      var targets, changes, correct, total, refusal := ReviewEvidence(times, prefix);
      if refusal.Some? {
        return Refused(refusal.value);
      }
      var updates, rebuild, settled, count, refusal' := ReviewAssertions(targets, prefix);
      if refusal'.Some? {
        return Refused(refusal'.value);
      }
      plan := Ok(Plan(changes, updates, rebuild, total, count, correct, settled));
    }

    /** The evidence half of the write statement: every change against every node that carries its id. */
    method WriteEvidence(changes: seq<Change>) returns (count: nat)
      modifies this
      ensures evidence == AllEvidenceAfter(old(evidence), changes) && assertions == old(assertions)
      ensures count == Matched(Turns(old(evidence)), changes)
    {
      count := 0;
      ghost var ids := Turns(evidence);
      for c := 0 to |changes|
        invariant evidence == AllEvidenceAfter(old(evidence), changes[..c]) && assertions == old(assertions)
        invariant count == Matched(ids, changes[..c])
      {
        assert changes[..c + 1][..c] == changes[..c];
        EvidenceKeepsTurns(old(evidence), changes[..c]);
        ghost var before, counted := evidence, count;
        for k := 0 to |evidence|
          invariant |evidence| == |before| && assertions == old(assertions)
          invariant forall j :: 0 <= j < k ==> evidence[j] == SetTime(before[j], changes[c])
          invariant forall j :: k <= j < |before| ==> evidence[j] == before[j]
          invariant count == counted + Carriers(ids[..k], changes[c].id)
        {
          assert ids[..k + 1][..k] == ids[..k];
          if evidence[k].turn == changes[c].id {
            evidence := evidence[k := evidence[k].(occurredAt := At(changes[c].target))];
            count := count + 1;
          }
        }
        assert ids[..|before|] == ids;
      }
      assert changes[..|changes|] == changes;
    }

    /** The assertion half of the write statement, with the backup of the old value. */
    method WriteAssertions(changes: seq<Change>) returns (count: nat)
      modifies this
      ensures assertions == AllAssertionsAfter(old(assertions), changes) && evidence == old(evidence)
      ensures count == Matched(AssertionIds(old(assertions)), changes)
    {
      count := 0;
      ghost var ids := AssertionIds(assertions);
      for c := 0 to |changes|
        invariant assertions == AllAssertionsAfter(old(assertions), changes[..c]) && evidence == old(evidence)
        invariant count == Matched(ids, changes[..c])
      {
        assert changes[..c + 1][..c] == changes[..c];
        AssertionsKeepIds(old(assertions), changes[..c]);
        ghost var before, counted := assertions, count;
        for k := 0 to |assertions|
          invariant |assertions| == |before| && evidence == old(evidence)
          invariant forall j :: 0 <= j < k ==> assertions[j] == SetValid(before[j], changes[c])
          invariant forall j :: k <= j < |before| ==> assertions[j] == before[j]
          invariant count == counted + Carriers(ids[..k], changes[c].id)
        {
          assert ids[..k + 1][..k] == ids[..k];
          var node := assertions[k];
          if node.id == changes[c].id {
            var backup := if node.original == Missing then node.validAt else node.original;
            assertions := assertions[k := node.(validAt := At(changes[c].target), original := backup)];
            count := count + 1;
          }
        }
        assert ids[..|before|] == ids;
      }
      assert changes[..|changes|] == changes;
    }

    /** `apply_repair` on a plan made from this graph, without the rebuild of the projections. */
    method ApplyRepair(times: Times, prefix: string, plan: Plan) returns (verdict: Verification)
      requires PlanOf(times, prefix, evidence, assertions) == Ok(plan)
      modifies this
      ensures evidence == AllEvidenceAfter(old(evidence), plan.evidence)
      ensures assertions == AllAssertionsAfter(old(assertions), plan.assertions)
      ensures verdict == if !CarriedOnce(Turns(old(evidence)), plan.evidence) then EvidenceCountChanged
                         else if !CarriedOnce(AssertionIds(old(assertions)), plan.assertions) then AssertionCountChanged
                         else Complete(SettledPlan(plan))
      ensures verdict.EvidenceCountChanged? ==> evidence != old(evidence)
      ensures verdict.AssertionCountChanged? ==> assertions != old(assertions)
    {
      ghost var before, bound := evidence, assertions;
      RefusalLeavesChanges(times, prefix, evidence, assertions);
      AcceptedIffCarriedOnce(times, prefix, evidence, assertions);
      var first := WriteEvidence(plan.evidence);
      var second := WriteAssertions(plan.assertions);
      if first != |plan.evidence| {
        return EvidenceCountChanged;
      }
      if second != |plan.assertions| {
        return AssertionCountChanged;
      }
      ReplanIsSettled(times, prefix, before, bound);
      var verification := BuildPlan(times, prefix);
      if verification.Refused? || verification.value.evidence != [] || verification.value.assertions != [] {
        assert false;
      }
      verdict := Complete(verification.value);
    }
  }

  datatype Verification = EvidenceCountChanged | AssertionCountChanged | Complete(verification: Plan)

  /** A plan with nothing left to update. */
  function SettledPlan(plan: Plan): Plan {
    plan.(evidence := [], assertions := [], evidenceCorrect := plan.evidenceTotal, assertionsCorrect := plan.assertionTotal)
  }

  ghost predicate CarriedOnce(ids: seq<string>, changes: seq<Change>) {
    forall c :: 0 <= c < |changes| ==> Carriers(ids, changes[c].id) == 1
  }

  // ----- the loops' bookkeeping --------------------------------------------------------------

  ghost predicate Tallied(judged: seq<Judged>, changes: seq<Change>, correct: nat, total: nat) {
    changes == Changes(judged) && correct == CountCorrect(judged) && total == CountListed(judged)
  }

  /** Every row so far parsed; the counters tell whether one was unmapped or conflicting. */
  ghost predicate Flagged(judged: seq<Judged>, unmapped: int, conflicting: int) {
    && !Has(judged, Unparsed) && unmapped >= 0 && conflicting >= 0
    && (unmapped > 0 <==> Has(judged, Unmapped)) && (conflicting > 0 <==> Has(judged, Conflicting))
  }

  ghost predicate Counted(judged: seq<Judged>, changes: seq<Change>, correct: nat, total: nat,
                          unmapped: int, conflicting: int) {
    Tallied(judged, changes, correct, total) && Flagged(judged, unmapped, conflicting)
  }

  /** One more row that parses adds to one tally at most besides the total. */
  lemma {:induction false} CountRow(more: seq<Judged>, judged: seq<Judged>, j: Judged, changes: seq<Change>,
                                    correct: nat, total: nat, unmapped: int, conflicting: int)
    requires Adds(more, judged, j) && Counted(judged, changes, correct, total, unmapped, conflicting)
    ensures j.verdict == Elsewhere ==> Counted(more, changes, correct, total, unmapped, conflicting)
    ensures j.verdict == Unmapped ==> Counted(more, changes, correct, total + 1, unmapped + 1, conflicting)
    ensures j.verdict == Conflicting ==> Counted(more, changes, correct, total + 1, unmapped, conflicting + 1)
    ensures j.verdict == Correct ==> Counted(more, changes, correct + 1, total + 1, unmapped, conflicting)
    ensures j.verdict.Update? ==>
      Counted(more, changes + [Change(j.id, j.verdict.target)], correct, total + 1, unmapped, conflicting)
  {
  }

  lemma {:induction false} EvidenceStep(times: Times, prefix: string, rows: seq<Evidence>, i: nat)
    requires i < |rows|
    ensures Adds(JudgeEvidence(times, prefix, rows[..i + 1]), JudgeEvidence(times, prefix, rows[..i]),
                 Judged(rows[i].turn, EvidenceVerdict(times, prefix, rows[i])))
    ensures TargetByTurn(times, prefix, rows[..i + 1])
         == var targets := TargetByTurn(times, prefix, rows[..i]);
            if prefix <= rows[i].namespace && Mapped(times, rows[i])
            then targets[rows[i].turn := times[(rows[i].namespace, rows[i].session)]] else targets
  {
    var judged, j := JudgeEvidence(times, prefix, rows[..i]), Judged(rows[i].turn, EvidenceVerdict(times, prefix, rows[i]));
    assert rows[..i + 1][..i] == rows[..i];
    assert JudgeEvidence(times, prefix, rows[..i + 1]) == judged + [j];
    JudgedStep(judged, j);
  }

  lemma {:induction false} AssertionStep(targets: map<string, int>, prefix: string, rows: seq<Assertion>, i: nat)
    requires i < |rows|
    ensures Adds(JudgeAssertions(targets, prefix, rows[..i + 1]), JudgeAssertions(targets, prefix, rows[..i]),
                 Judged(rows[i].id, AssertionVerdict(targets, prefix, rows[i])))
  {
    var judged, j := JudgeAssertions(targets, prefix, rows[..i]), Judged(rows[i].id, AssertionVerdict(targets, prefix, rows[i]));
    assert rows[..i + 1] == rows[..i] + [rows[i]];
    assert JudgeAssertions(targets, prefix, rows[..i + 1]) == judged + [j];
    JudgedStep(judged, j);
  }

  lemma {:induction false} RebuildStep(targets: map<string, int>, prefix: string, rows: seq<Assertion>, i: nat)
    requires i < |rows|
    ensures RebuildTargets(targets, prefix, rows, i + 1)
         == if Single(AssertionVerdict(targets, prefix, rows[i])) && Rebuildable(rows[i])
            then RebuildTargets(targets, prefix, rows, i) + {(rows[i].subject, rows[i].namespace)}
            else RebuildTargets(targets, prefix, rows, i)
  {
  }

  lemma {:induction false} ListedIff(times: Times, prefix: string, rows: seq<Evidence>)
    ensures CountListed(JudgeEvidence(times, prefix, rows)) == 0 <==> forall row <- rows :: !(prefix <= row.namespace)
  {
    if rows != [] {
      var n := |rows| - 1;
      ListedIff(times, prefix, rows[..n]);
      assert JudgeEvidence(times, prefix, rows)[..n] == JudgeEvidence(times, prefix, rows[..n]);
      assert rows == rows[..n] + [rows[n]];
    }
  }

  /** What one more judged row adds to the tallies. */
  ghost predicate Adds(more: seq<Judged>, judged: seq<Judged>, j: Judged) {
    && Changes(more) == Changes(judged) + (if j.verdict.Update? then [Change(j.id, j.verdict.target)] else [])
    && CountCorrect(more) == CountCorrect(judged) + (if j.verdict == Correct then 1 else 0)
    && CountListed(more) == CountListed(judged) + (if j.verdict == Elsewhere then 0 else 1)
    && (Has(more, Unparsed) <==> Has(judged, Unparsed) || j.verdict == Unparsed)
    && (Has(more, Unmapped) <==> Has(judged, Unmapped) || j.verdict == Unmapped)
    && (Has(more, Conflicting) <==> Has(judged, Conflicting) || j.verdict == Conflicting)
  }

  lemma {:induction false} JudgedStep(judged: seq<Judged>, j: Judged)
    ensures Adds(judged + [j], judged, j)
  {
  }

  lemma {:induction false} HasWithin(judged: seq<Judged>, i: nat)
    requires i < |judged|
    ensures Has(judged, judged[i].verdict)
  {
  }

  lemma {:induction false} EvidenceKeepsTurns(rows: seq<Evidence>, changes: seq<Change>)
    ensures Turns(AllEvidenceAfter(rows, changes)) == Turns(rows)
  {
    forall i | 0 <= i < |rows| ensures EvidenceAfter(rows[i], changes).turn == rows[i].turn {
      EvidenceKeeps(rows[i], changes);
    }
  }

  lemma {:induction false} EvidenceKeeps(e: Evidence, changes: seq<Change>)
    ensures EvidenceAfter(e, changes) == e.(occurredAt := EvidenceAfter(e, changes).occurredAt)
  {
    if changes != [] {
      EvidenceKeeps(e, changes[..|changes| - 1]);
    }
  }

  lemma {:induction false} AssertionsKeepIds(rows: seq<Assertion>, changes: seq<Change>)
    ensures AssertionIds(AllAssertionsAfter(rows, changes)) == AssertionIds(rows)
  {
    forall i | 0 <= i < |rows| ensures AssertionAfter(rows[i], changes).id == rows[i].id {
      AssertionKeeps(rows[i], changes);
    }
  }

  /** A write changes the time and the backup of an assertion only, and never a backup that is there. */
  lemma {:induction false} AssertionKeeps(a: Assertion, changes: seq<Change>)
    ensures var after := AssertionAfter(a, changes);
            && after == a.(validAt := after.validAt, original := after.original)
            && (a.original != Missing ==> after.original == a.original)
  {
    if changes != [] {
      AssertionKeeps(a, changes[..|changes| - 1]);
    }
  }

  // ----- which nodes a write reaches ---------------------------------------------------------

  lemma {:induction false} CarriersSome(ids: seq<string>, i: nat)
    requires i < |ids|
    ensures Carriers(ids, ids[i]) >= 1
  {
    var n := |ids| - 1;
    if i < n {
      assert ids[..n][i] == ids[i];
      CarriersSome(ids[..n], i);
    }
  }

  lemma {:induction false} CarriersTwice(ids: seq<string>, i: nat, j: nat)
    requires i < j < |ids| && ids[i] == ids[j]
    ensures Carriers(ids, ids[i]) >= 2
  {
    var n := |ids| - 1;
    assert ids[..n][i] == ids[i];
    if j < n {
      assert ids[..n][j] == ids[j];
      CarriersTwice(ids[..n], i, j);
    } else {
      CarriersSome(ids[..n], i);
    }
  }

  /** When every change is carried at least once, the count agrees iff none is carried twice. */
  lemma {:induction false} MatchedExact(ids: seq<string>, changes: seq<Change>)
    requires forall c :: 0 <= c < |changes| ==> Carriers(ids, changes[c].id) >= 1
    ensures Matched(ids, changes) >= |changes|
    ensures Matched(ids, changes) == |changes| <==> CarriedOnce(ids, changes)
  {
    if changes != [] {
      var init := changes[..|changes| - 1];
      assert forall c :: 0 <= c < |init| ==> init[c] == changes[c];
      MatchedExact(ids, init);
    }
  }

  function Ids(judged: seq<Judged>): seq<string> {
    seq(|judged|, i requires 0 <= i < |judged| => judged[i].id)
  }

  function ChangeIds(changes: seq<Change>): seq<string> {
    seq(|changes|, i requires 0 <= i < |changes| => changes[i].id)
  }

  /** Every change comes from a row judged to need it. */
  lemma {:induction false} ChangeOrigin(judged: seq<Judged>, c: nat) returns (i: nat)
    requires c < |Changes(judged)|
    ensures i < |judged| && judged[i] == Judged(Changes(judged)[c].id, Update(Changes(judged)[c].target))
  {
    var n := |judged| - 1;
    if c < |Changes(judged[..n])| {
      i := ChangeOrigin(judged[..n], c);
    } else {
      i := n;
    }
  }

  lemma {:induction false} UpdateIsChange(judged: seq<Judged>, i: nat) returns (c: nat)
    requires i < |judged| && judged[i].verdict.Update?
    ensures c < |Changes(judged)| && Changes(judged)[c] == Change(judged[i].id, judged[i].verdict.target)
  {
    var n := |judged| - 1;
    if i < n {
      c := UpdateIsChange(judged[..n], i);
    } else {
      c := |Changes(judged[..n])|;
    }
  }

  lemma {:induction false} CarriersSnoc(ids: seq<string>, last: string, id: string)
    ensures Carriers(ids + [last], id) == Carriers(ids, id) + if last == id then 1 else 0
  {
    assert (ids + [last])[..|ids|] == ids;
  }

  lemma {:induction false} ChangeCarriers(judged: seq<Judged>, id: string)
    ensures Carriers(ChangeIds(Changes(judged)), id) <= Carriers(Ids(judged), id)
  {
    if judged != [] {
      var init, last := judged[..|judged| - 1], judged[|judged| - 1];
      ChangeCarriers(init, id);
      CarriersSnoc(Ids(init), last.id, id);
      assert Ids(judged) == Ids(init) + [last.id];
      if last.verdict.Update? {
        CarriersSnoc(ChangeIds(Changes(init)), last.id, id);
        assert ChangeIds(Changes(judged)) == ChangeIds(Changes(init)) + [last.id];
      } else {
        assert Changes(judged) == Changes(init);
      }
    }
  }

  lemma {:induction false} PlannedAreCarried(judged: seq<Judged>)
    ensures forall c :: 0 <= c < |Changes(judged)| ==> Carriers(Ids(judged), Changes(judged)[c].id) >= 1
  {
    forall c | 0 <= c < |Changes(judged)| ensures Carriers(Ids(judged), Changes(judged)[c].id) >= 1 {
      var i := ChangeOrigin(judged, c);
      assert Ids(judged)[i] == judged[i].id;
      CarriersSome(Ids(judged), i);
    }
  }

  /** With every planned id carried once, a row that needs a change meets exactly one, and any other none. */
  lemma {:induction false} ReachedOnce(judged: seq<Judged>, i: nat)
    requires CarriedOnce(Ids(judged), Changes(judged)) && i < |judged|
    ensures judged[i].verdict.Update? ==>
      && Change(judged[i].id, judged[i].verdict.target) in Changes(judged)
      && Carriers(ChangeIds(Changes(judged)), judged[i].id) == 1
    ensures !judged[i].verdict.Update? ==> Carriers(ChangeIds(Changes(judged)), judged[i].id) == 0
  {
    var changes, ids := Changes(judged), Ids(judged);
    assert ids[i] == judged[i].id;
    if judged[i].verdict.Update? {
      var c := UpdateIsChange(judged, i);
      ChangeCarriers(judged, judged[i].id);
      CarriersSome(ChangeIds(changes), c);
    } else if Carriers(ChangeIds(changes), judged[i].id) != 0 {
      var c := SomeCarrier(ChangeIds(changes), judged[i].id);
      var j := ChangeOrigin(judged, c);
      assert ids[j] == judged[j].id && j != i;
      CarriersTwice(ids, if i < j then i else j, if i < j then j else i);
    }
  }

  lemma {:induction false} SomeCarrier(ids: seq<string>, id: string) returns (k: nat)
    requires Carriers(ids, id) != 0
    ensures k < |ids| && ids[k] == id
  {
    if ids[|ids| - 1] == id {
      k := |ids| - 1;
    } else {
      k := SomeCarrier(ids[..|ids| - 1], id);
    }
  }

  lemma {:induction false} EvidenceUntouched(e: Evidence, changes: seq<Change>)
    requires Carriers(ChangeIds(changes), e.turn) == 0
    ensures EvidenceAfter(e, changes) == e
  {
    if changes != [] {
      var init := changes[..|changes| - 1];
      assert ChangeIds(changes)[..|init|] == ChangeIds(init);
      EvidenceUntouched(e, init);
    }
  }

  lemma {:induction false} EvidenceTouchedOnce(e: Evidence, changes: seq<Change>, c: Change)
    requires Carriers(ChangeIds(changes), e.turn) == 1 && c in changes && c.id == e.turn
    ensures EvidenceAfter(e, changes) == SetTime(e, c)
  {
    var init, last := changes[..|changes| - 1], changes[|changes| - 1];
    assert ChangeIds(changes)[..|init|] == ChangeIds(init);
    if last.id == e.turn {
      EvidenceUntouched(e, init);
      if c != last {
        var k :| 0 <= k < |init| && init[k] == c;
        CarriersSome(ChangeIds(init), k);
      }
    } else {
      EvidenceKeeps(e, init);
      EvidenceTouchedOnce(e, init, c);
    }
  }

  lemma {:induction false} AssertionUntouched(a: Assertion, changes: seq<Change>)
    requires Carriers(ChangeIds(changes), a.id) == 0
    ensures AssertionAfter(a, changes) == a
  {
    if changes != [] {
      var init := changes[..|changes| - 1];
      assert ChangeIds(changes)[..|init|] == ChangeIds(init);
      AssertionUntouched(a, init);
    }
  }

  lemma {:induction false} AssertionTouchedOnce(a: Assertion, changes: seq<Change>, c: Change)
    requires Carriers(ChangeIds(changes), a.id) == 1 && c in changes && c.id == a.id
    ensures AssertionAfter(a, changes) == SetValid(a, c)
  {
    var init, last := changes[..|changes| - 1], changes[|changes| - 1];
    assert ChangeIds(changes)[..|init|] == ChangeIds(init);
    if last.id == a.id {
      AssertionUntouched(a, init);
      if c != last {
        var k :| 0 <= k < |init| && init[k] == c;
        CarriersSome(ChangeIds(init), k);
      }
    } else {
      AssertionKeeps(a, init);
      AssertionTouchedOnce(a, init, c);
    }
  }

  // ----- the plan splits, and re-planning finds nothing to do --------------------------------

  /** Updates and already correct rows make up the listed rows, when none was refused. */
  lemma {:induction false} Splits(judged: seq<Judged>)
    requires !Has(judged, Unparsed) && !Has(judged, Unmapped) && !Has(judged, Conflicting)
    ensures |Changes(judged)| + CountCorrect(judged) == CountListed(judged)
  {
    if judged != [] {
      var n := |judged| - 1;
      assert judged == judged[..n] + [judged[n]];
      JudgedStep(judged[..n], judged[n]);
      Splits(judged[..n]);
      HasWithin(judged, n);
    }
  }

  lemma {:induction false} PlanSplits(times: Times, prefix: string, evidence: seq<Evidence>, assertions: seq<Assertion>)
    requires PlanOf(times, prefix, evidence, assertions).Ok?
    ensures var plan := PlanOf(times, prefix, evidence, assertions).value;
            && |plan.evidence| + plan.evidenceCorrect == plan.evidenceTotal > 0
            && |plan.assertions| + plan.assertionsCorrect == plan.assertionTotal
  {
    Splits(JudgeEvidence(times, prefix, evidence));
    Splits(JudgeAssertions(TargetByTurn(times, prefix, evidence), prefix, assertions));
  }

  function Settled(verdict: Verdict): Verdict {
    if verdict.Update? then Correct else verdict
  }

  ghost predicate SettledFrom(after: seq<Judged>, judged: seq<Judged>) {
    |after| == |judged| && forall i :: 0 <= i < |judged| ==> after[i].verdict == Settled(judged[i].verdict)
  }

  lemma {:induction false} SettledCounts(after: seq<Judged>, judged: seq<Judged>)
    requires SettledFrom(after, judged)
    requires !Has(judged, Unparsed) && !Has(judged, Unmapped) && !Has(judged, Conflicting)
    ensures Changes(after) == [] && CountListed(after) == CountCorrect(after) == CountListed(judged)
    ensures !Has(after, Unparsed) && !Has(after, Unmapped) && !Has(after, Conflicting)
  {
    if judged != [] {
      var n := |judged| - 1;
      assert judged == judged[..n] + [judged[n]] && after == after[..n] + [after[n]];
      JudgedStep(judged[..n], judged[n]);
      JudgedStep(after[..n], after[n]);
      HasWithin(judged, n);
      SettledCounts(after[..n], judged[..n]);
    }
  }

  lemma {:induction false} EvidenceSettles(times: Times, prefix: string, rows: seq<Evidence>)
    requires CarriedOnce(Turns(rows), Changes(JudgeEvidence(times, prefix, rows)))
    ensures var judged := JudgeEvidence(times, prefix, rows);
            var after := AllEvidenceAfter(rows, Changes(judged));
            && SettledFrom(JudgeEvidence(times, prefix, after), judged)
            && TargetByTurn(times, prefix, after) == TargetByTurn(times, prefix, rows)
            && forall i :: 0 <= i < |rows| && rows[i].occurredAt != Missing ==> after[i] == rows[i]
  {
    var judged := JudgeEvidence(times, prefix, rows);
    var changes := Changes(judged);
    assert Ids(judged) == Turns(rows);
    forall i | 0 <= i < |rows|
      ensures EvidenceVerdict(times, prefix, EvidenceAfter(rows[i], changes)) == Settled(judged[i].verdict)
      ensures rows[i].occurredAt != Missing ==> EvidenceAfter(rows[i], changes) == rows[i]
    {
      ReachedOnce(judged, i);
      if judged[i].verdict.Update? {
        EvidenceTouchedOnce(rows[i], changes, Change(rows[i].turn, judged[i].verdict.target));
      } else {
        EvidenceUntouched(rows[i], changes);
      }
    }
    SameTargets(times, prefix, rows, changes);
  }

  lemma {:induction false} SameTargets(times: Times, prefix: string, rows: seq<Evidence>, changes: seq<Change>)
    ensures TargetByTurn(times, prefix, AllEvidenceAfter(rows, changes)) == TargetByTurn(times, prefix, rows)
  {
    if rows != [] {
      var n := |rows| - 1;
      SameTargets(times, prefix, rows[..n], changes);
      assert AllEvidenceAfter(rows, changes)[..n] == AllEvidenceAfter(rows[..n], changes);
      EvidenceKeeps(rows[n], changes);
    }
  }

  /** The backup of an updated assertion is its old value, unless there already was a backup. */
  lemma {:induction false} AssertionsSettle(targets: map<string, int>, prefix: string, rows: seq<Assertion>)
    requires CarriedOnce(AssertionIds(rows), Changes(JudgeAssertions(targets, prefix, rows)))
    ensures var judged := JudgeAssertions(targets, prefix, rows);
            var after := AllAssertionsAfter(rows, Changes(judged));
            && SettledFrom(JudgeAssertions(targets, prefix, after), judged)
            && RebuildTargets(targets, prefix, after, |rows|) == RebuildTargets(targets, prefix, rows, |rows|)
            && forall i :: 0 <= i < |rows| ==>
                 after[i].original == if judged[i].verdict.Update? && rows[i].original == Missing
                                      then rows[i].validAt else rows[i].original
  {
    var judged := JudgeAssertions(targets, prefix, rows);
    var changes := Changes(judged);
    assert Ids(judged) == AssertionIds(rows);
    var after := AllAssertionsAfter(rows, changes);
    forall i | 0 <= i < |rows|
      ensures AssertionVerdict(targets, prefix, after[i]) == Settled(judged[i].verdict)
      ensures after[i].original == if judged[i].verdict.Update? && rows[i].original == Missing
                                   then rows[i].validAt else rows[i].original
      ensures after[i] == rows[i].(validAt := after[i].validAt, original := after[i].original)
    {
      AssertionKeeps(rows[i], changes);
      ReachedOnce(judged, i);
      if judged[i].verdict.Update? {
        AssertionTouchedOnce(rows[i], changes, Change(rows[i].id, judged[i].verdict.target));
      } else {
        AssertionUntouched(rows[i], changes);
      }
    }
    SameRebuild(targets, prefix, after, rows, |rows|);
  }

  lemma {:induction false} SameRebuild(targets: map<string, int>, prefix: string, after: seq<Assertion>,
                                       rows: seq<Assertion>, n: nat)
    requires |after| == |rows| && n <= |rows|
    requires forall i :: 0 <= i < |rows| ==>
      && after[i] == rows[i].(validAt := after[i].validAt, original := after[i].original)
      && AssertionVerdict(targets, prefix, after[i]) == Settled(AssertionVerdict(targets, prefix, rows[i]))
    ensures RebuildTargets(targets, prefix, after, n) == RebuildTargets(targets, prefix, rows, n)
  {
    if n > 0 {
      SameRebuild(targets, prefix, after, rows, n - 1);
    }
  }

  lemma {:induction false} UnionMeaning<T>(sets: seq<set<T>>, n: nat, x: T)
    requires n <= |sets|
    ensures x in Union(sets, n) <==> exists i :: 0 <= i < n && x in sets[i]
  {
    if n > 0 {
      UnionMeaning(sets, n - 1, x);
    }
  }

  /** Which subjects are rebuilt. */
  lemma {:induction false} RebuildMeaning(targets: map<string, int>, prefix: string, rows: seq<Assertion>, n: nat,
                                          subject: (string, string))
    requires n <= |rows|
    ensures subject in RebuildTargets(targets, prefix, rows, n) <==>
              exists i :: 0 <= i < n && Single(AssertionVerdict(targets, prefix, rows[i])) && Rebuildable(rows[i])
                          && subject == (rows[i].subject, rows[i].namespace)
  {
    var sets := RebuiltSets(targets, prefix, rows);
    UnionMeaning(sets, n, subject);
    if i :| 0 <= i < n && subject in sets[i] {
      assert subject in Rebuilt(AssertionVerdict(targets, prefix, rows[i]), rows[i]);
    } else {
      forall i | 0 <= i < n ensures subject !in Rebuilt(AssertionVerdict(targets, prefix, rows[i]), rows[i]) {
        assert subject !in sets[i];
      }
    }
  }

  /** The write's counts agree with the plan iff every planned id is carried by one node of the whole graph,
      inside or outside the prefix: no uniqueness of ids is assumed. */
  lemma {:induction false} AcceptedIffCarriedOnce(times: Times, prefix: string, evidence: seq<Evidence>, assertions: seq<Assertion>)
    requires PlanOf(times, prefix, evidence, assertions).Ok?
    ensures var plan := PlanOf(times, prefix, evidence, assertions).value;
            && (Matched(Turns(evidence), plan.evidence) == |plan.evidence| <==> CarriedOnce(Turns(evidence), plan.evidence))
            && (Matched(AssertionIds(assertions), plan.assertions) == |plan.assertions|
                <==> CarriedOnce(AssertionIds(assertions), plan.assertions))
  {
    var es := JudgeEvidence(times, prefix, evidence);
    var js := JudgeAssertions(TargetByTurn(times, prefix, evidence), prefix, assertions);
    assert Ids(es) == Turns(evidence) && Ids(js) == AssertionIds(assertions);
    PlannedAreCarried(es);
    PlannedAreCarried(js);
    MatchedExact(Turns(evidence), Changes(es));
    MatchedExact(AssertionIds(assertions), Changes(js));
  }

  /** After an accepted write, planning again on the same fixture succeeds with nothing to update, the same
      totals and the same rebuild targets, and no time that was there has been overwritten. */
  lemma {:induction false} ReplanIsSettled(times: Times, prefix: string, evidence: seq<Evidence>, assertions: seq<Assertion>)
    requires PlanOf(times, prefix, evidence, assertions).Ok?
    requires var plan := PlanOf(times, prefix, evidence, assertions).value;
             && Matched(Turns(evidence), plan.evidence) == |plan.evidence|
             && Matched(AssertionIds(assertions), plan.assertions) == |plan.assertions|
    ensures var plan := PlanOf(times, prefix, evidence, assertions).value;
            var after := AllEvidenceAfter(evidence, plan.evidence);
            && PlanOf(times, prefix, after, AllAssertionsAfter(assertions, plan.assertions)) == Ok(SettledPlan(plan))
            && forall i :: 0 <= i < |evidence| && evidence[i].occurredAt != Missing ==> after[i] == evidence[i]
  {
    AcceptedIffCarriedOnce(times, prefix, evidence, assertions);
    var targets := TargetByTurn(times, prefix, evidence);
    var es, js := JudgeEvidence(times, prefix, evidence), JudgeAssertions(targets, prefix, assertions);
    EvidenceSettles(times, prefix, evidence);
    AssertionsSettle(targets, prefix, assertions);
    SettledCounts(JudgeEvidence(times, prefix, AllEvidenceAfter(evidence, Changes(es))), es);
    SettledCounts(JudgeAssertions(targets, prefix, AllAssertionsAfter(assertions, Changes(js))), js);
  }

  // ----- what a write loses ------------------------------------------------------------------

  /** The target of the last change with this id: the one that stays. */
  function LastTarget(changes: seq<Change>, id: string): Option<int> {
    if changes == [] then None
    else
      var last := changes[|changes| - 1];
      if last.id == id then Some(last.target) else LastTarget(changes[..|changes| - 1], id)
  }

  lemma {:induction false} LastTargetStays(e: Evidence, changes: seq<Change>)
    ensures EvidenceAfter(e, changes) == match LastTarget(changes, e.turn)
                                         case None => e
                                         case Some(target) => e.(occurredAt := At(target))
  {
    if changes != [] {
      LastTargetStays(e, changes[..|changes| - 1]);
    }
  }

  /** No planned id is carried by a node with another stored time. A caller can read it off before the write. */
  ghost predicate NoTimeAtRisk(evidence: seq<Evidence>, changes: seq<Change>) {
    forall i :: 0 <= i < |evidence| && evidence[i].occurredAt != Missing && LastTarget(changes, evidence[i].turn).Some? ==>
      evidence[i].occurredAt == At(LastTarget(changes, evidence[i].turn).value)
  }

  ghost predicate StoredTimesKept(evidence: seq<Evidence>, changes: seq<Change>) {
    forall i :: 0 <= i < |evidence| && evidence[i].occurredAt != Missing ==>
      AllEvidenceAfter(evidence, changes)[i] == evidence[i]
  }

  /** Exactly when the write overwrites no stored time, whether it is accepted afterwards or not: every node with
      a stored time that carries a planned turn id already holds the time planned last for that id. */
  lemma {:induction false} StoredTimesKeptIff(evidence: seq<Evidence>, changes: seq<Change>)
    ensures StoredTimesKept(evidence, changes) <==> NoTimeAtRisk(evidence, changes)
  {
    forall i | 0 <= i < |evidence|
      ensures AllEvidenceAfter(evidence, changes)[i] == evidence[i] <==>
                (LastTarget(changes, evidence[i].turn).Some? ==>
                   evidence[i].occurredAt == At(LastTarget(changes, evidence[i].turn).value))
    {
      LastTargetStays(evidence[i], changes);
    }
  }

  lemma {:induction false} EvidenceWriteShows(times: Times, prefix: string, rows: seq<Evidence>)
    ensures var changes := Changes(JudgeEvidence(times, prefix, rows));
            AllEvidenceAfter(rows, changes) == rows <==> changes == []
  {
    var changes := Changes(JudgeEvidence(times, prefix, rows));
    if changes == [] {
      assert AllEvidenceAfter(rows, changes) == rows;
    } else {
      var i := ChangeOrigin(JudgeEvidence(times, prefix, rows), |changes| - 1);
      LastTargetStays(rows[i], changes);
      assert AllEvidenceAfter(rows, changes)[i] != rows[i];
    }
  }

  lemma {:induction false} AssertionWriteShows(targets: map<string, int>, prefix: string, rows: seq<Assertion>)
    ensures var changes := Changes(JudgeAssertions(targets, prefix, rows));
            AllAssertionsAfter(rows, changes) == rows <==> changes == []
  {
    var changes := Changes(JudgeAssertions(targets, prefix, rows));
    if changes == [] {
      assert AllAssertionsAfter(rows, changes) == rows;
    } else {
      var i := ChangeOrigin(JudgeAssertions(targets, prefix, rows), |changes| - 1);
      LastAssertionChange(rows[i], changes);
      assert AllAssertionsAfter(rows, changes)[i] != rows[i];
    }
  }

  /** Planned changes always show in the graph, so a refusal on a count leaves a changed graph behind. */
  lemma {:induction false} RefusalLeavesChanges(times: Times, prefix: string, evidence: seq<Evidence>, assertions: seq<Assertion>)
    requires PlanOf(times, prefix, evidence, assertions).Ok?
    ensures var plan := PlanOf(times, prefix, evidence, assertions).value;
            && (Matched(Turns(evidence), plan.evidence) != |plan.evidence| ==>
                  AllEvidenceAfter(evidence, plan.evidence) != evidence)
            && (Matched(AssertionIds(assertions), plan.assertions) != |plan.assertions| ==>
                  AllAssertionsAfter(assertions, plan.assertions) != assertions)
  {
    EvidenceWriteShows(times, prefix, evidence);
    AssertionWriteShows(TargetByTurn(times, prefix, evidence), prefix, assertions);
  }

  lemma {:induction false} LastAssertionChange(a: Assertion, changes: seq<Change>)
    requires changes != [] && changes[|changes| - 1].id == a.id
    ensures AssertionAfter(a, changes).validAt == At(changes[|changes| - 1].target)
  {
    AssertionKeeps(a, changes[..|changes| - 1]);
  }

  /** The counts are checked after the write: a node outside the prefix that carries a planned turn id
      loses its time although the repair is refused. */
  lemma {:induction false} TwinIsOverwritten()
    ensures var evidence := [Evidence("t", "lme-q", "s", Missing), Evidence("t", "other", "s", At(7))];
            var times := map[("lme-q", "s") := 3];
            var plan := PlanOf(times, "lme-", evidence, []);
            && plan.Ok? && Matched(Turns(evidence), plan.value.evidence) != |plan.value.evidence|
            && AllEvidenceAfter(evidence, plan.value.evidence)[1].occurredAt == At(3)
            && !NoTimeAtRisk(evidence, plan.value.evidence)
  {
    var evidence := [Evidence("t", "lme-q", "s", Missing), Evidence("t", "other", "s", At(7))];
    var times := map[("lme-q", "s") := 3];
    var es := JudgeEvidence(times, "lme-", evidence);
    assert "lme-q"[..4] == "lme-" && "other"[0] != "lme-"[0];
    assert es == [Judged("t", Update(3)), Judged("t", Elsewhere)];
    JudgedStep([], Judged("t", Update(3)));
    JudgedStep([] + [Judged("t", Update(3))], Judged("t", Elsewhere));
    assert es == [] + [Judged("t", Update(3))] + [Judged("t", Elsewhere)];
    assert Changes(es) == [Change("t", 3)];
    assert Turns(evidence) == ["t", "t"];
    CarriersTwice(Turns(evidence), 0, 1);
    assert Changes(es)[..0] == [];
  }
}
