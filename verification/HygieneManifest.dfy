/** Candidates, review and validation of a recall-hygiene manifest, and what a validated manifest may rely on
    when it is applied (scripts/migrate_flagged_bootstrap_scope_candidates.py 76-107,
    scripts/migrate_flagged_bootstrap_scope_manifest.py 46-164, src/menhir/domain/structural_memory.py 11-103).
    Case folding and white space are those of ASCII. */
module HygieneManifest {
  import opened Common
  import opened HygieneMigration
  import opened HygieneVerification

  const UNREVIEWED := "UNREVIEWED"

  const STRUCTURE_ROLES: set<string> :=
    {"project", "directory", "file", "entrypoint", "config", "test", "dependency", "endpoint", "document"}

  // ----- strings -----------------------------------------------------------------------------

  function Lower(s: string): (r: string)
    ensures |r| == |s|
  {
    seq(|s|, i requires 0 <= i < |s| => if 'A' <= s[i] <= 'Z' then s[i] - 'A' + 'a' else s[i])
  }

  function Strip(s: string): string {
    if s != "" && s[0] in WHITE then Strip(s[1..])
    else if s != "" && s[|s| - 1] in WHITE then Strip(s[..|s| - 1])
    else s
  }

  predicate Contains(s: string, part: string) {
    exists i :: 0 <= i <= |s| && part <= s[i..]
  }

  function OrEmpty(s: Option<string>): string {
    if s.Some? then s.value else ""
  }

  // ----- classification ----------------------------------------------------------------------

  /** `infer_legacy_structure_role` on a row of the candidate query, which returns no `sources` list. */
  function InferredRole(row: Live): Option<string> {
    if row.role.Some? then
      var role := Lower(Strip(row.role.value));
      if role == "" then None else Some(role)
    else if !Contains(Lower(OrEmpty(row.kept.source)), "project-scan") then None
    else
      var content := Lower(Strip(OrEmpty(row.kept.content)));
      if "directory:" <= content then Some("directory")
      else if "file:" <= content then Some("file")
      else if "project:" <= content then Some("project")
      else None
  }

  datatype Kind = LegacyStructure | StructuralCleanup | BootstrapScope | ScopedEntityCleanup | OtherKind(name: string)

  predicate Structural(kind: Kind) {
    kind.LegacyStructure? || kind.StructuralCleanup?
  }

  predicate Semantic(kind: Kind) {
    kind.BootstrapScope? || kind.ScopedEntityCleanup?
  }

  /** `_classify_candidate`; None where it raises. */
  function Classify(row: Live): Option<Kind> {
    if InferredRole(row).Some? then Some(if row.role.None? then LegacyStructure else StructuralCleanup)
    else if Truth(row.flagged) && row.scope.None? then Some(BootstrapScope)
    else if "Entity" in row.kept.labels && Truth(row.flagged) && row.scope.Some? then Some(ScopedEntityCleanup)
    else None
  }

  /** A manifest row: the live row as planned, its kind and fingerprint, and the three reviewed targets.
      `flagged` is None when the JSON value is neither true nor false. */
  datatype Candidate = Candidate(row: Live, kind: Kind, fingerprint: Fingerprint,
                                 role: Option<string>, flagged: Option<bool>, scope: Option<string>)

  /** `_manifest_candidate`. */
  function PlannedCandidate(row: Live, kind: Kind): Candidate {
    if Structural(kind) then Candidate(row, kind, FingerprintOf(row), Some(UNREVIEWED), Some(false), Some("none"))
    else Candidate(row, kind, FingerprintOf(row), None, Some(true), Some(UNREVIEWED))
  }

  // ----- validation --------------------------------------------------------------------------

  /** What `normalize_bootstrap_scope` makes of a target: a scope, no scope, or an error. */
  datatype Scope = Pin(scope: string) | NoPin | BadScope

  function RoleProblems(c: Candidate): nat {
    var role := Lower(Strip(OrEmpty(c.role)));
    if role == "" || role == Lower(UNREVIEWED) || role !in STRUCTURE_ROLES then 1 else 0
  }

  /** How many problems `_normalize_manifest_candidate` reports. */
  function Problems(c: Candidate, scopeOf: string -> Scope): nat {
    if Structural(c.kind) then
      RoleProblems(c)
      + (if c.flagged == Some(false) then 0 else 1)
      + (if c.scope.Some? && Lower(Strip(c.scope.value)) == "none" then 0 else 1)
    else if Semantic(c.kind) then
      (if c.role.None? then 0 else 1)
      + (if c.flagged == Some(true) then 0 else 1)
      + (if c.scope.None? || Lower(Strip(c.scope.value)) == Lower(UNREVIEWED) || scopeOf(c.scope.value).BadScope? then 1 else 0)
    else 1
  }

  /** The candidate as it is rewritten in place. */
  function Normalized(c: Candidate, scopeOf: string -> Scope): Candidate {
    if Structural(c.kind) then
      c.(role := if RoleProblems(c) == 0 then Some(Lower(Strip(OrEmpty(c.role)))) else c.role,
         scope := if c.scope.Some? && Lower(Strip(c.scope.value)) == "none" then None else c.scope)
    else if Semantic(c.kind) && c.scope.Some? && Lower(Strip(c.scope.value)) != Lower(UNREVIEWED) then
      match scopeOf(c.scope.value)
      case Pin(scope) => c.(scope := Some(scope))
      case NoPin => c.(scope := None)
      case BadScope => c
    else c
  }

  function CandidateUuids(cs: seq<Candidate>): seq<string> {
    seq(|cs|, i requires 0 <= i < |cs| => cs[i].row.uuid)
  }

  /** The candidates of a validated manifest: named, each once, and every review in order. */
  ghost predicate Valid(cs: seq<Candidate>, scopeOf: string -> Scope) {
    && (forall i :: 0 <= i < |cs| ==> cs[i].row.uuid != "" && Problems(cs[i], scopeOf) == 0)
    && (forall i, j :: 0 <= i < j < |cs| ==> cs[i].row.uuid != cs[j].row.uuid)
  }

  /** A manifest's candidates, rewritten in place by validation. */
  class Manifest {
    var candidates: seq<Candidate>

    constructor (candidates: seq<Candidate>)
      ensures this.candidates == candidates
    {
      this.candidates := candidates;
    }

    /** The candidate part of `validate_manifest`: no problem iff the reviewed manifest is valid. */
    method Validate(scopeOf: string -> Scope) returns (problems: nat)
      modifies this
      ensures problems == 0 <==> Valid(old(candidates), scopeOf)
      ensures |candidates| == |old(candidates)|
      ensures forall i :: 0 <= i < |candidates| ==> candidates[i] == Normalized(old(candidates)[i], scopeOf)
    {
      var uuids := CandidateUuids(candidates);
      DistinctUuids(uuids);
      var distinct := set uuid | uuid in uuids;
      problems := if "" in uuids || |distinct| != |uuids| then 1 else 0;
      ghost var named := problems == 0;
      assert forall i :: 0 <= i < |candidates| ==> uuids[i] == candidates[i].row.uuid;
      for i := 0 to |candidates|
        invariant |candidates| == |old(candidates)|
        invariant forall j :: 0 <= j < i ==> candidates[j] == Normalized(old(candidates)[j], scopeOf)
        invariant forall j :: i <= j < |candidates| ==> candidates[j] == old(candidates)[j]
        invariant problems == 0 <==> named && forall j :: 0 <= j < i ==> Problems(old(candidates)[j], scopeOf) == 0
      {
        problems := problems + Problems(candidates[i], scopeOf);
        candidates := candidates[i := Normalized(candidates[i], scopeOf)];
      }
    }
  }

  lemma {:induction false} DistinctUuids(ids: seq<string>)
    ensures |set id | id in ids| <= |ids|
    ensures |set id | id in ids| == |ids| <==> forall i, j :: 0 <= i < j < |ids| ==> ids[i] != ids[j]
  {
    if ids != [] {
      var rest, last := ids[..|ids| - 1], ids[|ids| - 1];
      DistinctUuids(rest);
      assert ids == rest + [last];
      assert (set id | id in ids) == (set id | id in rest) + {last};
      if last in rest {
        assert (set id | id in ids) == (set id | id in rest);
        var i :| 0 <= i < |rest| && rest[i] == last;
        assert ids[i] == ids[|rest|];
      }
    }
  }

  /** A freshly planned candidate never validates: somebody has to review it. */
  lemma {:induction false} PlannedNeedsReview(row: Live, kind: Kind, scopeOf: string -> Scope)
    requires Classify(row) == Some(kind)
    ensures Problems(PlannedCandidate(row, kind), scopeOf) > 0
  {
    assert Strip(UNREVIEWED) == UNREVIEWED;
  }

  // ----- what apply may rely on --------------------------------------------------------------

  /** The row that apply reads from a normalized candidate. */
  function RowOf(c: Candidate): Row {
    Row(c.row, c.fingerprint, c.flagged == Some(true), c.scope, c.role)
  }

  function RowsOf(cs: seq<Candidate>, scopeOf: string -> Scope): seq<Row> {
    seq(|cs|, i requires 0 <= i < |cs| => RowOf(Normalized(cs[i], scopeOf)))
  }

  /** Only the targets were edited: row, kind and fingerprint are still those of a plan. */
  ghost predicate OnlyReviewed(cs: seq<Candidate>) {
    forall i :: 0 <= i < |cs| ==> Classify(cs[i].row) == Some(cs[i].kind) && cs[i].fingerprint == FingerprintOf(cs[i].row)
  }

  /** A role that is set but blank. Such a row classifies as a semantic candidate. */
  predicate BlankRole(row: Live) {
    row.role.Some? && Lower(Strip(row.role.value)) == ""
  }

  lemma {:induction false} RowOfCandidate(c: Candidate, scopeOf: string -> Scope)
    requires Problems(c, scopeOf) == 0 && Classify(c.row) == Some(c.kind) && c.fingerprint == FingerprintOf(c.row)
    ensures var row := RowOf(Normalized(c, scopeOf));
            && row.planned == c.row && Unedited(row)
            && (row.targetRole.Some? <==> Structural(c.kind))
            && (row.targetFlagged <==> Semantic(c.kind))
            && (c.row.role.Some? && !BlankRole(c.row) ==> Structural(c.kind))
            && (BlankRole(c.row) ==> !Structural(c.kind))
  {
  }

  /** Apply clears a role iff a pending row's role is blank. */
  lemma {:induction false} RolesClearedIff(graph: Graph, cs: seq<Candidate>, scopeOf: string -> Scope)
    requires Valid(cs, scopeOf) && OnlyReviewed(cs) && Clean(graph, RowsOf(cs, scopeOf))
    ensures var rows := RowsOf(cs, scopeOf);
            && UniqueRows(rows) && (forall r :: r in rows ==> Unedited(r))
            && (NoRoleCleared(graph, rows) <==>
                  forall i :: 0 <= i < |cs| && Judge(graph, rows[i]) == Pending ==> !BlankRole(cs[i].row))
  {
    var rows := RowsOf(cs, scopeOf);
    forall i | 0 <= i < |cs|
      ensures rows[i].planned == cs[i].row && Unedited(rows[i])
      ensures rows[i].planned.uuid in graph
      ensures graph[rows[i].planned.uuid].role.Some? && rows[i].targetRole.None?
              <==> Judge(graph, rows[i]) == Pending && BlankRole(cs[i].row)
    {
      RowOfCandidate(cs[i], scopeOf);
      assert rows[i] in rows;
      assert Judge(graph, rows[i]) == Pending || Judge(graph, rows[i]) == Unchanged;
    }
    if NoRoleCleared(graph, rows) {
      forall i | 0 <= i < |cs| && Judge(graph, rows[i]) == Pending ensures !BlankRole(cs[i].row) {
        assert rows[i].planned.uuid in graph;
      }
    }
  }

  /** Which entities lose their role: those whose pending row was planned with a blank one. */
  lemma {:induction false} LosesRoleIff(graph: Graph, cs: seq<Candidate>, scopeOf: string -> Scope, a: string)
    requires Valid(cs, scopeOf) && OnlyReviewed(cs) && Clean(graph, RowsOf(cs, scopeOf)) && IsEntity(graph, a)
    ensures LosesRole(graph, RowsOf(cs, scopeOf), a) <==>
              exists i :: 0 <= i < |cs| && cs[i].row.uuid == a && BlankPending(graph, cs, scopeOf, i)
  {
    var rows := RowsOf(cs, scopeOf);
    forall i | 0 <= i < |cs| && cs[i].row.uuid == a
      ensures rows[i].planned.uuid == a
      ensures graph[a].role.Some? && rows[i].targetRole.None? <==> BlankPending(graph, cs, scopeOf, i)
    {
      RowOfCandidate(cs[i], scopeOf);
      assert rows[i] in rows;
      assert Judge(graph, rows[i]) == Pending || Judge(graph, rows[i]) == Unchanged;
    }
    if LosesRole(graph, rows, a) {
      var i :| 0 <= i < |rows| && rows[i].planned.uuid == a && rows[i].targetRole.None?;
      assert rows[i].planned == cs[i].row by { RowOfCandidate(cs[i], scopeOf); }
    }
  }

  ghost predicate BlankPending(graph: Graph, cs: seq<Candidate>, scopeOf: string -> Scope, i: nat)
    requires i < |cs|
  {
    BlankRole(cs[i].row) && Judge(graph, RowsOf(cs, scopeOf)[i]) == Pending
  }

  /** From review to verification: a validated manifest in which only targets were edited, applied to a graph
      without drift, settles iff for every row and both columns what is read through the anchors that become
      structural is what is read through those that lose a blank role; then a second apply writes nothing. */
  lemma {:induction false} ReviewedManifestSettlesIff(graph: Graph, cs: seq<Candidate>, scopeOf: string -> Scope)
    requires Valid(cs, scopeOf) && OnlyReviewed(cs) && Clean(graph, RowsOf(cs, scopeOf))
    ensures var rows := RowsOf(cs, scopeOf);
            var after := AfterApply(graph, rows);
            && (Settled(after, rows) <==> AllEven(graph, rows))
            && (Settled(after, rows) ==> AfterApply(after, rows) == after)
  {
    RolesClearedIff(graph, cs, scopeOf);
    ApplySettlesIff(graph, RowsOf(cs, scopeOf));
  }

  ghost predicate NoAnchorBecomesStructural(graph: Graph, rows: seq<Row>) {
    forall i, a :: 0 <= i < |rows| && rows[i].planned.uuid in graph && a in graph[rows[i].planned.uuid].anchors ==>
      !BecomesStructural(graph, rows, a)
  }

  /** Without blank roles it settles iff no row is anchored to an entity that it turns structural. */
  lemma {:induction false} SettlesWithoutBlankRoles(graph: Graph, cs: seq<Candidate>, scopeOf: string -> Scope)
    requires Valid(cs, scopeOf) && OnlyReviewed(cs) && Clean(graph, RowsOf(cs, scopeOf))
    requires forall i :: 0 <= i < |cs| ==> !BlankRole(cs[i].row)
    ensures var rows := RowsOf(cs, scopeOf);
            Settled(AfterApply(graph, rows), rows) <==> NoAnchorBecomesStructural(graph, rows)
  {
    var rows := RowsOf(cs, scopeOf);
    RolesClearedIff(graph, cs, scopeOf);
    forall i | 0 <= i < |rows|
      ensures rows[i].planned.uuid in graph && rows[i] in rows
      ensures Judge(AfterApply(graph, rows), rows[i]) == Unchanged <==>
                forall a :: a in graph[rows[i].planned.uuid].anchors ==> !BecomesStructural(graph, rows, a)
    {
      assert rows[i] in rows;
      SettlesIffNoAnchorBecomesStructural(graph, rows, i);
    }
  }
}
