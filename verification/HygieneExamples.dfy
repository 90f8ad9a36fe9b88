/** Two validated manifests, clean against their graphs, that do not settle. */
module HygieneExamples {
  import opened Common
  import opened HygieneMigration
  import opened HygieneVerification
  import opened HygieneManifest

  // ----- a blank role -------------------------------------------------------------------------

  const BLANK := Preserved(multiset{"Entity"}, None, None, None, None, None)

  /** A flagged entity "h" with a blank role, and a flagged note "n" anchored to it. */
  const BLANK_ROLE: Graph :=
    map["h" := Node(BLANK, Some(true), None, Some(""), "p", "d", []),
        "n" := Node(BLANK, Some(true), None, None, "", "", ["h"])]

  /** A pin in its normal form, such as `general`. */
  predicate AcceptedPin(scope: string, scopeOf: string -> Scope) {
    0 < |scope| < |UNREVIEWED| && scope[0] !in WHITE && scope[|scope| - 1] !in WHITE && scopeOf(scope) == Pin(scope)
  }

  function PinCandidate(row: Live, scope: string): Candidate {
    Candidate(row, BootstrapScope, FingerprintOf(row), None, Some(true), Some(scope))
  }

  /** Both rows keep their flag and get a pin. */
  function HubAndNote(scope: string): seq<Candidate> {
    [PinCandidate(LiveRow(BLANK_ROLE, "h"), scope), PinCandidate(LiveRow(BLANK_ROLE, "n"), scope)]
  }

  /** A candidate as planned, reviewed and pending on the graph. */
  ghost predicate Ready(graph: Graph, c: Candidate, scopeOf: string -> Scope) {
    && c.row.uuid != "" && Problems(c, scopeOf) == 0
    && Classify(c.row) == Some(c.kind) && c.fingerprint == FingerprintOf(c.row)
    && Judge(graph, RowOf(Normalized(c, scopeOf))) == Pending
  }

  lemma {:induction false} TwoReady(graph: Graph, c: Candidate, d: Candidate, scopeOf: string -> Scope)
    requires Ready(graph, c, scopeOf) && Ready(graph, d, scopeOf) && c.row.uuid != d.row.uuid
    ensures Valid([c, d], scopeOf) && OnlyReviewed([c, d])
    ensures RowsOf([c, d], scopeOf) == [RowOf(Normalized(c, scopeOf)), RowOf(Normalized(d, scopeOf))]
    ensures Clean(graph, RowsOf([c, d], scopeOf))
  {
    var rows := RowsOf([c, d], scopeOf);
    assert forall r :: r in rows <==> r == rows[0] || r == rows[1];
  }

  /** A flagged, unscoped entity that is to get a pin validates and is pending. */
  lemma {:induction false} PinIsReady(graph: Graph, uuid: string, scope: string, scopeOf: string -> Scope)
    requires uuid in graph && uuid != "" && AcceptedPin(scope, scopeOf)
    requires var n := graph[uuid];
             n.flagged == Some(true) && n.scope.None? && n.kept == BLANK && (n.role.None? || n.role.value == "")
    ensures var c := PinCandidate(LiveRow(graph, uuid), scope);
            && Ready(graph, c, scopeOf) && c.row.uuid == uuid
            && RowOf(Normalized(c, scopeOf)).planned.uuid == uuid && RowOf(Normalized(c, scopeOf)).targetRole == None
  {
  }

  /** A blank role is cleared although no target names a role. No anchor becomes structural, and yet the note
      drifts: its anchor was read through the role that is gone. */
  lemma {:induction false} BlankRoleIsCleared(scope: string, scopeOf: string -> Scope)
    requires AcceptedPin(scope, scopeOf)
    ensures var rows := RowsOf(HubAndNote(scope), scopeOf);
            && Valid(HubAndNote(scope), scopeOf) && OnlyReviewed(HubAndNote(scope)) && Clean(BLANK_ROLE, rows)
            && NoAnchorBecomesStructural(BLANK_ROLE, rows) && !Settled(AfterApply(BLANK_ROLE, rows), rows)
  {
    var rows := RowsOf(HubAndNote(scope), scopeOf);
    PinIsReady(BLANK_ROLE, "h", scope, scopeOf);
    PinIsReady(BLANK_ROLE, "n", scope, scopeOf);
    TwoReady(BLANK_ROLE, HubAndNote(scope)[0], HubAndNote(scope)[1], scopeOf);
    ReviewedManifestSettlesIff(BLANK_ROLE, HubAndNote(scope), scopeOf);
    HubIsLost(rows);
    NothingBecomesStructural(BLANK_ROLE, rows);
  }

  lemma {:induction false} NothingBecomesStructural(graph: Graph, rows: seq<Row>)
    requires forall i :: 0 <= i < |rows| ==> rows[i].targetRole.None?
    ensures NoAnchorBecomesStructural(graph, rows)
  {
  }

  /** The hub loses its role and nothing becomes structural, so the note's anchors are not even. */
  lemma {:induction false} HubIsLost(rows: seq<Row>)
    requires |rows| == 2 && rows[0].planned.uuid == "h" && rows[1].planned.uuid == "n"
    requires rows[0].targetRole == rows[1].targetRole == None
    ensures !AllEven(BLANK_ROLE, rows)
  {
    var anchors := BLANK_ROLE["n"].anchors;
    assert "h" != "n" && anchors == ["h"] && anchors[..0] == [];
    assert LosesRole(BLANK_ROLE, rows, "h") && !BecomesStructural(BLANK_ROLE, rows, "h");
    assert Gained(BLANK_ROLE, rows, anchors, Project) == multiset{};
    assert "p" in Lost(BLANK_ROLE, rows, anchors, Project);
    assert !Even(BLANK_ROLE, rows, rows[1]);
  }

  // ----- a note anchored to a legacy file row -------------------------------------------------

  /** A flagged note "n" anchored to "f", an unmarked file row of an old project scan. */
  const NOTE_AND_FILE: Graph :=
    map["n" := Node(BLANK, Some(true), None, None, "", "", ["f"]),
        "f" := Node(BLANK.(source := Some("project-scan"), content := Some("file: src")),
                       None, None, None, "p", "d", [])]

  /** Both rows as planned, with their targets reviewed: the note gets a pin, the file its structure role. */
  function NoteAndFile(scope: string): seq<Candidate> {
    var file := LiveRow(NOTE_AND_FILE, "f");
    [PinCandidate(LiveRow(NOTE_AND_FILE, "n"), scope),
     Candidate(file, LegacyStructure, FingerprintOf(file), Some("file"), Some(false), Some("none"))]
  }

  lemma {:induction false} LowerKeeps(s: string)
    requires forall i :: 0 <= i < |s| ==> !('A' <= s[i] <= 'Z')
    ensures Lower(s) == s
  {
  }

  lemma {:induction false} FileIsLegacy()
    ensures Classify(LiveRow(NOTE_AND_FILE, "f")) == Some(LegacyStructure)
  {
    var scan, content := "project-scan", "file: src";
    LowerKeeps(scan);
    assert scan[0..] == scan && Contains(scan, "project-scan");
    assert Strip(content) == content;
    LowerKeeps(content);
    assert content[0] != "directory:"[0] && content[..5] == "file:";
  }

  lemma {:induction false} FileIsReviewed(scope: string, scopeOf: string -> Scope)
    ensures Problems(NoteAndFile(scope)[1], scopeOf) == 0
    ensures Normalized(NoteAndFile(scope)[1], scopeOf).role == Some("file") && Normalized(NoteAndFile(scope)[1], scopeOf).scope == None
  {
    assert Strip("file") == "file" && Strip("none") == "none";
    LowerKeeps("file");
    LowerKeeps("none");
    assert |Lower(UNREVIEWED)| != |"file"|;
  }

  lemma {:induction false} FileIsReady(scope: string, scopeOf: string -> Scope)
    ensures var c := NoteAndFile(scope)[1];
            && Ready(NOTE_AND_FILE, c, scopeOf) && c.row.uuid == "f"
            && RowOf(Normalized(c, scopeOf)).planned.uuid == "f" && RowOf(Normalized(c, scopeOf)).targetRole == Some("file")
  {
    FileIsLegacy();
    FileIsReviewed(scope, scopeOf);
    assert "n" != "f";
  }

  /** A validated manifest of planned rows, clean against its graph, whose own post-apply verification reports
      drift: the note is anchored to the file that the manifest turns structural. */
  lemma {:induction false} AnchoredNoteDrifts(scope: string, scopeOf: string -> Scope)
    requires AcceptedPin(scope, scopeOf)
    ensures var rows := RowsOf(NoteAndFile(scope), scopeOf);
            && Valid(NoteAndFile(scope), scopeOf) && OnlyReviewed(NoteAndFile(scope)) && Clean(NOTE_AND_FILE, rows)
            && !Settled(AfterApply(NOTE_AND_FILE, rows), rows)
  {
    var rows := RowsOf(NoteAndFile(scope), scopeOf);
    assert "n" != "f";
    PinIsReady(NOTE_AND_FILE, "n", scope, scopeOf);
    FileIsReady(scope, scopeOf);
    TwoReady(NOTE_AND_FILE, NoteAndFile(scope)[0], NoteAndFile(scope)[1], scopeOf);
    ReviewedManifestSettlesIff(NOTE_AND_FILE, NoteAndFile(scope), scopeOf);
    FileBecomesStructural(rows);
  }

  lemma {:induction false} FileBecomesStructural(rows: seq<Row>)
    requires |rows| == 2 && rows[0].planned.uuid == "n" && rows[1].planned.uuid == "f"
    requires rows[1].targetRole == Some("file")
    ensures !AllEven(NOTE_AND_FILE, rows)
  {
    var anchors := NOTE_AND_FILE["n"].anchors;
    assert "f" != "n" && anchors == ["f"] && anchors[..0] == [];
    assert BecomesStructural(NOTE_AND_FILE, rows, "f") && !LosesRole(NOTE_AND_FILE, rows, "f");
    assert "p" in Gained(NOTE_AND_FILE, rows, anchors, Project);
    assert Lost(NOTE_AND_FILE, rows, anchors, Project) == multiset{};
    assert !Even(NOTE_AND_FILE, rows, rows[0]);
  }
}
