/** The reviewed recall-hygiene migration: evaluate a manifest against the live graph, write the
    pending rows in batches, evaluate again (scripts/migrate_flagged_bootstrap_scope_commands.py
    81-214, scripts/migrate_flagged_bootstrap_scope_candidates.py 51-73).

    A fingerprint is a digest; it is modelled by the values it digests, so two fingerprints are equal
    iff those values are. */
module HygieneMigration {
  import opened Common

  /** The columns the migration must preserve. */
  datatype Preserved = Preserved(labels: multiset<string>, name: Option<string>, content: Option<string>,
                                 source: Option<string>, group: Option<string>, namespace: Option<string>)

  /** A node. `anchors` are the targets of its ANCHORED_TO relationships, one entry per relationship;
      `project` and `path` are read by the nodes anchored to it. */
  datatype Node = Node(kept: Preserved, flagged: Option<bool>, scope: Option<string>, role: Option<string>,
                       project: string, path: string, anchors: seq<string>)

  type Graph = map<string, Node>

  /** What the load query returns for one uuid. */
  datatype Live = Live(uuid: string, kept: Preserved, flagged: Option<bool>, scope: Option<string>, role: Option<string>,
                       projects: multiset<string>, paths: multiset<string>)

  /** The digested values: flags by truth value, lists as multisets (they are sorted first). */
  datatype Fingerprint = Fingerprint(uuid: string, kept: Preserved, flagged: bool, scope: Option<string>, role: Option<string>,
                                     projects: multiset<string>, paths: multiset<string>)

  /** A reviewed manifest row: the row as planned, its recorded fingerprint, and the targets. */
  datatype Row = Row(planned: Live, fingerprint: Fingerprint, targetFlagged: bool, targetScope: Option<string>, targetRole: Option<string>)

  function Truth(flag: Option<bool>): bool {
    flag == Some(true)
  }

  function FingerprintOf(row: Live): Fingerprint {
    Fingerprint(row.uuid, row.kept, Truth(row.flagged), row.scope, row.role, row.projects, row.paths)
  }

  // ----- reading the graph -------------------------------------------------------------------

  /** The two columns that are read through anchors. */
  datatype Column = Project | Path

  function ColumnOf(n: Node, column: Column): string {
    match column
    case Project => n.project
    case Path => n.path
  }

  predicate IsEntity(graph: Graph, uuid: string) {
    uuid in graph && "Entity" in graph[uuid].kept.labels
  }

  /** `[(n)-[:ANCHORED_TO]->(a:Entity) WHERE a.structure_role IS NOT NULL | a.structure_project]`, and
      likewise for `structure_path`. */
  function ReadThrough(graph: Graph, anchors: seq<string>, column: Column): multiset<string> {
    if anchors == [] then multiset{}
    else
      var a := anchors[|anchors| - 1];
      ReadThrough(graph, anchors[..|anchors| - 1], column) + ReadOne(graph, a, column)
  }

  function ReadOne(graph: Graph, a: string, column: Column): multiset<string> {
    if IsEntity(graph, a) && graph[a].role.Some? then multiset{ColumnOf(graph[a], column)} else multiset{}
  }

  function LiveRow(graph: Graph, uuid: string): Live
    requires uuid in graph
  {
    var n := graph[uuid];
    Live(uuid, n.kept, n.flagged, n.scope, n.role, ReadThrough(graph, n.anchors, Project), ReadThrough(graph, n.anchors, Path))
  }

  // ----- evaluating a manifest ---------------------------------------------------------------

  function Expected(row: Row): Live {
    row.planned.(flagged := Some(row.targetFlagged), scope := row.targetScope, role := row.targetRole)
  }

  predicate MatchesTarget(current: Live, row: Row) {
    Truth(current.flagged) == row.targetFlagged && current.scope == row.targetScope && current.role == row.targetRole
  }

  /** The list a row is sorted into; the two kinds of drift share one. */
  datatype Verdict = Missing | Unchanged | PreservedChanged | ChangedSincePlan | Pending

  function Judge(graph: Graph, row: Row): Verdict {
    var uuid := row.planned.uuid;
    if uuid !in graph then Missing
    else
      var current := LiveRow(graph, uuid);
      if MatchesTarget(current, row) then
        if FingerprintOf(current) == FingerprintOf(Expected(row)) then Unchanged else PreservedChanged
      else if FingerprintOf(current) != row.fingerprint then ChangedSincePlan
      else Pending
  }

  /** The rows with one of the given verdicts, in manifest order. */
  function Judged(graph: Graph, rows: seq<Row>, verdicts: set<Verdict>): seq<Row> {
    if rows == [] then []
    else
      var last := rows[|rows| - 1];
      Judged(graph, rows[..|rows| - 1], verdicts) + if Judge(graph, last) in verdicts then [last] else []
  }

  function Uuids(rows: seq<Row>): seq<string> {
    seq(|rows|, i requires 0 <= i < |rows| => rows[i].planned.uuid)
  }

  lemma {:induction false} JudgedMember(graph: Graph, rows: seq<Row>, verdicts: set<Verdict>, row: Row)
    ensures row in Judged(graph, rows, verdicts) <==> row in rows && Judge(graph, row) in verdicts
  {
    if rows != [] {
      JudgedMember(graph, rows[..|rows| - 1], verdicts, row);
      assert row in rows <==> row in rows[..|rows| - 1] || row == rows[|rows| - 1];
    }
  }

  /** A verdict's list is empty iff no row has it. */
  lemma {:induction false} JudgedEmpty(graph: Graph, rows: seq<Row>, verdicts: set<Verdict>)
    ensures Judged(graph, rows, verdicts) == [] <==> forall r :: r in rows ==> Judge(graph, r) !in verdicts
  {
    forall r | r in rows ensures r in Judged(graph, rows, verdicts) <==> Judge(graph, r) in verdicts {
      JudgedMember(graph, rows, verdicts, r);
    }
    if Judged(graph, rows, verdicts) != [] {
      JudgedMember(graph, rows, verdicts, Judged(graph, rows, verdicts)[0]);
    }
  }

  const DRIFT: set<Verdict> := {PreservedChanged, ChangedSincePlan}

  /** Sort every candidate into one of the four lists, in manifest order. */
  method EvaluateManifest(graph: Graph, rows: seq<Row>)
    returns (pending: seq<Row>, settled: seq<string>, missing: seq<string>, drift: seq<string>)
    ensures pending == Judged(graph, rows, {Pending})
    ensures settled == Uuids(Judged(graph, rows, {Unchanged}))
    ensures missing == Uuids(Judged(graph, rows, {Missing}))
    ensures drift == Uuids(Judged(graph, rows, DRIFT))
  {
    pending, settled, missing, drift := [], [], [], [];
    for i := 0 to |rows|
      invariant pending == Judged(graph, rows[..i], {Pending})
      invariant settled == Uuids(Judged(graph, rows[..i], {Unchanged}))
      invariant missing == Uuids(Judged(graph, rows[..i], {Missing}))
      invariant drift == Uuids(Judged(graph, rows[..i], DRIFT))
    {
      var uuid, verdict := rows[i].planned.uuid, Judge(graph, rows[i]);
      JudgedStep(graph, rows, i, {Pending}, verdict);
      JudgedStep(graph, rows, i, {Unchanged}, verdict);
      JudgedStep(graph, rows, i, {Missing}, verdict);
      JudgedStep(graph, rows, i, DRIFT, verdict);
      match verdict
      case Missing => missing := missing + [uuid];
      case Unchanged => settled := settled + [uuid];
      case PreservedChanged => drift := drift + [uuid];
      case ChangedSincePlan => drift := drift + [uuid];
      case Pending => pending := pending + [rows[i]];
    }
    assert rows[..|rows|] == rows;
  }

  lemma {:induction false} JudgedStep(graph: Graph, rows: seq<Row>, i: nat, verdicts: set<Verdict>, v: Verdict)
    requires i < |rows| && v == Judge(graph, rows[i])
    ensures v in verdicts ==> Judged(graph, rows[..i + 1], verdicts) == Judged(graph, rows[..i], verdicts) + [rows[i]]
    ensures v in verdicts ==> Uuids(Judged(graph, rows[..i + 1], verdicts))
                              == Uuids(Judged(graph, rows[..i], verdicts)) + [rows[i].planned.uuid]
    ensures v !in verdicts ==> Judged(graph, rows[..i + 1], verdicts) == Judged(graph, rows[..i], verdicts)
  {
    assert rows[..i + 1][..i] == rows[..i];
  }

  // ----- applying ----------------------------------------------------------------------------

  function SetTarget(n: Node, row: Row): Node {
    n.(flagged := Some(row.targetFlagged), scope := row.targetScope, role := row.targetRole)
  }

  function WriteRows(graph: Graph, rows: seq<Row>): Graph {
    if rows == [] then graph
    else
      var prev, last := WriteRows(graph, rows[..|rows| - 1]), rows[|rows| - 1];
      if last.planned.uuid in prev then prev[last.planned.uuid := SetTarget(prev[last.planned.uuid], last)] else prev
  }

  ghost predicate UniqueRows(rows: seq<Row>) {
    forall i, j :: 0 <= i < j < |rows| ==> rows[i].planned.uuid != rows[j].planned.uuid
  }

  lemma {:induction false} WriteRowsConcat(graph: Graph, a: seq<Row>, b: seq<Row>)
    ensures WriteRows(graph, a + b) == WriteRows(WriteRows(graph, a), b)
  {
    if b == [] {
      assert a + b == a;
    } else {
      assert (a + b)[..|a + b| - 1] == a + b[..|b| - 1];
      WriteRowsConcat(graph, a, b[..|b| - 1]);
    }
  }

  lemma {:induction false} WriteRowsKeys(graph: Graph, rows: seq<Row>)
    ensures WriteRows(graph, rows).Keys == graph.Keys
  {
    if rows != [] {
      WriteRowsKeys(graph, rows[..|rows| - 1]);
    }
  }

  lemma {:induction false} BatchStep(graph: Graph, rows: seq<Row>, start: nat, end: nat, before: Graph)
    requires start <= end <= |rows| && before == WriteRows(graph, rows[..start])
    ensures WriteRows(before, rows[start..end]) == WriteRows(graph, rows[..end])
  {
    WriteRowsConcat(graph, rows[..start], rows[start..end]);
    assert rows[..start] + rows[start..end] == rows[..end];
  }

  class Store {
    var graph: Graph

    constructor (graph: Graph)
      ensures this.graph == graph
    {
      this.graph := graph;
    }

    /** One `UNWIND` write; returns how many nodes it matched. */
    method WriteBatch(batch: seq<Row>) returns (updated: nat)
      modifies this
      ensures graph == WriteRows(old(graph), batch) && graph.Keys == old(graph).Keys
      ensures (forall r :: r in batch ==> r.planned.uuid in old(graph)) ==> updated == |batch|
    {
      updated := 0;
      for i := 0 to |batch|
        invariant graph == WriteRows(old(graph), batch[..i])
        invariant graph.Keys == old(graph).Keys
        invariant (forall r :: r in batch ==> r.planned.uuid in old(graph)) ==> updated == i
      {
        assert batch[..i + 1][..i] == batch[..i];
        assert batch[i] in batch;
        if batch[i].planned.uuid in graph {
          graph := graph[batch[i].planned.uuid := SetTarget(graph[batch[i].planned.uuid], batch[i])];
          updated := updated + 1;
        }
      }
      assert batch[..|batch|] == batch;
    }

    method WriteInBatches(pending: seq<Row>, batchSize: nat) returns (changed: nat)
      requires batchSize >= 1 && forall r :: r in pending ==> r.planned.uuid in graph
      modifies this
      ensures graph == WriteRows(old(graph), pending) && changed == |pending|
    {
      changed := 0;
      while changed < |pending|
        invariant changed <= |pending|
        invariant graph == WriteRows(old(graph), pending[..changed]) && graph.Keys == old(graph).Keys
      {
        var start := changed;
        var end := if start + batchSize < |pending| then start + batchSize else |pending|;
        ghost var before := graph;
        var updated := WriteBatch(pending[start..end]);
        BatchStep(old(graph), pending, start, end, before);
        changed := changed + updated;
      }
      assert pending[..|pending|] == pending;
    }

    /** `cmd_apply --yes`: refuse on missing or drifted rows, write the pending ones in batches, and
        evaluate again. The batch size makes no difference to the graph, and the exit code is 0
        exactly when every row then evaluates as unchanged. */
    method Apply(rows: seq<Row>, batchSize: nat) returns (code: int)
      requires batchSize >= 1 && UniqueRows(rows)
      modifies this
      ensures Clean(old(graph), rows) ==> graph == WriteRows(old(graph), Judged(old(graph), rows, {Pending}))
      ensures !Clean(old(graph), rows) ==> code == 2 && graph == old(graph)
      ensures code == 0 <==> Clean(old(graph), rows) && Settled(graph, rows)
    {
      var pending, settled, missing, drift := EvaluateManifest(graph, rows);
      JudgedEmpty(graph, rows, {Missing});
      JudgedEmpty(graph, rows, DRIFT);
      if missing != [] || drift != [] {
        return 2;
      }
      forall r | r in pending ensures r.planned.uuid in graph {
        JudgedMember(graph, rows, {Pending}, r);
      }
      var changed := WriteInBatches(pending, batchSize);
      var postPending, postSettled, postMissing, postDrift := EvaluateManifest(graph, rows);
      JudgedEmpty(graph, rows, {Pending});
      JudgedEmpty(graph, rows, {Missing});
      JudgedEmpty(graph, rows, DRIFT);
      if changed != |pending| || postPending != [] || postMissing != [] || postDrift != [] {
        return 2;
      }
      code := 0;
    }
  }

  ghost predicate Clean(graph: Graph, rows: seq<Row>) {
    forall r :: r in rows ==> Judge(graph, r) == Pending || Judge(graph, r) == Unchanged
  }

  ghost predicate Settled(graph: Graph, rows: seq<Row>) {
    forall r :: r in rows ==> Judge(graph, r) == Unchanged
  }

  // ----- what the second evaluation finds ----------------------------------------------------

  ghost predicate Named(rows: seq<Row>, u: string) {
    exists i :: 0 <= i < |rows| && rows[i].planned.uuid == u
  }

  /** Each node is written by its own row only. */
  lemma {:induction false} WrittenNode(graph: Graph, rows: seq<Row>, u: string)
    requires UniqueRows(rows) && u in graph
    ensures u in WriteRows(graph, rows)
    ensures !Named(rows, u) ==> WriteRows(graph, rows)[u] == graph[u]
    ensures forall i :: 0 <= i < |rows| && rows[i].planned.uuid == u ==> WriteRows(graph, rows)[u] == SetTarget(graph[u], rows[i])
  {
    if rows != [] {
      var init := rows[..|rows| - 1];
      WrittenNode(graph, init, u);
      assert forall i :: 0 <= i < |init| ==> init[i] == rows[i];
      if !Named(rows, u) {
        assert forall i :: 0 <= i < |rows| ==> rows[i].planned.uuid != u;
      }
    }
  }

  lemma {:induction false} JudgedUnique(graph: Graph, rows: seq<Row>, verdicts: set<Verdict>)
    requires UniqueRows(rows)
    ensures UniqueRows(Judged(graph, rows, verdicts))
  {
    if rows != [] {
      var init, last := rows[..|rows| - 1], rows[|rows| - 1];
      JudgedUnique(graph, init, verdicts);
      var kept := Judged(graph, init, verdicts);
      forall i | 0 <= i < |kept| ensures kept[i].planned.uuid != last.planned.uuid {
        JudgedMember(graph, init, verdicts, kept[i]);
        var j :| 0 <= j < |init| && init[j] == kept[i];
        assert rows[j] == kept[i];
      }
    }
  }

  /** The graph after the writes of a clean manifest. */
  function AfterApply(graph: Graph, rows: seq<Row>): Graph {
    WriteRows(graph, Judged(graph, rows, {Pending}))
  }

  /** After the writes every row's node carries its targets and is otherwise as before. */
  lemma {:induction false} NodeAfterApply(graph: Graph, rows: seq<Row>, i: nat)
    requires UniqueRows(rows) && Clean(graph, rows) && i < |rows|
    ensures rows[i].planned.uuid in graph && rows[i].planned.uuid in AfterApply(graph, rows)
    ensures var u := rows[i].planned.uuid;
            var n := AfterApply(graph, rows)[u];
            && n == if Judge(graph, rows[i]) == Pending then SetTarget(graph[u], rows[i]) else graph[u]
  {
    var pending, u := Judged(graph, rows, {Pending}), rows[i].planned.uuid;
    assert rows[i] in rows;
    JudgedUnique(graph, rows, {Pending});
    WrittenNode(graph, pending, u);
    JudgedMember(graph, rows, {Pending}, rows[i]);
    if Judge(graph, rows[i]) == Pending {
      var j :| 0 <= j < |pending| && pending[j] == rows[i];
    } else {
      forall j | 0 <= j < |pending| ensures pending[j].planned.uuid != u {
        JudgedMember(graph, rows, {Pending}, pending[j]);
        SameUuidSameRow(rows, i, pending[j]);
      }
    }
  }

  lemma {:induction false} SameUuidSameRow(rows: seq<Row>, i: nat, r: Row)
    requires UniqueRows(rows) && i < |rows| && r in rows
    ensures r.planned.uuid == rows[i].planned.uuid ==> r == rows[i]
  {
  }
}
