/** What the second evaluation of an applied hygiene manifest finds (scripts/migrate_flagged_bootstrap_scope_commands.py
    90-93 and 211-229): exactly when every row settles, when one drifts, and what anchors have to do with it. */
module HygieneVerification {
  import opened Common
  import opened HygieneMigration

  // ----- what becomes of the anchors ---------------------------------------------------------

  /** This apply gives the entity a structure role where it had none. */
  ghost predicate BecomesStructural(graph: Graph, rows: seq<Row>, a: string) {
    IsEntity(graph, a) && graph[a].role.None?
    && exists i :: 0 <= i < |rows| && rows[i].planned.uuid == a && rows[i].targetRole.Some?
  }

  /** This apply takes the entity's structure role away. */
  ghost predicate LosesRole(graph: Graph, rows: seq<Row>, a: string) {
    IsEntity(graph, a) && graph[a].role.Some?
    && exists i :: 0 <= i < |rows| && rows[i].planned.uuid == a && rows[i].targetRole.None?
  }

  /** Read through the anchors that become structural. */
  ghost function Gained(graph: Graph, rows: seq<Row>, anchors: seq<string>, column: Column): multiset<string> {
    if anchors == [] then multiset{}
    else
      var a := anchors[|anchors| - 1];
      Gained(graph, rows, anchors[..|anchors| - 1], column) + GainedOne(graph, rows, a, column)
  }

  ghost function GainedOne(graph: Graph, rows: seq<Row>, a: string, column: Column): multiset<string> {
    if BecomesStructural(graph, rows, a) then multiset{ColumnOf(graph[a], column)} else multiset{}
  }

  /** Read through the anchors whose role is taken away. */
  ghost function Lost(graph: Graph, rows: seq<Row>, anchors: seq<string>, column: Column): multiset<string> {
    if anchors == [] then multiset{}
    else
      var a := anchors[|anchors| - 1];
      Lost(graph, rows, anchors[..|anchors| - 1], column) + LostOne(graph, rows, a, column)
  }

  ghost function LostOne(graph: Graph, rows: seq<Row>, a: string, column: Column): multiset<string> {
    if LosesRole(graph, rows, a) then multiset{ColumnOf(graph[a], column)} else multiset{}
  }

  lemma {:induction false} RoleAfterApply(graph: Graph, rows: seq<Row>, a: string)
    requires UniqueRows(rows) && Clean(graph, rows) && IsEntity(graph, a)
    ensures IsEntity(AfterApply(graph, rows), a)
    ensures forall column :: ColumnOf(AfterApply(graph, rows)[a], column) == ColumnOf(graph[a], column)
    ensures AfterApply(graph, rows)[a].role.Some? <==>
              BecomesStructural(graph, rows, a) || (graph[a].role.Some? && !LosesRole(graph, rows, a))
  {
    if Named(rows, a) {
      var i :| 0 <= i < |rows| && rows[i].planned.uuid == a;
      NodeAfterApply(graph, rows, i);
      assert rows[i] in rows;
      assert forall j :: 0 <= j < |rows| && rows[j].planned.uuid == a ==> j == i;
    } else {
      var pending := Judged(graph, rows, {Pending});
      JudgedUnique(graph, rows, {Pending});
      WrittenNode(graph, pending, a);
      if Named(pending, a) {
        var j :| 0 <= j < |pending| && pending[j].planned.uuid == a;
        JudgedMember(graph, rows, {Pending}, pending[j]);
      }
      assert !BecomesStructural(graph, rows, a) && !LosesRole(graph, rows, a);
    }
  }

  lemma {:induction false} OtherLabelsStay(graph: Graph, rows: seq<Row>, a: string)
    requires UniqueRows(rows) && Clean(graph, rows) && !IsEntity(graph, a)
    ensures !IsEntity(AfterApply(graph, rows), a)
  {
    var pending := Judged(graph, rows, {Pending});
    WriteRowsKeys(graph, pending);
    if a in graph {
      JudgedUnique(graph, rows, {Pending});
      WrittenNode(graph, pending, a);
    }
  }

  /** Conservation: what is read after the apply, and what was lost, is what was read before and what was gained. */
  lemma {:induction false} AnchorsBalance(graph: Graph, rows: seq<Row>, anchors: seq<string>, column: Column)
    requires UniqueRows(rows) && Clean(graph, rows)
    ensures ReadThrough(AfterApply(graph, rows), anchors, column) + Lost(graph, rows, anchors, column)
         == ReadThrough(graph, anchors, column) + Gained(graph, rows, anchors, column)
  {
    if anchors != [] {
      var init, last, after := anchors[..|anchors| - 1], anchors[|anchors| - 1], AfterApply(graph, rows);
      AnchorsBalance(graph, rows, init, column);
      AnchorBalance(graph, rows, last, column);
      AddBalances(ReadThrough(after, init, column), Lost(graph, rows, init, column),
                  ReadThrough(graph, init, column), Gained(graph, rows, init, column),
                  ReadOne(after, last, column), LostOne(graph, rows, last, column),
                  ReadOne(graph, last, column), GainedOne(graph, rows, last, column));
    }
  }

  lemma {:induction false} AnchorBalance(graph: Graph, rows: seq<Row>, a: string, column: Column)
    requires UniqueRows(rows) && Clean(graph, rows)
    ensures ReadOne(AfterApply(graph, rows), a, column) + LostOne(graph, rows, a, column)
         == ReadOne(graph, a, column) + GainedOne(graph, rows, a, column)
  {
    if IsEntity(graph, a) {
      RoleAfterApply(graph, rows, a);
    } else {
      OtherLabelsStay(graph, rows, a);
    }
  }

  lemma {:induction false} AddBalances(x: multiset<string>, y: multiset<string>, u: multiset<string>, v: multiset<string>,
                                       x1: multiset<string>, y1: multiset<string>, u1: multiset<string>, v1: multiset<string>)
    requires x + y == u + v && x1 + y1 == u1 + v1
    ensures (x + x1) + (y + y1) == (u + u1) + (v + v1)
  {
    assert (x + x1) + (y + y1) == (x + y) + (x1 + y1);
    assert (u + u1) + (v + v1) == (u + v) + (u1 + v1);
  }

  function PlannedColumn(row: Row, column: Column): multiset<string> {
    match column
    case Project => row.planned.projects
    case Path => row.planned.paths
  }

  /** The row plans, for each column, what its anchors read now and gain, less what they lose. A caller can
      read it off the graph and the manifest before the apply. */
  ghost predicate Balanced(graph: Graph, rows: seq<Row>, row: Row)
    requires row.planned.uuid in graph
  {
    forall column :: PlannedColumn(row, column) + Lost(graph, rows, graph[row.planned.uuid].anchors, column)
                  == ReadThrough(graph, graph[row.planned.uuid].anchors, column)
                     + Gained(graph, rows, graph[row.planned.uuid].anchors, column)
  }

  /** Exactly when a clean row evaluates as unchanged after the apply, edited or not: its preserved columns are
      those of its node, and its anchor columns balance. */
  lemma {:induction false} SettlesIff(graph: Graph, rows: seq<Row>, i: nat)
    requires UniqueRows(rows) && Clean(graph, rows) && i < |rows|
    ensures rows[i].planned.uuid in graph
    ensures Judge(AfterApply(graph, rows), rows[i]) == Unchanged <==>
              graph[rows[i].planned.uuid].kept == rows[i].planned.kept && Balanced(graph, rows, rows[i])
    ensures Judge(AfterApply(graph, rows), rows[i]) in {Unchanged, PreservedChanged}
  {
    assert rows[i] in rows;
    NodeAfterApply(graph, rows, i);
    var u, after := rows[i].planned.uuid, AfterApply(graph, rows);
    forall column
      ensures (ReadThrough(after, graph[u].anchors, column) == PlannedColumn(rows[i], column))
              <==> (PlannedColumn(rows[i], column) + Lost(graph, rows, graph[u].anchors, column)
                    == ReadThrough(graph, graph[u].anchors, column) + Gained(graph, rows, graph[u].anchors, column))
    {
      AnchorsBalance(graph, rows, graph[u].anchors, column);
      CancelCommon(ReadThrough(after, graph[u].anchors, column), PlannedColumn(rows[i], column),
                   Lost(graph, rows, graph[u].anchors, column));
    }
    ColumnsDecide(after, rows[i]);
  }

  lemma {:induction false} CancelCommon(x: multiset<string>, y: multiset<string>, z: multiset<string>)
    ensures x + z == y + z <==> x == y
  {
    if x + z == y + z {
      assert x == x + z - z && y == y + z - z;
    }
  }

  /** Which columns the verdict on a row at its targets compares. */
  /** Which columns the verdict on a row at its targets compares. */
  lemma {:induction false} ColumnsDecide(graph: Graph, row: Row)
    requires row.planned.uuid in graph
    requires var n := graph[row.planned.uuid];
             Truth(n.flagged) == row.targetFlagged && n.scope == row.targetScope && n.role == row.targetRole
    ensures Judge(graph, row) in {Unchanged, PreservedChanged}
    ensures Judge(graph, row) == Unchanged <==> graph[row.planned.uuid].kept == row.planned.kept && ReadsAsPlanned(graph, row)
  {
    BothColumns(graph, row);
  }

  ghost predicate ReadsAsPlanned(graph: Graph, row: Row)
    requires row.planned.uuid in graph
  {
    forall column :: ReadThrough(graph, graph[row.planned.uuid].anchors, column) == PlannedColumn(row, column)
  }

  lemma {:induction false} BothColumns(graph: Graph, row: Row)
    requires row.planned.uuid in graph
    ensures ReadsAsPlanned(graph, row) <==>
              LiveRow(graph, row.planned.uuid).projects == row.planned.projects
              && LiveRow(graph, row.planned.uuid).paths == row.planned.paths
  {
    var live := LiveRow(graph, row.planned.uuid);
    var anchors := graph[row.planned.uuid].anchors;
    if live.projects == row.planned.projects && live.paths == row.planned.paths {
      forall column ensures ReadThrough(graph, anchors, column) == PlannedColumn(row, column) {
        match column
        case Project =>
        case Path =>
      }
    }
    if ReadsAsPlanned(graph, row) {
      assert ReadThrough(graph, anchors, Project) == PlannedColumn(row, Project);
      assert ReadThrough(graph, anchors, Path) == PlannedColumn(row, Path);
    }
  }

  /** A pending row drifts iff one of its preserved columns, as recorded, was edited in the manifest, or its
      anchor columns do not balance. */
  lemma {:induction false} EditedRowDrifts(graph: Graph, rows: seq<Row>, i: nat)
    requires UniqueRows(rows) && Clean(graph, rows) && i < |rows| && Judge(graph, rows[i]) == Pending
    ensures rows[i].planned.uuid in graph
    ensures Judge(AfterApply(graph, rows), rows[i]) == PreservedChanged <==>
              rows[i].fingerprint.kept != rows[i].planned.kept || !Balanced(graph, rows, rows[i])
  {
    SettlesIff(graph, rows, i);
  }

  // ----- manifests in which only targets were edited -----------------------------------------

  /** The recorded fingerprint is still that of the row it sits in, as far as preserved columns and
      anchors go. */
  ghost predicate Unedited(row: Row) {
    && row.fingerprint.kept == row.planned.kept
    && row.fingerprint.projects == row.planned.projects
    && row.fingerprint.paths == row.planned.paths
  }

  /** What the row's anchors gain and lose reads the same. */
  ghost predicate Even(graph: Graph, rows: seq<Row>, row: Row)
    requires row.planned.uuid in graph
  {
    forall column :: Gained(graph, rows, graph[row.planned.uuid].anchors, column)
                  == Lost(graph, rows, graph[row.planned.uuid].anchors, column)
  }

  /** An unedited row settles iff, in both columns, what is read through the anchors that become structural is
      what is read through those that lose their role. */
  lemma {:induction false} UneditedSettlesIff(graph: Graph, rows: seq<Row>, i: nat)
    requires UniqueRows(rows) && Clean(graph, rows) && i < |rows|
    requires Judge(graph, rows[i]) == Pending ==> Unedited(rows[i])
    ensures rows[i].planned.uuid in graph
    ensures Judge(AfterApply(graph, rows), rows[i]) == Unchanged <==> Even(graph, rows, rows[i])
  {
    SettlesIff(graph, rows, i);
    assert rows[i] in rows;
    PlannedIsRead(graph, rows[i]);
    BalancedIffEven(graph, rows, rows[i]);
  }

  lemma {:induction false} BalancedIffEven(graph: Graph, rows: seq<Row>, row: Row)
    requires row.planned.uuid in graph && ReadsAsPlanned(graph, row)
    ensures Balanced(graph, rows, row) <==> Even(graph, rows, row)
  {
    var anchors := graph[row.planned.uuid].anchors;
    forall column
      ensures (PlannedColumn(row, column) + Lost(graph, rows, anchors, column)
               == ReadThrough(graph, anchors, column) + Gained(graph, rows, anchors, column))
              <==> (Gained(graph, rows, anchors, column) == Lost(graph, rows, anchors, column))
    {
      CancelLeft(ReadThrough(graph, anchors, column), Lost(graph, rows, anchors, column), Gained(graph, rows, anchors, column));
    }
  }

  lemma {:induction false} CancelLeft(z: multiset<string>, x: multiset<string>, y: multiset<string>)
    ensures z + x == z + y <==> y == x
  {
    CancelCommon(x, y, z);
    assert z + x == x + z && z + y == y + z;
  }

  lemma {:induction false} PlannedIsRead(graph: Graph, row: Row)
    requires Judge(graph, row) == Unchanged || (Judge(graph, row) == Pending && Unedited(row))
    ensures row.planned.uuid in graph && graph[row.planned.uuid].kept == row.planned.kept && ReadsAsPlanned(graph, row)
  {
    BothColumns(graph, row);
  }

  ghost predicate AllEven(graph: Graph, rows: seq<Row>) {
    forall i :: 0 <= i < |rows| && rows[i].planned.uuid in graph ==> Even(graph, rows, rows[i])
  }

  /** The post-apply verification passes iff every row's anchors gain what they lose; then a second apply has
      nothing to write. */
  lemma {:induction false} ApplySettlesIff(graph: Graph, rows: seq<Row>)
    requires UniqueRows(rows) && Clean(graph, rows)
    requires forall r :: r in rows && Judge(graph, r) == Pending ==> Unedited(r)
    ensures Settled(AfterApply(graph, rows), rows) <==> AllEven(graph, rows)
    ensures Settled(AfterApply(graph, rows), rows) ==> AfterApply(AfterApply(graph, rows), rows) == AfterApply(graph, rows)
  {
    var after := AfterApply(graph, rows);
    forall i | 0 <= i < |rows|
      ensures rows[i].planned.uuid in graph
      ensures Judge(after, rows[i]) == Unchanged <==> Even(graph, rows, rows[i])
    {
      assert rows[i] in rows;
      UneditedSettlesIff(graph, rows, i);
    }
    if Settled(after, rows) {
      JudgedEmpty(after, rows, {Pending});
      forall i | 0 <= i < |rows| ensures Even(graph, rows, rows[i]) {
        assert rows[i] in rows;
      }
    }
  }

  // ----- when no role is cleared -------------------------------------------------------------

  /** No target clears a role that is set; HygieneManifest.RolesClearedIff says when. */
  ghost predicate NoRoleCleared(graph: Graph, rows: seq<Row>) {
    forall i :: 0 <= i < |rows| && rows[i].planned.uuid in graph && graph[rows[i].planned.uuid].role.Some? ==>
      rows[i].targetRole.Some?
  }

  lemma {:induction false} NothingLost(graph: Graph, rows: seq<Row>, anchors: seq<string>, column: Column)
    requires NoRoleCleared(graph, rows)
    ensures Lost(graph, rows, anchors, column) == multiset{}
  {
    if anchors != [] {
      NothingLost(graph, rows, anchors[..|anchors| - 1], column);
      assert !LosesRole(graph, rows, anchors[|anchors| - 1]);
    }
  }

  lemma {:induction false} NothingGained(graph: Graph, rows: seq<Row>, anchors: seq<string>, column: Column)
    ensures Gained(graph, rows, anchors, column) == multiset{} <==>
              forall a :: a in anchors ==> !BecomesStructural(graph, rows, a)
  {
    if anchors != [] {
      var init, last := anchors[..|anchors| - 1], anchors[|anchors| - 1];
      NothingGained(graph, rows, init, column);
      assert anchors == init + [last];
      assert BecomesStructural(graph, rows, last) ==>
        ColumnOf(graph[last], column) in Gained(graph, rows, anchors, column);
    }
  }

  /** With no role cleared, an unedited row settles iff none of its anchors becomes structural in the same manifest. */
  lemma {:induction false} SettlesIffNoAnchorBecomesStructural(graph: Graph, rows: seq<Row>, i: nat)
    requires UniqueRows(rows) && Clean(graph, rows) && NoRoleCleared(graph, rows) && i < |rows|
    requires Judge(graph, rows[i]) == Pending ==> Unedited(rows[i])
    ensures rows[i].planned.uuid in graph
    ensures Judge(AfterApply(graph, rows), rows[i]) == Unchanged <==>
              forall a :: a in graph[rows[i].planned.uuid].anchors ==> !BecomesStructural(graph, rows, a)
  {
    UneditedSettlesIff(graph, rows, i);
    var anchors := graph[rows[i].planned.uuid].anchors;
    forall column ensures Lost(graph, rows, anchors, column) == multiset{} {
      NothingLost(graph, rows, anchors, column);
    }
    NothingGained(graph, rows, anchors, Project);
    forall column ensures Gained(graph, rows, anchors, column) == multiset{} <==>
                            forall a :: a in anchors ==> !BecomesStructural(graph, rows, a) {
      NothingGained(graph, rows, anchors, column);
    }
    assert Even(graph, rows, rows[i]) <==> Gained(graph, rows, anchors, Project) == multiset{};
  }
}
