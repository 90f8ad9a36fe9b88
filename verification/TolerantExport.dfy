/** The corruption-tolerant paging reader of scripts/export_graph_backup_tolerant.py: `_read_window`
    (lines 98-140) and the paging loops and exit codes of `main` (lines 212-268). */
module TolerantExport {
  import opened Common

  datatype Row = Row(id: int, payload: string)

  /** One output line: a row, or a skip record with whatever identity could be read. */
  datatype Record = Written(row: Row) | Skipped(offset: nat, id: Option<int>)

  /** One full-row read that was issued, and whether it succeeded. */
  datatype Read = Read(skip: nat, limit: nat, ok: bool)

  // ----- cost of isolating bad rows ----------------------------------------------------------

  function BadIn(bad: set<nat>, skip: nat, limit: nat): set<nat> {
    set b | b in bad && skip <= b < skip + limit
  }

  /** Full reads issued for a window when a read fails iff it touches a bad row. */
  function Cost(bad: set<nat>, skip: nat, limit: nat): nat
    requires limit >= 1
    decreases limit
  {
    if BadIn(bad, skip, limit) == {} || limit == 1 then 1
    else 1 + Cost(bad, skip, limit / 2) + Cost(bad, skip + limit / 2, limit - limit / 2)
  }

  function CeilLog2(n: nat): nat {
    if n <= 1 then 0 else 1 + CeilLog2((n + 1) / 2)
  }

  /** CeilLog2 is the least exponent whose power of two reaches n. */
  lemma {:induction false} CeilLog2IsLeast(n: nat, e: nat)
    requires n >= 1
    ensures n <= Pow2(CeilLog2(n))
    ensures n <= Pow2(e) ==> CeilLog2(n) <= e
    decreases n
  {
    if n > 1 {
      CeilLog2IsLeast((n + 1) / 2, if e > 0 then e - 1 else 0);
    }
  }

  lemma {:induction false} CeilLog2Monotone(m: nat, n: nat)
    requires m <= n
    ensures CeilLog2(m) <= CeilLog2(n)
    decreases n
  {
    if m > 1 {
      CeilLog2Monotone((m + 1) / 2, (n + 1) / 2);
    }
  }

  lemma {:induction false} BadSplits(bad: set<nat>, skip: nat, limit: nat, all: nat)
    requires limit <= all
    ensures |BadIn(bad, skip, all)| == |BadIn(bad, skip, limit)| + |BadIn(bad, skip + limit, all - limit)|
  {
    assert BadIn(bad, skip, all) == BadIn(bad, skip, limit) + BadIn(bad, skip + limit, all - limit);
    assert BadIn(bad, skip, limit) !! BadIn(bad, skip + limit, all - limit);
  }

  /** Isolating the bad rows of a window takes at most 2 * ceil(log2 limit) extra reads for each,
      and none when the window is clean. */
  lemma {:induction false} CostBound(bad: set<nat>, skip: nat, limit: nat)
    requires limit >= 1
    ensures Cost(bad, skip, limit) <= 1 + 2 * (|BadIn(bad, skip, limit)| * CeilLog2(limit))
    decreases limit
  {
    if |BadIn(bad, skip, limit)| > 0 && limit > 1 {
      var half := limit / 2;
      var rest := limit - half;
      var c1, c2 := |BadIn(bad, skip, half)|, |BadIn(bad, skip + half, rest)|;
      var e1, e2 := CeilLog2(half), CeilLog2(rest);
      CostBound(bad, skip, half);
      CostBound(bad, skip + half, rest);
      BadSplits(bad, skip, half, limit);
      CeilLog2Monotone(half, rest);
      CombineBounds(Cost(bad, skip, half), Cost(bad, skip + half, rest), c1, c2, e1, e2);
      assert rest == (limit + 1) / 2 && CeilLog2(limit) == 1 + e2;
    }
  }

  lemma {:induction false} CombineBounds(x1: nat, x2: nat, c1: nat, c2: nat, e1: nat, e2: nat)
    requires e1 <= e2 && c1 + c2 >= 1
    requires x1 <= 1 + 2 * (c1 * e1) && x2 <= 1 + 2 * (c2 * e2)
    ensures 1 + x1 + x2 <= 1 + 2 * ((c1 + c2) * (1 + e2))
  {
    ScaleUp(c1, e1, e2);
    assert (c1 + c2) * (1 + e2) == (c1 + c2) + (c1 + c2) * e2;
  }

  lemma {:induction false} ScaleUp(c: nat, x: nat, y: nat)
    requires x <= y
    ensures c * x <= c * y
  {
  }

  /** The bound is met: one bad row in a window of 2^e rows costs exactly 1 + 2e reads. */
  lemma {:induction false} OneBadRowCost(b: nat, skip: nat, e: nat)
    requires skip <= b < skip + Pow2(e)
    ensures Pow2(e) >= 1 && Cost({b}, skip, Pow2(e)) == 1 + 2 * e
    decreases e
  {
    PowAtLeastOne(e);
    assert b in BadIn({b}, skip, Pow2(e));
    if e > 0 {
      PowAtLeastOne(e - 1);
      var half := Pow2(e - 1);
      assert Pow2(e) / 2 == half && Pow2(e) - half == half;
      if b < skip + half {
        OneBadRowCost(b, skip, e - 1);
        assert BadIn({b}, skip + half, half) == {};
      } else {
        OneBadRowCost(b, skip + half, e - 1);
        assert BadIn({b}, skip, half) == {};
      }
    }
  }

  lemma {:induction false} PowAtLeastOne(e: nat)
    ensures Pow2(e) >= 1
  {
    if e > 0 {
      PowAtLeastOne(e - 1);
    }
  }

  /** Full reads of a whole export: one window after another from `skip`. */
  function ExportCost(bad: set<nat>, skip: nat, total: nat, batch: nat): nat
    requires batch >= 1
    decreases if skip < total then total - skip else 0
  {
    if skip >= total then 0
    else
      var limit := if batch < total - skip then batch else total - skip;
      Cost(bad, skip, limit) + ExportCost(bad, skip + limit, total, batch)
  }

  /** Windows of a whole export. */
  function Windows(skip: nat, total: nat, batch: nat): nat
    requires batch >= 1
    decreases if skip < total then total - skip else 0
  {
    if skip >= total then 0 else 1 + Windows(skip + (if batch < total - skip then batch else total - skip), total, batch)
  }

  /** A whole export reads once per window plus O(log batch) per bad row. */
  lemma {:induction false} ExportCostBound(bad: set<nat>, skip: nat, total: nat, batch: nat)
    requires batch >= 1
    ensures ExportCost(bad, skip, total, batch)
         <= Windows(skip, total, batch) + 2 * (|BadIn(bad, skip, if skip < total then total - skip else 0)| * CeilLog2(batch))
    decreases if skip < total then total - skip else 0
  {
    if skip < total {
      var limit := if batch < total - skip then batch else total - skip;
      var rest := total - skip - limit;
      CostBound(bad, skip, limit);
      CeilLog2Monotone(limit, batch);
      ExportCostBound(bad, skip + limit, total, batch);
      BadSplits(bad, skip, limit, total - skip);
      var c1, c2 := |BadIn(bad, skip, limit)|, |BadIn(bad, skip + limit, rest)|;
      ScaleUp(c1, CeilLog2(limit), CeilLog2(batch));
    }
  }

  // ----- what a window's records say ---------------------------------------------------------

  function Skips(recs: seq<Record>): seq<Record> {
    if recs == [] then []
    else Skips(recs[..|recs| - 1]) + if recs[|recs| - 1].Skipped? then [recs[|recs| - 1]] else []
  }

  lemma {:induction false} SkipsConcat(a: seq<Record>, b: seq<Record>)
    ensures Skips(a + b) == Skips(a) + Skips(b)
  {
    if b == [] {
      assert a + b == a;
    } else {
      assert (a + b)[..|a + b| - 1] == a + b[..|b| - 1];
      SkipsConcat(a, b[..|b| - 1]);
    }
  }

  lemma {:induction false} SkipsOfWritten(recs: seq<Record>)
    requires forall j :: 0 <= j < |recs| ==> recs[j].Written?
    ensures Skips(recs) == []
  {
    if recs != [] {
      SkipsOfWritten(recs[..|recs| - 1]);
    }
  }

  /** Exactly one record per offset of the window, in offset order: the true row, or a skip. */
  ghost predicate Accounts(table: seq<Row>, skip: nat, limit: nat, recs: seq<Record>) {
    && skip + limit <= |table|
    && |recs| == limit
    && forall j :: 0 <= j < limit ==>
         if recs[j].Written? then recs[j].row == table[skip + j]
         else recs[j].offset == skip + j && (recs[j].id == None || recs[j].id == Some(table[skip + j].id))
  }

  /** A row is given up only after a read of that row alone failed, and delivered only by a
      successful read that covers it. */
  ghost predicate Justified(skip: nat, recs: seq<Record>, issued: seq<Read>) {
    forall j :: 0 <= j < |recs| ==>
      if recs[j].Skipped? then Read(skip + j, 1, false) in issued
      else Delivered(skip + j, issued)
  }

  ghost predicate Delivered(offset: nat, issued: seq<Read>) {
    exists r :: r in issued && r.ok && r.skip <= offset < r.skip + r.limit
  }

  /** Reads fail iff they touch a bad row. */
  ghost predicate FailsIffBad(fails: (nat, nat, nat) -> bool, bad: set<nat>) {
    forall call: nat, skip: nat, limit: nat :: fails(call, skip, limit) <==> BadIn(bad, skip, limit) != {}
  }

  ghost predicate SkipsAreBad(bad: set<nat>, skip: nat, recs: seq<Record>) {
    forall j :: 0 <= j < |recs| ==> (recs[j].Skipped? <==> skip + j in bad)
  }

  lemma {:induction false} HalvesAccount(table: seq<Row>, skip: nat, half: nat, limit: nat,
                      a: seq<Record>, b: seq<Record>, ra: seq<Read>, rb: seq<Read>, first: Read)
    requires half <= limit
    requires Accounts(table, skip, half, a) && Justified(skip, a, ra)
    requires Accounts(table, skip + half, limit - half, b) && Justified(skip + half, b, rb)
    ensures Accounts(table, skip, limit, a + b) && Justified(skip, a + b, [first] + ra + rb)
  {
  }

  /** A connection to a static table whose reads fail in any pattern: `fails` and `identFails` may
      answer differently on every call. */
  class Exporter {
    const table: seq<Row>
    const fails: (nat, nat, nat) -> bool
    const identFails: nat -> bool
    var calls: nat
    var out: seq<Record>
    var skipped: seq<Record>
    ghost var log: seq<Read>

    constructor (table: seq<Row>, fails: (nat, nat, nat) -> bool, identFails: nat -> bool)
      ensures this.table == table && this.fails == fails && this.identFails == identFails
      ensures calls == 0 && out == [] && skipped == [] && log == []
    {
      this.table, this.fails, this.identFails := table, fails, identFails;
      calls, out, skipped, log := 0, [], [], [];
    }

    /** Best-effort identity of one row; never raises. */
    method Identify(offset: nat) returns (id: Option<int>)
      requires offset < |table|
      modifies this`calls
      ensures calls == old(calls) + 1
      ensures id == None || id == Some(table[offset].id)
    {
      id := if identFails(calls) then None else Some(table[offset].id);
      calls := calls + 1;
    }

    /** A row whose own read failed is recorded as skipped. */
    method GiveUp(offset: nat) returns (ghost recs: seq<Record>)
      requires offset < |table| && exists call: nat :: fails(call, offset, 1)
      modifies this`calls, this`out, this`skipped
      ensures out == old(out) + recs && skipped == old(skipped) + Skips(recs)
      ensures WindowDone(table, fails, offset, 1, 0, recs, [Read(offset, 1, false)])
    {
      var id := Identify(offset);
      var rec := Skipped(offset, id);
      skipped := skipped + [rec];
      out := out + [rec];
      recs := [rec];
    }

    /** Read a window; on failure halve it until a bad row stands alone. */
    method ReadWindow(skip: nat, limit: nat) returns (n: nat, ghost recs: seq<Record>, ghost issued: seq<Read>)
      requires limit >= 1 && skip + limit <= |table|
      modifies this
      ensures out == old(out) + recs && skipped == old(skipped) + Skips(recs) && log == old(log) + issued
      ensures WindowDone(table, fails, skip, limit, n, recs, issued)
      decreases limit, 1
    {
      var failed := fails(calls, skip, limit);
      calls := calls + 1;
      ghost var first := Read(skip, limit, !failed);
      log := log + [first];
      if failed {
        if limit == 1 {
          recs := GiveUp(skip);
          n, issued := 0, [first];
          return;
        }
        n, recs, issued := ReadHalves(skip, limit);
        return;
      }
      var rows := table[skip..skip + limit];
      recs := Emit(rows);
      issued := [first];
      CleanDone(table, fails, skip, limit);
      n := |rows|;
    }

    /** The failed branch: both halves, counted together with the read that failed. */
    method ReadHalves(skip: nat, limit: nat) returns (n: nat, ghost recs: seq<Record>, ghost issued: seq<Read>)
      requires limit >= 2 && skip + limit <= |table| && exists call: nat :: fails(call, skip, limit)
      modifies this
      ensures out == old(out) + recs && skipped == old(skipped) + Skips(recs)
      ensures issued != [] && issued[0] == Read(skip, limit, false) && log == old(log) + issued[1..]
      ensures WindowDone(table, fails, skip, limit, n, recs, issued)
      decreases limit, 0
    {
      var half := limit / 2;
      var n1, a, ra := ReadWindow(skip, half);
      var n2, b, rb := ReadWindow(skip + half, limit - half);
      HalvesDone(table, fails, skip, limit, n1, a, ra, n2, b, rb);
      n, recs, issued := n1 + n2, a + b, [Read(skip, limit, false)] + ra + rb;
      Regroup(old(out), a, b);
      Regroup(old(skipped), Skips(a), Skips(b));
      Regroup(old(log), ra, rb);
      Regroup([Read(skip, limit, false)], ra, rb);
      assert issued[1..] == ra + rb;
    }

    /** Emit every row of a successful read. */
    method Emit(rows: seq<Row>) returns (ghost recs: seq<Record>)
      modifies this`out
      ensures recs == AllWritten(rows) && out == old(out) + recs
    {
      recs := AllWritten(rows);
      for r := 0 to |rows|
        invariant out == old(out) + recs[..r]
      {
        out := out + [Written(rows[r])];
      }
      assert recs[..|rows|] == recs;
    }

    /** One paging loop of `main`: every offset of the table gets exactly one record, in order. */
    method ExportAll(batch: nat) returns (written: nat, ghost recs: seq<Record>, ghost issued: seq<Read>)
      requires batch >= 1
      modifies this
      ensures out == old(out) + recs && skipped == old(skipped) + Skips(recs) && log == old(log) + issued
      ensures Accounts(table, 0, |table|, recs) && Justified(0, recs, issued)
      ensures written + |Skips(recs)| == |table|
      ensures ExportedAtCost(table, fails, batch, recs, issued)
    {
      var total := |table|;
      var skip := 0;
      written, recs, issued := 0, [], [];
      while skip < total
        invariant out == old(out) + recs && skipped == old(skipped) + Skips(recs) && log == old(log) + issued
        invariant skip <= total && written + |Skips(recs)| == skip
        invariant Paged(table, fails, batch, skip, recs, issued)
        decreases total - skip
      {
        var limit := if batch < total - skip then batch else total - skip;
        ghost var a, ra;
        var n;
        n, a, ra := ReadWindow(skip, limit);
        written := written + n;
        SkipsConcat(recs, a);
        PagedStep(table, fails, batch, skip, limit, recs, a, issued, ra);
        Regroup(old(out), recs, a);
        Regroup(old(skipped), Skips(recs), Skips(a));
        Regroup(old(log), issued, ra);
        recs, issued := recs + a, issued + ra;
        skip := skip + limit;
      }
    }
  }

  /** When reads fail because of bad rows, exactly those are skipped, at exactly the stated cost. */
  ghost predicate ExportedAtCost(table: seq<Row>, fails: (nat, nat, nat) -> bool, batch: nat,
                                 recs: seq<Record>, issued: seq<Read>)
    requires batch >= 1
  {
    forall bad :: FailsIffBad(fails, bad) ==>
      SkipsAreBad(bad, 0, recs) && |issued| == ExportCost(bad, 0, |table|, batch)
  }

  /** What the paging loop has established up to `skip`. */
  ghost predicate Paged(table: seq<Row>, fails: (nat, nat, nat) -> bool, batch: nat, skip: nat,
                        recs: seq<Record>, issued: seq<Read>)
    requires batch >= 1
  {
    && Accounts(table, 0, skip, recs) && Justified(0, recs, issued)
    && forall bad :: FailsIffBad(fails, bad) ==>
         SkipsAreBad(bad, 0, recs)
         && |issued| + ExportCost(bad, skip, |table|, batch) == ExportCost(bad, 0, |table|, batch)
  }

  lemma {:induction false} PagedStep(table: seq<Row>, fails: (nat, nat, nat) -> bool, batch: nat, skip: nat, limit: nat,
                  recs: seq<Record>, a: seq<Record>, issued: seq<Read>, ra: seq<Read>)
    requires batch >= 1 && skip < |table| && limit == if batch < |table| - skip then batch else |table| - skip
    requires Paged(table, fails, batch, skip, recs, issued)
    requires Accounts(table, skip, limit, a) && Justified(skip, a, ra)
    requires forall bad :: FailsIffBad(fails, bad) ==> |ra| == Cost(bad, skip, limit) && SkipsAreBad(bad, skip, a)
    ensures Paged(table, fails, batch, skip + limit, recs + a, issued + ra)
  {
  }

  lemma {:induction false} Regroup<T>(a: seq<T>, b: seq<T>, c: seq<T>)
    ensures a + b + c == a + (b + c)
  {
  }

  ghost function AllWritten(rows: seq<Row>): seq<Record> {
    seq(|rows|, j requires 0 <= j < |rows| => Written(rows[j]))
  }

  /** What one call of `_read_window` establishes: a full account, each entry justified by the reads
      issued, and, for failures caused by bad rows, exactly those skipped at the stated cost. */
  ghost predicate WindowDone(table: seq<Row>, fails: (nat, nat, nat) -> bool, skip: nat, limit: nat,
                             n: nat, recs: seq<Record>, issued: seq<Read>)
    requires limit >= 1
  {
    && Accounts(table, skip, limit, recs) && Justified(skip, recs, issued)
    && n + |Skips(recs)| == limit
    && forall bad :: FailsIffBad(fails, bad) ==> |issued| == Cost(bad, skip, limit) && SkipsAreBad(bad, skip, recs)
  }

  lemma {:induction false} CleanDone(table: seq<Row>, fails: (nat, nat, nat) -> bool, skip: nat, limit: nat)
    requires limit >= 1 && skip + limit <= |table| && exists call: nat :: !fails(call, skip, limit)
    ensures WindowDone(table, fails, skip, limit, limit, AllWritten(table[skip..skip + limit]), [Read(skip, limit, true)])
    ensures Skips(AllWritten(table[skip..skip + limit])) == []
  {
    var recs, issued := AllWritten(table[skip..skip + limit]), [Read(skip, limit, true)];
    SkipsOfWritten(recs);
    assert Read(skip, limit, true) in issued;
    assert forall o :: skip <= o < skip + limit ==> Delivered(o, issued);
    forall bad | FailsIffBad(fails, bad) ensures BadIn(bad, skip, limit) == {} && SkipsAreBad(bad, skip, recs) {
      forall o | skip <= o < skip + limit ensures o !in bad {
        assert o !in BadIn(bad, skip, limit);
      }
    }
  }

  lemma {:induction false} HalvesDone(table: seq<Row>, fails: (nat, nat, nat) -> bool, skip: nat, limit: nat,
                   n: nat, a: seq<Record>, ra: seq<Read>, m: nat, b: seq<Record>, rb: seq<Read>)
    requires limit >= 2 && exists call: nat :: fails(call, skip, limit)
    requires WindowDone(table, fails, skip, limit / 2, n, a, ra)
    requires WindowDone(table, fails, skip + limit / 2, limit - limit / 2, m, b, rb)
    ensures WindowDone(table, fails, skip, limit, n + m, a + b, [Read(skip, limit, false)] + ra + rb)
    ensures Skips(a + b) == Skips(a) + Skips(b)
  {
    var half, first := limit / 2, Read(skip, limit, false);
    SkipsConcat(a, b);
    HalvesAccount(table, skip, half, limit, a, b, ra, rb, first);
    forall bad | FailsIffBad(fails, bad)
      ensures |[first] + ra + rb| == Cost(bad, skip, limit) && SkipsAreBad(bad, skip, a + b)
    {
      assert BadIn(bad, skip, limit) != {};
      HalvesSkip(bad, skip, half, a, b);
    }
  }

  lemma {:induction false} HalvesSkip(bad: set<nat>, skip: nat, half: nat, a: seq<Record>, b: seq<Record>)
    requires |a| == half && SkipsAreBad(bad, skip, a) && SkipsAreBad(bad, skip + half, b)
    ensures SkipsAreBad(bad, skip, a + b)
  {
  }

  /** `main`: the exit code, and whether the pagination-gap warning is printed. */
  method ExportGraph(nodes: Exporter, rels: Exporter, batch: nat) returns (code: int, gapWarning: bool)
    requires batch >= 1 && nodes != rels
    requires nodes.out == nodes.skipped == [] && rels.out == rels.skipped == []
    modifies nodes, rels
    ensures |nodes.out| == |nodes.table| && |rels.out| == |rels.table|
    ensures Accounts(nodes.table, 0, |nodes.table|, nodes.out) && Accounts(rels.table, 0, |rels.table|, rels.out)
    ensures code == 0 <==> (forall r :: r in nodes.out + rels.out ==> r.Written?)
    ensures !gapWarning
  {
    var nodesWritten, nodeRecs, nodeReads := nodes.ExportAll(batch);
    var relsWritten, relRecs, relReads := rels.ExportAll(batch);
    assert nodes.out == nodeRecs && rels.out == relRecs;
    NoSkipsInEither(nodeRecs, relRecs);
    var complete := nodes.skipped == [] && rels.skipped == [];
    assert complete <==> Skips(nodeRecs) == [] && Skips(relRecs) == [];
    gapWarning := complete && (nodesWritten != |nodes.table| || relsWritten != |rels.table|);
    code := if complete && !gapWarning then 0 else 1;
  }

  lemma {:induction false} NoSkipsInEither(a: seq<Record>, b: seq<Record>)
    ensures Skips(a) == [] && Skips(b) == [] <==> forall r :: r in a + b ==> r.Written?
  {
    NoSkips(a);
    NoSkips(b);
    assert forall r :: r in a + b <==> r in a || r in b;
  }

  lemma {:induction false} NoSkips(recs: seq<Record>)
    ensures Skips(recs) == [] <==> forall r :: r in recs ==> r.Written?
  {
    if recs != [] {
      var init, last := recs[..|recs| - 1], recs[|recs| - 1];
      NoSkips(init);
      assert forall r :: r in recs <==> r in init || r == last;
      assert last in recs;
      assert |Skips(recs)| == |Skips(init)| + if last.Skipped? then 1 else 0;
    }
  }
}
