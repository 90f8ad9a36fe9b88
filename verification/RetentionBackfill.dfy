/** Reviewed backfill of source links: inventory, review, transactional apply, exact verification
    (scripts/backfill_legacy_retention.py). A digest is modelled by the inventory it digests. */
module RetentionBackfill {
  import opened Common

  datatype Outcome<+T> = Ok(value: T) | Refused

  datatype Episode = Episode(name: Option<string>, state: Option<string>, resolved: Option<string>,
                             namespace: Option<string>, group: Option<string>,
                             content: Option<string>, createdAt: Option<int>)

  datatype Entity = Entity(namespace: Option<string>, group: Option<string>, role: Option<string>,
                           projection: bool, legacyStructural: bool, mergeAudits: nat)

  datatype FlagRow = FlagRow(uuid: Option<string>, columns: string)

  /** A source episode and, if its Graphiti episode mentions any, one of the mentioned entities. */
  datatype Key = Key(source: string, entity: Option<string>)

  /** What the backfill never writes. `order` is the order in which the inventory query lists its
      candidates, which depends on uuids only. */
  datatype Base = Base(episodes: map<string, Episode>, entities: map<string, Entity>, mentions: set<(string, string)>,
                       flags: seq<FlagRow>, order: seq<Key>)

  /** RETENTION_SOURCE relationships with their `direct` property. */
  type Links = map<(string, string), Option<bool>>

  datatype Graph = Graph(base: Base, links: Links)

  // ----- the inventory -----------------------------------------------------------------------

  datatype Reason =
    | MissingBinding | SelfBinding | NotReady | MissingGraphitiEpisode | NameMismatch | ContentMismatch
    | ChronologyUntrusted | GraphitiTenantMismatch | NoMentionedEntity | EntityTenantMismatch
    | EvidenceProjection | StructuralEntity | MergeLineageUnknown | AlreadyLinked | ReviewRequired

  datatype SourceRow = SourceRow(key: Key, source: Episode, graphiti: Option<Episode>, entity: Option<Entity>,
                                 linked: bool, direct: Option<bool>, reason: Reason)

  predicate Truthy(s: Option<string>) {
    s.Some? && s.value != ""
  }

  function Tenant(namespace: Option<string>, group: Option<string>): string {
    var raw := if namespace.Some? then namespace else group;
    if raw == None || raw.value == "" || raw.value == "default" then "default" else raw.value
  }

  predicate ContentMatches(s: Episode, g: Episode) {
    s.content.Some? && s.content == g.content
  }

  predicate ChronologyValid(s: Episode, g: Episode) {
    s.createdAt.Some? && g.createdAt.Some? && s.createdAt.value <= g.createdAt.value
  }

  /** `_reason`, test by test. */
  function ReasonOf(key: Key, s: Episode, graphiti: Option<Episode>, entity: Option<Entity>, linked: bool): Reason {
    if key.source == "" || !Truthy(s.resolved) then MissingBinding
    else if key.source == s.resolved.value then SelfBinding
    else if s.state != Some("READY") then NotReady
    else if graphiti.None? then MissingGraphitiEpisode
    else
      var g := graphiti.value;
      if s.name != g.name then NameMismatch
      else if !ContentMatches(s, g) then ContentMismatch
      else if !ChronologyValid(s, g) then ChronologyUntrusted
      else if Tenant(s.namespace, s.group) != Tenant(g.namespace, g.group) then GraphitiTenantMismatch
      else if entity.None? || !Truthy(key.entity) then NoMentionedEntity
      else
        var e := entity.value;
        if Tenant(s.namespace, s.group) != Tenant(e.namespace, e.group) then EntityTenantMismatch
        else if e.projection then EvidenceProjection
        else if e.role.Some? || e.legacyStructural then StructuralEntity
        else if e.mergeAudits > 0 then MergeLineageUnknown
        else if linked then AlreadyLinked
        else ReviewRequired
  }

  /** The listed candidates: existing sources, their Graphiti episode, entities it mentions. */
  ghost predicate WellListed(base: Base) {
    && (forall i, j :: 0 <= i < j < |base.order| ==> base.order[i] != base.order[j])
    && (forall i :: 0 <= i < |base.order| ==> Listable(base, base.order[i]))
  }

  predicate Listable(base: Base, key: Key) {
    && key.source in base.episodes
    && (key.entity.Some? ==>
          var s := base.episodes[key.source];
          s.resolved.Some? && s.resolved.value in base.episodes && key.entity.value in base.entities
          && (s.resolved.value, key.entity.value) in base.mentions)
  }

  function RowOf(graph: Graph, key: Key): SourceRow
    requires Listable(graph.base, key)
  {
    var s := graph.base.episodes[key.source];
    var g := if s.resolved.Some? && s.resolved.value in graph.base.episodes
             then Some(graph.base.episodes[s.resolved.value]) else None;
    var e := if key.entity.Some? then Some(graph.base.entities[key.entity.value]) else None;
    var linked := key.entity.Some? && (key.source, key.entity.value) in graph.links;
    var direct := if linked then graph.links[(key.source, key.entity.value)] else None;
    SourceRow(key, s, g, e, linked, direct, ReasonOf(key, s, g, e, linked))
  }

  function Rows(graph: Graph): seq<SourceRow>
    requires WellListed(graph.base)
  {
    seq<SourceRow>(|graph.base.order|, i requires 0 <= i < |graph.base.order| => RowOf(graph, graph.base.order[i]))
  }

  predicate FlagsValid(flags: seq<FlagRow>) {
    && (forall i :: 0 <= i < |flags| ==> flags[i].uuid.Some?)
    && (forall i, j :: 0 <= i < j < |flags| ==> flags[i].uuid != flags[j].uuid)
  }

  datatype Inventory = Inventory(flags: seq<FlagRow>, sources: seq<SourceRow>)

  /** `_inventory`: the full census, or a refusal when it is truncated or ill-formed. */
  function Census(graph: Graph, limit: int): Outcome<Inventory>
    requires WellListed(graph.base)
  {
    if limit < 1 || |graph.base.flags| > limit || |graph.base.order| > limit || !FlagsValid(graph.base.flags) then Refused
    else Ok(Inventory(graph.base.flags, Rows(graph)))
  }

  // ----- the manifest ------------------------------------------------------------------------

  datatype Reviewed = Reviewed(row: SourceRow, decision: string, proof: string)

  datatype Manifest = Manifest(uri: string, database: string, digest: Inventory, flags: seq<FlagRow>, sources: seq<Reviewed>)

  function Planned(reviewed: seq<Reviewed>): seq<SourceRow> {
    seq(|reviewed|, i requires 0 <= i < |reviewed| => reviewed[i].row)
  }

  predicate DecisionsValid(reviewed: seq<Reviewed>) {
    forall i :: 0 <= i < |reviewed| ==>
      && reviewed[i].decision in {"UNREVIEWED", "SKIP", "APPROVE"}
      && (reviewed[i].decision == "APPROVE" ==> reviewed[i].row.reason == ReviewRequired && !Blank(reviewed[i].proof))
  }

  function ApprovedRows(reviewed: seq<Reviewed>): seq<SourceRow> {
    if reviewed == [] then []
    else
      var last := reviewed[|reviewed| - 1];
      ApprovedRows(reviewed[..|reviewed| - 1]) + if last.decision == "APPROVE" then [last.row] else []
  }

  /** `_approved`: the manifest is the live inventory plus valid decisions. */
  function Approve(graph: Graph, uri: string, database: string, m: Manifest, limit: int): Outcome<seq<SourceRow>>
    requires WellListed(graph.base)
  {
    var census := Census(graph, limit);
    if census.Refused? then Refused
    else if m.uri != uri || m.database != database || m.digest != census.value then Refused
    else if m.flags != census.value.flags || Planned(m.sources) != census.value.sources then Refused
    else if !DecisionsValid(m.sources) then Refused
    else Ok(ApprovedRows(m.sources))
  }

  /** The row an approved candidate must have become. */
  function Linked(row: SourceRow): SourceRow {
    row.(reason := AlreadyLinked, linked := true, direct := Some(true))
  }

  function ExpectedRows(reviewed: seq<Reviewed>): seq<SourceRow> {
    seq(|reviewed|, i requires 0 <= i < |reviewed| =>
      if reviewed[i].decision == "APPROVE" then Linked(reviewed[i].row) else reviewed[i].row)
  }

  predicate ApprovalsEligible(reviewed: seq<Reviewed>) {
    forall i :: 0 <= i < |reviewed| && reviewed[i].decision == "APPROVE" ==>
      reviewed[i].row.reason == ReviewRequired && !Blank(reviewed[i].proof)
  }

  /** `verify`: the graph is the manifest's inventory plus exactly the approved links. */
  function Verify(graph: Graph, uri: string, database: string, m: Manifest, limit: int): Outcome<nat>
    requires WellListed(graph.base)
  {
    if m.uri != uri || m.database != database || m.digest != Inventory(m.flags, Planned(m.sources)) then Refused
    else if !ApprovalsEligible(m.sources) then Refused
    else
      var census := Census(graph, limit);
      if census.Refused? then Refused
      else if census.value != Inventory(m.flags, ExpectedRows(m.sources)) then Refused
      else Ok(|ApprovedRows(m.sources)|)
  }

  // ----- the write ---------------------------------------------------------------------------

  /** The MATCH and WHERE of the write statement. A comparison with null never holds. */
  predicate WriteMatches(base: Base, source: string, graphiti: Option<string>, entity: Option<string>) {
    && source in base.episodes && graphiti.Some? && graphiti.value in base.episodes
    && entity.Some? && entity.value in base.entities && (graphiti.value, entity.value) in base.mentions
    && var s, g, e := base.episodes[source], base.episodes[graphiti.value], base.entities[entity.value];
       && s.resolved == graphiti && s.state == Some("READY")
       && s.name.Some? && s.name == g.name
       && ContentMatches(s, g) && ChronologyValid(s, g)
       && e.mergeAudits == 0 && e.role.None? && !e.projection && !e.legacyStructural
       && Tenant(s.namespace, s.group) == Tenant(g.namespace, g.group)
       && Tenant(s.namespace, s.group) == Tenant(e.namespace, e.group)
  }

  /** MERGE: an existing link keeps its `direct`, a new one is direct. */
  function Merge(links: Links, key: (string, string)): Links {
    if key in links then links else links[key := Some(true)]
  }

  /** One row's write is accepted: it matched, and the link is direct. */
  predicate WriteAccepted(graph: Graph, row: SourceRow) {
    WriteMatches(graph.base, row.key.source, row.source.resolved, row.key.entity)
    && Merge(graph.links, (row.key.source, row.key.entity.value))[(row.key.source, row.key.entity.value)] == Some(true)
  }

  function ApplyRow(graph: Graph, row: SourceRow): Outcome<Graph> {
    if WriteAccepted(graph, row)
    then Ok(graph.(links := Merge(graph.links, (row.key.source, row.key.entity.value))))
    else Refused
  }

  function ApplyRows(graph: Graph, rows: seq<SourceRow>): Outcome<Graph> {
    if rows == [] then Ok(graph)
    else
      var prev := ApplyRows(graph, rows[..|rows| - 1]);
      if prev.Refused? then Refused else ApplyRow(prev.value, rows[|rows| - 1])
  }

  class Store {
    var graph: Graph

    constructor (graph: Graph)
      ensures this.graph == graph
    {
      this.graph := graph;
    }

    /** `apply`: write the rows one by one; a refused candidate raises with the earlier links made. */
    method ApplyLinks(rows: seq<SourceRow>) returns (changed: Outcome<nat>)
      modifies this
      ensures changed.Ok? <==> ApplyRows(old(graph), rows).Ok?
      ensures changed.Ok? ==> graph == ApplyRows(old(graph), rows).value && changed.value == |rows|
    {
      for i := 0 to |rows|
        invariant ApplyRows(old(graph), rows[..i]) == Ok(graph)
      {
        assert rows[..i + 1][..i] == rows[..i];
        if !WriteAccepted(graph, rows[i]) {
          ApplyStops(old(graph), rows, i);
          return Refused;
        }
        graph := graph.(links := Merge(graph.links, (rows[i].key.source, rows[i].key.entity.value)));
      }
      assert rows[..|rows|] == rows;
      changed := Ok(|rows|);
    }

    /** The transaction of `main`: re-inventory, review and write together, or leave no link at all. */
    method Transact(uri: string, database: string, m: Manifest, limit: int) returns (changed: Outcome<nat>)
      requires WellListed(graph.base)
      modifies this
      ensures changed.Refused? ==> graph == old(graph)
      ensures changed.Ok? <==>
        Approve(old(graph), uri, database, m, limit).Ok?
        && ApplyRows(old(graph), ApprovedRows(m.sources)).Ok?
      ensures changed.Ok? ==>
        graph == ApplyRows(old(graph), ApprovedRows(m.sources)).value && changed.value == |ApprovedRows(m.sources)|
    {
      var approved := Approve(graph, uri, database, m, limit);
      if approved.Refused? {
        return Refused;
      }
      var snapshot := graph;
      changed := ApplyLinks(approved.value);
      if changed.Refused? {
        graph := snapshot;
      }
    }
  }

  lemma {:induction false} ApplyStops(graph: Graph, rows: seq<SourceRow>, i: nat)
    requires i < |rows| && ApplyRows(graph, rows[..i + 1]).Refused?
    ensures ApplyRows(graph, rows).Refused?
    decreases |rows|
  {
    if i + 1 == |rows| {
      assert rows[..i + 1] == rows;
    } else {
      assert rows[..|rows| - 1][..i + 1] == rows[..i + 1];
      ApplyStops(graph, rows[..|rows| - 1], i);
    }
  }

  // ----- review against write ----------------------------------------------------------------

  /** On an inventoried row that is ready for review, the write statement matches iff the source has
      a name: the review compares names in Python, where two missing names are equal, the write in
      Cypher, where they are not. */
  lemma {:induction false} ReviewedRowMatchesIffNamed(graph: Graph, key: Key)
    requires Listable(graph.base, key) && RowOf(graph, key).reason == ReviewRequired
    ensures var row := RowOf(graph, key);
            && row.key.entity.Some? && (key.source, row.key.entity.value) !in graph.links
            && (WriteMatches(graph.base, row.key.source, row.source.resolved, row.key.entity) <==> row.source.name.Some?)
  {
  }

  function PairOf(row: SourceRow): (string, string)
    requires row.key.entity.Some?
  {
    (row.key.source, row.key.entity.value)
  }

  ghost predicate AllPaired(rows: seq<SourceRow>) {
    forall i :: 0 <= i < |rows| ==> rows[i].key.entity.Some?
  }

  /** The links with one new direct link per row. */
  function AddLinks(links: Links, rows: seq<SourceRow>): Links
    requires AllPaired(rows)
  {
    if rows == [] then links else AddLinks(links, rows[..|rows| - 1])[PairOf(rows[|rows| - 1]) := Some(true)]
  }

  ghost predicate Approves(rows: seq<SourceRow>, k: (string, string))
    requires AllPaired(rows)
  {
    exists i :: 0 <= i < |rows| && PairOf(rows[i]) == k
  }

  lemma {:induction false} AddLinksHolds(links: Links, rows: seq<SourceRow>, k: (string, string))
    requires AllPaired(rows)
    ensures k in AddLinks(links, rows) <==> k in links || Approves(rows, k)
    ensures Approves(rows, k) ==> AddLinks(links, rows)[k] == Some(true)
    ensures k in links && !Approves(rows, k) ==> AddLinks(links, rows)[k] == links[k]
  {
    if rows != [] {
      var init, last := rows[..|rows| - 1], rows[|rows| - 1];
      AddLinksHolds(links, init, k);
      if Approves(init, k) {
        var i :| 0 <= i < |init| && PairOf(init[i]) == k;
        assert PairOf(rows[i]) == k;
      }
      if Approves(rows, k) && k != PairOf(last) {
        var i :| 0 <= i < |rows| && PairOf(rows[i]) == k;
        assert init[i] == rows[i];
      }
      assert k == PairOf(last) ==> PairOf(rows[|rows| - 1]) == k;
    }
  }

  /** Distinct reviewable rows of the graph's own inventory. */
  ghost predicate FromInventory(graph: Graph, rows: seq<SourceRow>) {
    && (forall i :: 0 <= i < |rows| ==> Reviewable(graph, rows[i]))
    && (forall i, j :: 0 <= i < j < |rows| ==> rows[i].key != rows[j].key)
  }

  ghost predicate Reviewable(graph: Graph, row: SourceRow) {
    Listable(graph.base, row.key) && row == RowOf(graph, row.key) && row.reason == ReviewRequired
  }

  lemma {:induction false} InventoryPaired(graph: Graph, rows: seq<SourceRow>)
    requires FromInventory(graph, rows)
    ensures AllPaired(rows)
  {
  }

  /** Links never enter the tests of another candidate, so the writes of reviewed rows are accepted
      iff every source has a name, and they then add exactly the approved direct links. */
  lemma {:induction false} ApplyAll(graph: Graph, rows: seq<SourceRow>)
    requires FromInventory(graph, rows)
    ensures AllPaired(rows)
    ensures ApplyRows(graph, rows).Ok? <==> forall i :: 0 <= i < |rows| ==> rows[i].source.name.Some?
    ensures ApplyRows(graph, rows).Ok? ==> ApplyRows(graph, rows).value == graph.(links := AddLinks(graph.links, rows))
  {
    InventoryPaired(graph, rows);
    if rows != [] {
      var init, last := rows[..|rows| - 1], rows[|rows| - 1];
      assert forall i :: 0 <= i < |init| ==> init[i] == rows[i];
      ApplyAll(graph, init);
      assert Reviewable(graph, last);
      ReviewedRowMatchesIffNamed(graph, last.key);
      AddLinksHolds(graph.links, init, PairOf(last));
      FreshPair(graph, rows);
    }
  }

  lemma {:induction false} FreshPair(graph: Graph, rows: seq<SourceRow>)
    requires FromInventory(graph, rows) && AllPaired(rows) && rows != []
    ensures AllPaired(rows[..|rows| - 1]) && !Approves(rows[..|rows| - 1], PairOf(rows[|rows| - 1]))
  {
  }

  // ----- the exact delta ---------------------------------------------------------------------

  lemma {:induction false} ApprovedIndex(reviewed: seq<Reviewed>, row: SourceRow)
    ensures row in ApprovedRows(reviewed) <==>
              exists i :: 0 <= i < |reviewed| && reviewed[i].decision == "APPROVE" && reviewed[i].row == row
  {
    if reviewed != [] {
      var init, last := reviewed[..|reviewed| - 1], reviewed[|reviewed| - 1];
      ApprovedIndex(init, row);
      if row in ApprovedRows(init) {
        var i :| 0 <= i < |init| && init[i].decision == "APPROVE" && init[i].row == row;
        assert reviewed[i] == init[i];
      }
      if i :| 0 <= i < |reviewed| && reviewed[i].decision == "APPROVE" && reviewed[i].row == row {
        assert i < |init| ==> init[i] == reviewed[i];
      }
    }
  }

  lemma {:induction false} ApprovedDistinct(reviewed: seq<Reviewed>)
    requires forall i, j :: 0 <= i < j < |reviewed| ==> reviewed[i].row.key != reviewed[j].row.key
    ensures var rows := ApprovedRows(reviewed);
            forall i, j :: 0 <= i < j < |rows| ==> rows[i].key != rows[j].key
  {
    if reviewed != [] {
      var init, last := reviewed[..|reviewed| - 1], reviewed[|reviewed| - 1];
      ApprovedDistinct(init);
      var rows := ApprovedRows(init);
      forall i | 0 <= i < |rows| ensures rows[i].key != last.row.key {
        ApprovedIndex(init, rows[i]);
        var j :| 0 <= j < |init| && init[j].decision == "APPROVE" && init[j].row == rows[i];
        assert reviewed[j] == init[j];
      }
    }
  }

  /** A manifest that passes review lists exactly the live inventory. */
  lemma {:induction false} ApprovedFromInventory(graph: Graph, uri: string, database: string, m: Manifest, limit: int)
    requires WellListed(graph.base) && Approve(graph, uri, database, m, limit).Ok?
    ensures FromInventory(graph, ApprovedRows(m.sources)) && Lists(graph, m.sources)
  {
    var order := graph.base.order;
    assert |Planned(m.sources)| == |Rows(graph)|;
    forall i | 0 <= i < |m.sources| ensures m.sources[i].row == RowOf(graph, order[i]) {
      assert Planned(m.sources)[i] == Rows(graph)[i];
    }
    ApprovedDistinct(m.sources);
    var rows := ApprovedRows(m.sources);
    forall i | 0 <= i < |rows| ensures Reviewable(graph, rows[i]) {
      ApprovedIndex(m.sources, rows[i]);
      var j :| 0 <= j < |m.sources| && m.sources[j].decision == "APPROVE" && m.sources[j].row == rows[i];
      assert m.sources[j].row == RowOf(graph, order[j]);
    }
  }

  /** The manifest lists the graph's inventory, row by row. */
  ghost predicate Lists(graph: Graph, reviewed: seq<Reviewed>)
    requires WellListed(graph.base)
  {
    && |reviewed| == |graph.base.order|
    && forall j :: 0 <= j < |reviewed| ==> reviewed[j].row == RowOf(graph, graph.base.order[j])
  }

  /** One listed row after the approved links were added. */
  lemma {:induction false} RowAfterApply(graph: Graph, reviewed: seq<Reviewed>, i: nat)
    requires WellListed(graph.base) && Lists(graph, reviewed) && i < |reviewed|
    requires FromInventory(graph, ApprovedRows(reviewed))
    ensures AllPaired(ApprovedRows(reviewed))
    ensures var after := graph.(links := AddLinks(graph.links, ApprovedRows(reviewed)));
            RowOf(after, graph.base.order[i]) == ExpectedRows(reviewed)[i]
  {
    var rows, key := ApprovedRows(reviewed), graph.base.order[i];
    InventoryPaired(graph, rows);
    var links := AddLinks(graph.links, rows);
    if reviewed[i].decision == "APPROVE" {
      ApprovedBecomesLinked(graph, reviewed, i, rows);
      RowLinked(graph, links, key);
    } else {
      if key.entity.Some? {
        OthersKeepTheirLink(graph, reviewed, i, rows);
      }
    }
  }

  lemma {:induction false} ApprovedBecomesLinked(graph: Graph, reviewed: seq<Reviewed>, i: nat, rows: seq<SourceRow>)
    requires WellListed(graph.base) && Lists(graph, reviewed) && i < |reviewed|
    requires rows == ApprovedRows(reviewed) && FromInventory(graph, rows) && AllPaired(rows)
    requires reviewed[i].decision == "APPROVE"
    ensures var key, links := graph.base.order[i], AddLinks(graph.links, rows);
            RowOf(graph, key).reason == ReviewRequired && key.entity.Some?
            && (key.source, key.entity.value) in links && links[(key.source, key.entity.value)] == Some(true)
  {
    ApprovedIndex(reviewed, reviewed[i].row);
    var n :| 0 <= n < |rows| && rows[n] == reviewed[i].row;
    assert Reviewable(graph, rows[n]);
    AddLinksHolds(graph.links, rows, PairOf(rows[n]));
  }

  lemma {:induction false} OthersKeepTheirLink(graph: Graph, reviewed: seq<Reviewed>, i: nat, rows: seq<SourceRow>)
    requires WellListed(graph.base) && Lists(graph, reviewed) && i < |reviewed|
    requires rows == ApprovedRows(reviewed) && AllPaired(rows)
    requires reviewed[i].decision != "APPROVE" && graph.base.order[i].entity.Some?
    ensures SameLink(graph.links, AddLinks(graph.links, rows), graph.base.order[i])
  {
    var key := graph.base.order[i];
    var pair := (key.source, key.entity.value);
    AddLinksHolds(graph.links, rows, pair);
    if Approves(rows, pair) {
      NotApprovedTwice(graph, reviewed, i, pair);
    }
  }

  ghost predicate SameLink(links: Links, after: Links, key: Key)
    requires key.entity.Some?
  {
    var pair := (key.source, key.entity.value);
    (pair in after <==> pair in links) && (pair in links ==> after[pair] == links[pair])
  }

  lemma {:induction false} RowLinked(graph: Graph, links: Links, key: Key)
    requires Listable(graph.base, key) && RowOf(graph, key).reason == ReviewRequired && key.entity.Some?
    requires (key.source, key.entity.value) in links && links[(key.source, key.entity.value)] == Some(true)
    ensures RowOf(graph.(links := links), key) == Linked(RowOf(graph, key))
  {
  }

  lemma {:induction false} NotApprovedTwice(graph: Graph, reviewed: seq<Reviewed>, i: nat, pair: (string, string))
    requires WellListed(graph.base) && Lists(graph, reviewed) && i < |reviewed|
    requires AllPaired(ApprovedRows(reviewed)) && Approves(ApprovedRows(reviewed), pair)
    requires reviewed[i].row.key == Key(pair.0, Some(pair.1))
    ensures reviewed[i].decision == "APPROVE"
  {
    var rows := ApprovedRows(reviewed);
    var n :| 0 <= n < |rows| && PairOf(rows[n]) == pair;
    ApprovedIndex(reviewed, rows[n]);
    var j :| 0 <= j < |reviewed| && reviewed[j].decision == "APPROVE" && reviewed[j].row == rows[n];
    assert graph.base.order[i] == graph.base.order[j];
  }

  /** Exactly when an approved manifest can be applied: every approved source has a name. Then
      verification accepts the graph with the number of approved rows: the approved rows became direct
      links and every other row and flag is as it was. Otherwise the graph is left without any link. */
  lemma {:induction false} ApplyThenVerify(graph: Graph, uri: string, database: string, m: Manifest, limit: int)
    requires WellListed(graph.base) && Approve(graph, uri, database, m, limit).Ok?
    ensures var rows := ApprovedRows(m.sources);
            var result := ApplyRows(graph, rows);
            && (result.Ok? <==> forall i :: 0 <= i < |rows| ==> rows[i].source.name.Some?)
            && (result.Ok? ==>
                  result.value.base == graph.base && Verify(result.value, uri, database, m, limit) == Ok(|rows|))
  {
    var rows := ApprovedRows(m.sources);
    ApprovedFromInventory(graph, uri, database, m, limit);
    ApplyAll(graph, rows);
    if ApplyRows(graph, rows).Ok? {
      var after := ApplyRows(graph, rows).value;
      forall i | 0 <= i < |m.sources| ensures Rows(after)[i] == ExpectedRows(m.sources)[i] {
        RowAfterApply(graph, m.sources, i);
      }
      assert Rows(after) == ExpectedRows(m.sources);
    }
  }

  /** A source and its Graphiti episode without names: reviewable, but refused at the write. */
  lemma {:induction false} NamelessCandidateIsRefusedAtWrite()
    ensures var s := Episode(None, Some("READY"), Some("g"), None, None, Some("text"), Some(1));
            var g := Episode(None, None, None, None, None, Some("text"), Some(2));
            var base := Base(map["s" := s, "g" := g], map["e" := Entity(None, None, None, false, false, 0)],
                             {("g", "e")}, [], [Key("s", Some("e"))]);
            var graph := Graph(base, map[]);
            && WellListed(base) && RowOf(graph, base.order[0]).reason == ReviewRequired
            && ApplyRows(graph, [RowOf(graph, base.order[0])]).Refused?
  {
  }
}
