/** Restoring conversation-time `valid_at` from a fixture, with a backup and a revert
    (scripts/repair_lme_valid_at.py, lines 63-131). Times are whole seconds. */
module ValidAtRepair {
  import opened Common

  /** An episode node: `session` is the fixture session id its name carries, `backup` the property
      `valid_at_ingest_original`. */
  datatype Episode = Episode(group: Option<string>, session: Option<string>, validAt: Option<int>, backup: Option<int>)

  type Corpus = map<string, Episode>

  type Fixture = map<string, int>

  datatype Update = Update(uuid: string, target: int)

  predicate InScope(e: Episode, prefix: string) {
    e.group.Some? && prefix <= e.group.value
  }

  predicate Close(stored: Option<int>, target: int) {
    stored.Some? && -60 < stored.value - target < 60
  }

  /** The fixture names the episode's session. */
  predicate Covered(e: Episode, prefix: string, times: Fixture) {
    InScope(e, prefix) && e.session.Some? && e.session.value in times
  }

  predicate NeedsRepair(e: Episode, prefix: string, times: Fixture) {
    Covered(e, prefix, times) && !Close(e.validAt, times[e.session.value])
  }

  /** `SET backup = coalesce(backup, valid_at), valid_at = target`. */
  function Write(e: Episode, target: int): Episode {
    e.(backup := if e.backup.Some? then e.backup else e.validAt, validAt := Some(target))
  }

  function Applied(corpus: Corpus, prefix: string, times: Fixture): Corpus {
    map u | u in corpus :: if NeedsRepair(corpus[u], prefix, times) then Write(corpus[u], times[corpus[u].session.value]) else corpus[u]
  }

  function RevertedEpisode(e: Episode, prefix: string): Episode {
    if InScope(e, prefix) && e.backup.Some? then e.(validAt := e.backup, backup := None) else e
  }

  function Reverted(corpus: Corpus, prefix: string): Corpus {
    map u | u in corpus :: RevertedEpisode(corpus[u], prefix)
  }

  function Scope(corpus: Corpus, prefix: string): set<string> {
    set u | u in corpus && InScope(corpus[u], prefix)
  }

  datatype Tally = Tally(noSession: nat, notInFixture: nat, alreadyCorrect: nat, repair: nat)

  // ----- the script over a database ----------------------------------------------------------

  /** The corpus as it was before any repair: a backup holds the original time. */
  function Original(corpus: Corpus): Corpus {
    map u | u in corpus :: if corpus[u].backup.Some? then corpus[u].(validAt := corpus[u].backup, backup := None) else corpus[u]
  }

  /** The episode is its original up to time and backup, and a dated original can be got back. */
  predicate Recoverable(e: Episode, original: Episode) {
    && e.group == original.group && e.session == original.session && original.backup.None?
    && (original.validAt.Some? ==> (e.backup.None? && e.validAt == original.validAt) || e.backup == original.validAt)
  }

  ghost predicate AllRecoverable(corpus: Corpus, original: Corpus) {
    corpus.Keys == original.Keys && forall u :: u in corpus ==> Recoverable(corpus[u], original[u])
  }

  class Database {
    var episodes: Corpus
    ghost const original: Corpus

    constructor (episodes: Corpus)
      ensures this.episodes == episodes && original == Original(episodes) && Valid()
    {
      this.episodes := episodes;
      original := Original(episodes);
    }

    ghost predicate Valid()
      reads this
    {
      AllRecoverable(episodes, original)
    }

    /** The planning loop: which episodes need which time. It writes nothing. */
    method Plan(prefix: string, times: Fixture) returns (updates: seq<Update>, tally: Tally)
      ensures PlansExactly(episodes, prefix, times, updates)
      ensures tally.repair == |updates|
      ensures tally.noSession + tally.notInFixture + tally.alreadyCorrect + tally.repair
           == |Scope(episodes, prefix)|
    {
      updates, tally := [], Tally(0, 0, 0, 0);
      var rows := Scope(episodes, prefix);
      ghost var done: set<string> := {};
      while rows != {}
        invariant rows !! done && rows + done == Scope(episodes, prefix)
        invariant PlansSoFar(episodes, prefix, times, done, updates)
        invariant tally.repair == |updates|
        invariant tally.noSession + tally.notInFixture + tally.alreadyCorrect + tally.repair == |done|
        decreases rows
      {
        var u :| u in rows;
        PlanStep(episodes, prefix, times, done, updates, u);
        rows := rows - {u};
        done := done + {u};
        var e := episodes[u];
        if e.session.None? {
          tally := tally.(noSession := tally.noSession + 1);
        } else if e.session.value !in times {
          tally := tally.(notInFixture := tally.notInFixture + 1);
        } else if Close(e.validAt, times[e.session.value]) {
          tally := tally.(alreadyCorrect := tally.alreadyCorrect + 1);
        } else {
          tally := tally.(repair := tally.repair + 1);
          updates := updates + [Update(u, times[e.session.value])];
        }
      }
      ScopeIsEnough(episodes, prefix, times, done, updates);
    }

    /** `--apply`: plan, then write in batches of `batch` rows. The batches make no difference. */
    method Apply(prefix: string, times: Fixture, batch: nat) returns (updates: seq<Update>)
      requires Valid() && batch >= 1
      modifies this
      ensures Valid() && episodes == Applied(old(episodes), prefix, times)
      ensures PlansExactly(old(episodes), prefix, times, updates)
    {
      var tally;
      updates, tally := Plan(prefix, times);
      ghost var before := episodes;
      var i := 0;
      while i < |updates|
        invariant 0 <= i <= |updates|
        invariant episodes == WriteAll(before, updates[..i])
      {
        var end := if i + batch < |updates| then i + batch else |updates|;
        ghost var now := episodes;
        WriteBatch(updates[i..end]);
        BatchStep(before, updates, i, end, now);
        i := end;
      }
      assert updates[..|updates|] == updates;
      WriteAllIsApplied(before, prefix, times, updates);
      ApplyKeepsRecoverable(before, original, prefix, times);
    }

    /** One `UNWIND` statement: each row rewrites the episode with its uuid. */
    method WriteBatch(rows: seq<Update>)
      modifies this
      ensures episodes == WriteAll(old(episodes), rows)
    {
      for i := 0 to |rows|
        invariant episodes == WriteAll(old(episodes), rows[..i])
      {
        assert rows[..i + 1][..i] == rows[..i];
        if rows[i].uuid in episodes {
          episodes := episodes[rows[i].uuid := Write(episodes[rows[i].uuid], rows[i].target)];
        }
      }
      assert rows[..|rows|] == rows;
    }

    /** `--revert`: in scope every dated episode is its original again and no backup is left; out of scope,
        and where there was no backup, nothing changes. */
    method Revert(prefix: string) returns (n: nat)
      requires Valid()
      modifies this
      ensures Valid() && episodes == Reverted(old(episodes), prefix)
      ensures forall u :: u in episodes && InScope(episodes[u], prefix) ==>
                episodes[u].backup.None? && (original[u].validAt.Some? ==> episodes[u] == original[u])
      ensures forall u :: u in episodes && (!InScope(episodes[u], prefix) || old(episodes)[u].backup.None?) ==>
                episodes[u] == old(episodes)[u]
      ensures n == |set u | u in old(episodes) && episodes[u] != old(episodes)[u]|
    {
      var reverted := set u | u in episodes && InScope(episodes[u], prefix) && episodes[u].backup.Some?;
      n := |reverted|;
      ghost var before := episodes;
      episodes := map u | u in episodes ::
        if InScope(episodes[u], prefix) && episodes[u].backup.Some?
        then episodes[u].(validAt := episodes[u].backup, backup := None)
        else episodes[u];
      assert reverted == set u | u in before && episodes[u] != before[u];
    }
  }

  // ----- the plan ----------------------------------------------------------------------------

  /** One update per visited episode that needs repair, with its fixture time; no others. */
  ghost predicate PlansSoFar(corpus: Corpus, prefix: string, times: Fixture, done: set<string>, updates: seq<Update>) {
    && (forall i :: 0 <= i < |updates| ==>
          var u := updates[i].uuid;
          u in done && u in corpus && NeedsRepair(corpus[u], prefix, times)
          && updates[i].target == times[corpus[u].session.value])
    && (forall i, j :: 0 <= i < j < |updates| ==> updates[i].uuid != updates[j].uuid)
    && (forall u :: u in done && u in corpus && NeedsRepair(corpus[u], prefix, times) ==>
          exists i :: 0 <= i < |updates| && updates[i].uuid == u)
  }

  lemma {:induction false} PlanStep(corpus: Corpus, prefix: string, times: Fixture, done: set<string>, updates: seq<Update>, u: string)
    requires PlansSoFar(corpus, prefix, times, done, updates) && u in corpus && u !in done
    ensures PlansSoFar(corpus, prefix, times, done + {u},
                       if NeedsRepair(corpus[u], prefix, times) then updates + [Update(u, times[corpus[u].session.value])]
                       else updates)
  {
    if NeedsRepair(corpus[u], prefix, times) {
      var next := updates + [Update(u, times[corpus[u].session.value])];
      forall v | v in done + {u} && v in corpus && NeedsRepair(corpus[v], prefix, times)
        ensures exists i :: 0 <= i < |next| && next[i].uuid == v
      {
        if v == u {
          assert next[|updates|].uuid == v;
        } else {
          var i :| 0 <= i < |updates| && updates[i].uuid == v;
          assert next[i].uuid == v;
        }
      }
    }
  }

  /** Episodes out of scope need no repair, so visiting those in scope is enough. */
  lemma {:induction false} ScopeIsEnough(corpus: Corpus, prefix: string, times: Fixture, done: set<string>, updates: seq<Update>)
    requires PlansSoFar(corpus, prefix, times, done, updates) && done == Scope(corpus, prefix)
    ensures PlansExactly(corpus, prefix, times, updates)
  {
  }

  ghost predicate PlansExactly(corpus: Corpus, prefix: string, times: Fixture, updates: seq<Update>) {
    PlansSoFar(corpus, prefix, times, corpus.Keys, updates)
  }

  ghost function WriteAll(corpus: Corpus, updates: seq<Update>): Corpus {
    if updates == [] then corpus
    else
      var prev := WriteAll(corpus, updates[..|updates| - 1]);
      var row := updates[|updates| - 1];
      if row.uuid in prev then prev[row.uuid := Write(prev[row.uuid], row.target)] else prev
  }

  lemma {:induction false} WriteAllConcat(corpus: Corpus, a: seq<Update>, b: seq<Update>)
    ensures WriteAll(corpus, a + b) == WriteAll(WriteAll(corpus, a), b)
  {
    if b == [] {
      assert a + b == a;
    } else {
      assert (a + b)[..|a + b| - 1] == a + b[..|b| - 1];
      WriteAllConcat(corpus, a, b[..|b| - 1]);
    }
  }

  lemma {:induction false} BatchStep(corpus: Corpus, updates: seq<Update>, i: nat, end: nat, now: Corpus)
    requires i <= end <= |updates| && now == WriteAll(corpus, updates[..i])
    ensures WriteAll(now, updates[i..end]) == WriteAll(corpus, updates[..end])
  {
    WriteAllConcat(corpus, updates[..i], updates[i..end]);
    assert updates[..i] + updates[i..end] == updates[..end];
  }

  lemma {:induction false} ApplyKeepsRecoverable(corpus: Corpus, original: Corpus, prefix: string, times: Fixture)
    requires AllRecoverable(corpus, original)
    ensures AllRecoverable(Applied(corpus, prefix, times), original)
  {
  }

  /** With distinct uuids each episode is written at most once, so order and batches are immaterial. */
  lemma {:induction false} WriteAllOnce(corpus: Corpus, updates: seq<Update>, n: nat)
    requires n <= |updates| && forall i, j :: 0 <= i < j < |updates| ==> updates[i].uuid != updates[j].uuid
    requires forall i :: 0 <= i < |updates| ==> updates[i].uuid in corpus
    ensures var after := WriteAll(corpus, updates[..n]);
            && after.Keys == corpus.Keys
            && (forall i :: 0 <= i < n ==> after[updates[i].uuid] == Write(corpus[updates[i].uuid], updates[i].target))
            && (forall u :: u in corpus && (forall i :: 0 <= i < n ==> updates[i].uuid != u) ==> after[u] == corpus[u])
  {
    if n > 0 {
      assert updates[..n][..n - 1] == updates[..n - 1];
      WriteAllOnce(corpus, updates, n - 1);
    }
  }

  lemma {:induction false} WriteAllIsApplied(corpus: Corpus, prefix: string, times: Fixture, updates: seq<Update>)
    requires PlansExactly(corpus, prefix, times, updates)
    ensures WriteAll(corpus, updates) == Applied(corpus, prefix, times)
  {
    WriteAllOnce(corpus, updates, |updates|);
    assert updates[..|updates|] == updates;
    var after := WriteAll(corpus, updates);
    forall u | u in corpus ensures after[u] == Applied(corpus, prefix, times)[u] {
      if NeedsRepair(corpus[u], prefix, times) {
        var i :| 0 <= i < |updates| && updates[i].uuid == u;
      }
    }
  }

  // ----- idempotence and reversibility -------------------------------------------------------

  /** A second apply on the same fixture changes nothing: no episode is planned. */
  lemma {:induction false} ApplyIsIdempotent(corpus: Corpus, prefix: string, times: Fixture, updates: seq<Update>)
    ensures Applied(Applied(corpus, prefix, times), prefix, times) == Applied(corpus, prefix, times)
    ensures PlansExactly(Applied(corpus, prefix, times), prefix, times, updates) <==> updates == []
  {
    var once := Applied(corpus, prefix, times);
    forall u | u in once ensures !NeedsRepair(once[u], prefix, times) {
    }
    if updates != [] {
      var u := updates[0].uuid;
      assert !(u in once && NeedsRepair(once[u], prefix, times));
    }
  }

  /** A maintenance action: an apply with some prefix and fixture, or a revert. */
  datatype Action = Apply(prefix: string, times: Fixture) | Revert(prefix: string)

  function Act(corpus: Corpus, a: Action): Corpus {
    match a
    case Apply(prefix, times) => Applied(corpus, prefix, times)
    case Revert(prefix) => Reverted(corpus, prefix)
  }

  function After(corpus: Corpus, actions: seq<Action>): Corpus {
    if actions == [] then corpus else Act(After(corpus, actions[..|actions| - 1]), actions[|actions| - 1])
  }

  /** Nothing but the time and its backup ever changes. */
  lemma {:induction false} IdentityKept(corpus: Corpus, actions: seq<Action>)
    ensures After(corpus, actions).Keys == corpus.Keys
    ensures forall u :: u in corpus ==> After(corpus, actions)[u].group == corpus[u].group
                                        && After(corpus, actions)[u].session == corpus[u].session
  {
    if actions != [] {
      IdentityKept(corpus, actions[..|actions| - 1]);
    }
  }

  /** The backup of a dated episode is either absent, with the original in place, or the original:
      under any run of applies and reverts, with any fixtures and prefixes. */
  lemma {:induction false} BackupNeverClobbered(corpus: Corpus, actions: seq<Action>, u: string)
    requires u in corpus && corpus[u].backup.None? && corpus[u].validAt.Some?
    ensures u in After(corpus, actions)
    ensures var e := After(corpus, actions)[u];
            (e.backup.None? && e.validAt == corpus[u].validAt) || e.backup == corpus[u].validAt
  {
    IdentityKept(corpus, actions);
    if actions != [] {
      BackupNeverClobbered(corpus, actions[..|actions| - 1], u);
    }
  }

  ghost predicate AppliesOnly(actions: seq<Action>) {
    forall i :: 0 <= i < |actions| ==> actions[i].Apply?
  }

  /** Some apply of the run covers the episode. */
  ghost predicate EverCovered(e: Episode, actions: seq<Action>) {
    exists i :: 0 <= i < |actions| && actions[i].Apply? && Covered(e, actions[i].prefix, actions[i].times)
  }

  /** An undated episode gets a date from the first apply that covers it, and no backup then. */
  lemma {:induction false} UndatedGetsADate(corpus: Corpus, actions: seq<Action>, u: string)
    requires u in corpus && corpus[u].backup.None? && corpus[u].validAt.None? && AppliesOnly(actions)
    ensures u in After(corpus, actions)
    ensures After(corpus, actions)[u] == corpus[u] <==> !EverCovered(corpus[u], actions)
    ensures EverCovered(corpus[u], actions) ==> After(corpus, actions)[u].validAt.Some?
  {
    IdentityKept(corpus, actions);
    if actions != [] {
      var init, last := actions[..|actions| - 1], actions[|actions| - 1];
      UndatedGetsADate(corpus, init, u);
      IdentityKept(corpus, init);
      if EverCovered(corpus[u], init) {
        var i :| 0 <= i < |init| && init[i].Apply? && Covered(corpus[u], init[i].prefix, init[i].times);
        assert actions[i] == init[i];
      } else if Covered(corpus[u], last.prefix, last.times) {
        assert actions[|actions| - 1] == last;
      } else {
        forall i | 0 <= i < |actions| ensures !Covered(corpus[u], actions[i].prefix, actions[i].times) {
          assert i < |init| ==> actions[i] == init[i];
        }
      }
    }
  }

  /** Exactly when revert restores an episode in its scope after any run of applies: it had a date to
      back up, or no apply covered it. The documented "restores the corpus exactly" fails for undated
      episodes that a fixture covers. */
  lemma {:induction false} RevertRestoresIff(corpus: Corpus, actions: seq<Action>, prefix: string, u: string)
    requires u in corpus && corpus[u].backup.None? && AppliesOnly(actions) && InScope(corpus[u], prefix)
    ensures u in Reverted(After(corpus, actions), prefix)
    ensures Reverted(After(corpus, actions), prefix)[u] == corpus[u] <==>
              corpus[u].validAt.Some? || !EverCovered(corpus[u], actions)
  {
    IdentityKept(corpus, actions);
    if corpus[u].validAt.Some? {
      BackupNeverClobbered(corpus, actions, u);
    } else {
      UndatedGetsADate(corpus, actions, u);
    }
  }

  /** One undated episode, one apply, one revert: the episode keeps the fixture's time. */
  lemma {:induction false} UndatedIsNotRestored()
    ensures var corpus := map["u" := Episode(Some("lme"), Some("s"), None, None)];
            var actions := [Apply("lme", map["s" := 3])];
            "u" in Reverted(After(corpus, actions), "lme")
            && Reverted(After(corpus, actions), "lme")["u"].validAt == Some(3)
  {
    var corpus := map["u" := Episode(Some("lme"), Some("s"), None, None)];
    var actions := [Apply("lme", map["s" := 3])];
    assert actions[..|actions| - 1] == [];
    assert After(corpus, actions) == Act(After(corpus, []), actions[0]);
  }

  /** A dated episode is restored after any run at all, earlier reverts included. */
  lemma {:induction false} RevertRestoresDated(corpus: Corpus, actions: seq<Action>, prefix: string, u: string)
    requires u in corpus && corpus[u].backup.None? && corpus[u].validAt.Some? && InScope(corpus[u], prefix)
    ensures u in Reverted(After(corpus, actions), prefix)
    ensures Reverted(After(corpus, actions), prefix)[u] == corpus[u]
  {
    IdentityKept(corpus, actions);
    BackupNeverClobbered(corpus, actions, u);
  }
}
