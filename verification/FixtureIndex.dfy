/** The fixture's session times (scripts/repair_lme_scalar_source_times_planning.py, load_source_time_index). */
module FixtureIndex {
  import opened Common

  /** Session times by namespace and session id. */
  type Times = map<(string, string), int>

  /** One fixture row: its stripped question id, the number of sessions, the parsed dates (None when a date
      does not parse) and the session ids, possibly none at all. */
  datatype Item = Item(question: string, sessions: nat, dates: seq<Option<int>>, ids: seq<string>)

  datatype Slot = Slot(key: (string, string), date: Option<int>)

  function Digit(d: nat): char
    requires d < 10
  {
    "0123456789"[d]
  }

  function Decimal(n: nat): string {
    if n < 10 then [Digit(n)] else Decimal(n / 10) + [Digit(n % 10)]
  }

  predicate WellFormed(item: Item) {
    item.question != "" && item.sessions == |item.dates| && (item.ids != [] ==> |item.ids| == item.sessions)
  }

  /** A session without an id is named by its position. */
  function SessionId(namespace: string, item: Item, i: nat): string
    requires WellFormed(item) && i < |item.dates|
  {
    if item.ids != [] && item.ids[i] != "" then namespace + "-" + item.ids[i] else namespace + "-s" + Decimal(i)
  }

  function SlotAt(prefix: string, item: Item, i: nat): Slot
    requires WellFormed(item) && i < |item.dates|
  {
    var namespace := prefix + item.question;
    Slot((namespace, SessionId(namespace, item, i)), item.dates[i])
  }

  function ItemSlots(prefix: string, item: Item): seq<Slot>
    requires WellFormed(item)
  {
    seq(|item.dates|, i requires 0 <= i < |item.dates| => SlotAt(prefix, item, i))
  }

  ghost predicate AllWellFormed(items: seq<Item>) {
    forall i :: 0 <= i < |items| ==> WellFormed(items[i])
  }

  function Slots(prefix: string, items: seq<Item>): seq<Slot>
    requires AllWellFormed(items)
  {
    if items == [] then [] else Slots(prefix, items[..|items| - 1]) + ItemSlots(prefix, items[|items| - 1])
  }

  ghost predicate Dated(slots: seq<Slot>) {
    forall i :: 0 <= i < |slots| ==> slots[i].date.Some?
  }

  ghost predicate Agreeing(slots: seq<Slot>) {
    forall i, j :: 0 <= i < j < |slots| && slots[i].key == slots[j].key ==> slots[i].date == slots[j].date
  }

  ghost predicate Indexes(times: Times, slots: seq<Slot>) {
    && (forall i :: 0 <= i < |slots| ==> slots[i].key in times && slots[i].date == Some(times[slots[i].key]))
    && (forall k :: k in times ==> exists i :: 0 <= i < |slots| && slots[i].key == k)
  }

  /** Every check the loader makes before it returns an index. */
  ghost predicate Loadable(prefix: string, items: seq<Item>) {
    && !Blank(prefix) && AllWellFormed(items)
    && Slots(prefix, items) != [] && Dated(Slots(prefix, items)) && Agreeing(Slots(prefix, items))
  }

  /** The sessions of one fixture row, added to the index until a check fails. */
  method AddItem(prefix: string, item: Item, times: Times, ghost before: seq<Slot>) returns (index: Option<Times>)
    requires WellFormed(item) && Progress(times, before)
    ensures var all := before + ItemSlots(prefix, item);
            && (index.Some? <==> Dated(all) && Agreeing(all))
            && (index.Some? ==> Progress(index.value, all))
  {
    var namespace := prefix + item.question;
    var more := times;
    ghost var own := ItemSlots(prefix, item);
    assert before + own[..0] == before;
    for i := 0 to |item.dates|
      invariant Progress(more, before + own[..i])
    {
      var key := (namespace, SessionId(namespace, item, i));
      assert own[i] == Slot(key, item.dates[i]);
      if item.dates[i].None? || (key in more && more[key] != item.dates[i].value) {
        Refutes(more, before, own, i);
        return None;
      }
      Extends(more, before + own[..i], own[i]);
      assert before + own[..i + 1] == before + own[..i] + [own[i]];
      more := more[key := item.dates[i].value];
    }
    assert own[..|own|] == own;
    index := Some(more);
  }

  /** `load_source_time_index`: an index iff the fixture is well-formed, every date parses and no session key
      is listed with two dates; the index then holds exactly the listed sessions. */
  method LoadIndex(prefix: string, items: seq<Item>) returns (index: Option<Times>)
    ensures index.Some? <==> Loadable(prefix, items)
    ensures index.Some? ==> Indexes(index.value, Slots(prefix, items))
  {
    if Blank(prefix) || items == [] {
      return None;
    }
    var times: Times := map[];
    for n := 0 to |items|
      invariant AllWellFormed(items[..n])
      invariant Progress(times, Slots(prefix, items[..n]))
    {
      if !WellFormed(items[n]) {
        return None;
      }
      SlotsStep(prefix, items, n);
      var more := AddItem(prefix, items[n], times, Slots(prefix, items[..n]));
      if more.None? {
        NotLoadable(prefix, items, n + 1);
        return None;
      }
      times := more.value;
    }
    assert items[..|items|] == items;
    EmptyTogether(times, Slots(prefix, items));
    index := if times == map[] then None else Some(times);
  }

  lemma {:induction false} SlotsStep(prefix: string, items: seq<Item>, n: nat)
    requires n < |items| && AllWellFormed(items[..n]) && WellFormed(items[n])
    ensures AllWellFormed(items[..n + 1])
    ensures Slots(prefix, items[..n + 1]) == Slots(prefix, items[..n]) + ItemSlots(prefix, items[n])
  {
    assert items[..n + 1][..n] == items[..n];
    assert forall i :: 0 <= i < n ==> items[..n + 1][i] == items[..n][i];
  }

  lemma {:induction false} NotLoadable(prefix: string, items: seq<Item>, n: nat)
    requires n <= |items| && AllWellFormed(items[..n])
    requires !(Dated(Slots(prefix, items[..n])) && Agreeing(Slots(prefix, items[..n])))
    ensures !Loadable(prefix, items)
  {
    if AllWellFormed(items) {
      var slots := Slots(prefix, items[..n]);
      SlotsPrefix(prefix, items, n);
      assert Slots(prefix, items)[..|slots|] == slots;
      PrefixRefutes(Slots(prefix, items), |slots|);
    }
  }

  lemma {:induction false} EmptyTogether(times: Times, slots: seq<Slot>)
    requires Indexes(times, slots)
    ensures times == map[] <==> slots == []
  {
    assert slots != [] ==> slots[0].key in times;
    assert times != map[] ==> exists k :: k in times;
  }

  ghost predicate Progress(times: Times, slots: seq<Slot>) {
    Indexes(times, slots) && Dated(slots) && Agreeing(slots)
  }

  lemma {:induction false} Refutes(times: Times, before: seq<Slot>, own: seq<Slot>, i: nat)
    requires i < |own| && Progress(times, before + own[..i])
    requires own[i].date.None? || (own[i].key in times && Some(times[own[i].key]) != own[i].date)
    ensures !(Dated(before + own) && Agreeing(before + own))
  {
    var all, done := before + own, before + own[..i];
    assert all[|done|] == own[i];
    if own[i].date.Some? {
      var k :| 0 <= k < |done| && done[k].key == own[i].key;
      assert all[k] == done[k];
    }
  }

  lemma {:induction false} PrefixRefutes(slots: seq<Slot>, n: nat)
    requires n <= |slots| && !(Dated(slots[..n]) && Agreeing(slots[..n]))
    ensures !(Dated(slots) && Agreeing(slots))
  {
  }

  lemma {:induction false} SlotsPrefix(prefix: string, items: seq<Item>, n: nat)
    requires n <= |items| && AllWellFormed(items)
    ensures Slots(prefix, items[..n]) <= Slots(prefix, items)
  {
    if n == |items| {
      assert items[..n] == items;
    } else {
      assert items[..|items| - 1][..n] == items[..n];
      SlotsPrefix(prefix, items[..|items| - 1], n);
    }
  }

  lemma {:induction false} Extends(times: Times, slots: seq<Slot>, slot: Slot)
    requires Progress(times, slots) && slot.date.Some?
    requires slot.key in times ==> times[slot.key] == slot.date.value
    ensures Progress(times[slot.key := slot.date.value], slots + [slot])
  {
    var more, all := times[slot.key := slot.date.value], slots + [slot];
    assert forall i :: 0 <= i < |slots| ==> all[i] == slots[i];
    forall k | k in more ensures exists i :: 0 <= i < |all| && all[i].key == k {
      if k == slot.key {
        assert all[|slots|].key == k;
      } else {
        var i :| 0 <= i < |slots| && slots[i].key == k;
        assert all[i].key == k;
      }
    }
  }

  /** A session id that spells another session's default name merges the two, so a fixture whose dates for
      them differ is refused. */
  lemma {:induction false} SpelledDefaultCollides(prefix: string, question: string, first: int, second: int)
    requires !Blank(prefix) && question != "" && first != second
    ensures !Loadable(prefix, [Item(question, 2, [Some(first), Some(second)], ["s1", ""])])
  {
    var item := Item(question, 2, [Some(first), Some(second)], ["s1", ""]);
    var namespace := prefix + question;
    var items := [item];
    if AllWellFormed(items) {
      var slots := Slots(prefix, items);
      SlotsStep(prefix, items, 0);
      assert items[..0] == [] && items[..1] == items;
      assert slots == [] + ItemSlots(prefix, item);
      assert Decimal(1) == "1";
      assert namespace + "-" + "s1" == namespace + "-s" + "1";
      assert slots[0].key == slots[1].key && slots[0].date != slots[1].date;
    }
  }
}
