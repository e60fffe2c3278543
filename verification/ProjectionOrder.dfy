/** When the order in which events arrive does not matter to the incident projection.

    An event without a status leaves the row whatever status it has, so the order matters
    to some logs and not to others. `ConvergesExactly` says which. */
module ProjectionOrder {
  import opened Wrappers
  import opened Projection

  // ---------- the row's key alone ----------

  function EventRank(e: Event): nat {
    StatusRank(e.status)
  }

  /** What an event makes of the key of its incident's row; a new row opens at rank one. */
  function KeyAfter(before: Option<Key>, e: Event): Key {
    if before.Some? && !AtMost(before.value, KeyOf(e)) then before.value
    else Key(e.createdAt, if Given(e.status) then EventRank(e) else if before.Some? then before.value.rank else 1)
  }

  function KeyIn(log: seq<Event>, i: Id): Option<Key> {
    if log == [] then None else
      var before, e := KeyIn(log[..|log| - 1], i), log[|log| - 1];
      if e.incident == i then Some(KeyAfter(before, e)) else before
  }

  lemma RowAfter(table: map<Id, Row>, e: Event, i: Id)
    requires i in table ==> table[i].status != ""
    ensures var table' := Upserted(table, e);
      && (e.incident != i ==> (i in table' <==> i in table) && (i in table ==> table'[i] == table[i]))
      && (e.incident == i ==>
            && i in table' && table'[i].status != ""
            && RowKey(table'[i]) == KeyAfter(if i in table then Some(RowKey(table[i])) else None, e))
  {
    hide IndexIn, Normal;
    BlankRanksLowest();
  }

  /** The key's own run is that of the projected row. */
  lemma {:induction false} KeyInIsRowKey(log: seq<Event>, i: Id)
    ensures var table := ProjectAll(map[], log);
      && (i in table <==> KeyIn(log, i).Some?)
      && (i in table ==> table[i].status != "" && KeyIn(log, i) == Some(RowKey(table[i])))
  {
    hide Upserted, KeyAfter, RowKey;
    if log != [] {
      KeyInIsRowKey(log[..|log| - 1], i);
      RowAfter(ProjectAll(map[], log[..|log| - 1]), log[|log| - 1], i);
    }
  }

  // ---------- what the key tells ----------

  lemma ConcernsLast(log: seq<Event>, e: Event, i: Id)
    ensures forall f :: Concerns(f, log + [e], i) <==> Concerns(f, log, i) || (f == e && e.incident == i)
  {
  }

  /** The time is the incident's latest. */
  lemma {:induction false} KeyIsLatest(log: seq<Event>, i: Id)
    ensures KeyIn(log, i).None? ==> forall f :: !Concerns(f, log, i)
    ensures KeyIn(log, i).Some? ==>
      && (exists f :: Concerns(f, log, i) && f.createdAt == KeyIn(log, i).value.at)
      && (forall f :: Concerns(f, log, i) ==> f.createdAt <= KeyIn(log, i).value.at)
  {
    hide StatusRank;
    if log != [] {
      var init, last := log[..|log| - 1], log[|log| - 1];
      assert log == init + [last];
      KeyIsLatest(init, i);
      ConcernsLast(init, last, i);
    }
  }

  /** The rank is one, or comes from an event that carries a status. */
  lemma {:induction false} RankHasSource(log: seq<Event>, i: Id) returns (source: Option<Event>)
    requires KeyIn(log, i).Some?
    ensures source.None? ==> KeyIn(log, i).value.rank == 1
    ensures source.Some? ==>
      && Concerns(source.value, log, i) && Given(source.value.status)
      && EventRank(source.value) == KeyIn(log, i).value.rank
  {
    hide StatusRank;
    var init, last := log[..|log| - 1], log[|log| - 1];
    assert log == init + [last];
    source := None;
    if KeyIn(init, i).Some? {
      source := RankHasSource(init, i);
    }
    if last.incident == i && Given(last.status) && KeyIn(log, i) != KeyIn(init, i) {
      source := Some(last);
    }
  }

  /** No status at the latest time ranks above the row. */
  lemma {:induction false} LatestRankIsReached(log: seq<Event>, i: Id, e: Event)
    requires AtLatest(e, log, i) && Given(e.status)
    ensures KeyIn(log, i).Some? && EventRank(e) <= KeyIn(log, i).value.rank
  {
    hide StatusRank;
    var init, last := log[..|log| - 1], log[|log| - 1];
    assert log == init + [last];
    ConcernsLast(init, last, i);
    KeyIsLatest(init, i);
    if Concerns(e, init, i) {
      LatestRankIsReached(init, i, e);
    }
  }

  /** If every event at the latest time carries a status, the rank is that of one of them. */
  lemma {:induction false} LatestGivesRank(log: seq<Event>, i: Id) returns (e: Event)
    requires KeyIn(log, i).Some? && forall f :: AtLatest(f, log, i) ==> Given(f.status)
    ensures AtLatest(e, log, i) && EventRank(e) == KeyIn(log, i).value.rank
  {
    hide StatusRank;
    var init, last := log[..|log| - 1], log[|log| - 1];
    assert log == init + [last];
    ConcernsLast(init, last, i);
    KeyIsLatest(init, i);
    if last.incident == i && (KeyIn(init, i).None? || AtMost(KeyIn(init, i).value, KeyOf(last))) {
      e := last;
      assert AtLatest(e, log, i);
    } else {
      forall f | AtLatest(f, init, i) ensures AtLatest(f, log, i) {
        assert Concerns(f, log, i);
      }
      e := LatestGivesRank(init, i);
    }
  }

  // ---------- when the order does not matter ----------

  ghost predicate AtLatest(e: Event, log: seq<Event>, i: Id) {
    Concerns(e, log, i) && forall f :: Concerns(f, log, i) ==> f.createdAt <= e.createdAt
  }

  /** Every event at the incident's latest time carries a status. */
  ghost predicate LatestAreGiven(log: seq<Event>, i: Id) {
    forall e :: AtLatest(e, log, i) ==> Given(e.status)
  }

  /** The event carries a status above "unknown", and the incident has none that ranks higher. */
  ghost predicate Tops(e: Event, log: seq<Event>, i: Id) {
    && Given(e.status) && EventRank(e) >= 1
    && forall f :: Concerns(f, log, i) && Given(f.status) ==> EventRank(f) <= EventRank(e)
  }

  ghost predicate LatestTops(log: seq<Event>, i: Id) {
    exists e :: AtLatest(e, log, i) && Tops(e, log, i)
  }

  /** No event at the latest time carries a status, and every earlier one that does has the
      rank of "open", with which a row without a status begins. */
  ghost predicate OnlyOpen(log: seq<Event>, i: Id) {
    forall e :: Concerns(e, log, i) && Given(e.status) ==> !AtLatest(e, log, i) && EventRank(e) == 1
  }

  ghost predicate OrderFree(log: seq<Event>, i: Id) {
    LatestAreGiven(log, i) || LatestTops(log, i) || OnlyOpen(log, i)
  }

  lemma SameConcerns(a: seq<Event>, b: seq<Event>, i: Id)
    requires SameEvents(a, b)
    ensures forall e :: Concerns(e, a, i) <==> Concerns(e, b, i)
    ensures forall e :: AtLatest(e, a, i) <==> AtLatest(e, b, i)
  {
    assert forall e :: Concerns(e, a, i) <==> Concerns(e, b, i);
  }

  lemma SameTime(a: seq<Event>, b: seq<Event>, i: Id)
    requires SameEvents(a, b)
    ensures KeyIn(a, i).Some? <==> KeyIn(b, i).Some?
    ensures KeyIn(a, i).Some? ==> KeyIn(a, i).value.at == KeyIn(b, i).value.at
  {
    hide KeyIn;
    SameConcerns(a, b, i);
    KeyIsLatest(a, i);
    KeyIsLatest(b, i);
  }

  lemma GivenLatestBound(a: seq<Event>, b: seq<Event>, i: Id)
    requires SameEvents(a, b) && LatestAreGiven(a, i) && KeyIn(a, i).Some?
    ensures KeyIn(b, i).Some? && KeyIn(a, i).value.rank <= KeyIn(b, i).value.rank
  {
    hide KeyIn, Given;
    SameConcerns(a, b, i);
    var e := LatestGivesRank(a, i);
    LatestRankIsReached(b, i, e);
  }

  lemma TopIsRank(log: seq<Event>, i: Id, e: Event)
    requires AtLatest(e, log, i) && Tops(e, log, i)
    ensures KeyIn(log, i).Some? && KeyIn(log, i).value.rank == EventRank(e)
  {
    hide KeyIn, Given, StatusRank;
    LatestRankIsReached(log, i, e);
    var source := RankHasSource(log, i);
  }

  lemma OpenIsRank(log: seq<Event>, i: Id)
    requires OnlyOpen(log, i) && KeyIn(log, i).Some?
    ensures KeyIn(log, i).value.rank == 1
  {
    hide KeyIn, Given, StatusRank;
    var source := RankHasSource(log, i);
  }

  /** Such a log gives the same key in every order, duplicates included. */
  lemma OrderFreeAgrees(a: seq<Event>, b: seq<Event>, i: Id)
    requires SameEvents(a, b) && OrderFree(a, i)
    ensures KeyIn(a, i) == KeyIn(b, i)
  {
    hide KeyIn, Given, StatusRank;
    SameTime(a, b, i);
    SameConcerns(a, b, i);
    if KeyIn(a, i).Some? {
      if LatestAreGiven(a, i) {
        GivenLatestBound(a, b, i);
        GivenLatestBound(b, a, i);
      } else if LatestTops(a, i) {
        var e :| AtLatest(e, a, i) && Tops(e, a, i);
        TopIsRank(a, i, e);
        TopIsRank(b, i, e);
      } else {
        OpenIsRank(a, i);
        OpenIsRank(b, i);
      }
    }
  }

  // ---------- when it does ----------

  lemma BlankRankIsZero(e: Event)
    requires !Given(e.status)
    ensures EventRank(e) == 0
  {
    BlankRanksLowest();
  }

  /** Once a row stands at the latest time with a rank that no status there exceeds, nothing
      that follows moves it. */
  lemma {:induction false} FirstDecides(first: seq<Event>, rest: seq<Event>, i: Id)
    requires KeyIn(first, i).Some?
    requires forall e :: Concerns(e, rest, i) ==> AtMost(KeyOf(e), KeyIn(first, i).value)
    ensures KeyIn(first + rest, i) == KeyIn(first, i)
  {
    hide StatusRank, Given;
    if rest == [] {
      assert first + rest == first;
    } else {
      var init, last := rest[..|rest| - 1], rest[|rest| - 1];
      assert rest == init + [last];
      ConcernsLast(init, last, i);
      FirstDecides(first, init, i);
      assert (first + rest)[..|first + rest| - 1] == first + init;
      if !Given(last.status) {
        BlankRankIsZero(last);
      }
    }
  }

  ghost predicate Reorders(a: seq<Event>, b: seq<Event>) {
    multiset(a) == multiset(b)
  }

  lemma ReorderedEvents(a: seq<Event>, b: seq<Event>)
    requires Reorders(a, b)
    ensures SameEvents(a, b)
  {
    forall e ensures e in a <==> e in b {
      assert e in a <==> e in multiset(a);
      assert e in b <==> e in multiset(b);
    }
  }

  lemma {:induction false} MoveToFront(log: seq<Event>, e: Event) returns (rest: seq<Event>)
    requires e in log
    ensures Reorders([e] + rest, log)
  {
    if log[0] == e {
      rest := log[1..];
      assert log == [e] + rest;
    } else {
      rest := MoveToFront(log[1..], e);
      rest := [log[0]] + rest;
      assert log == [log[0]] + log[1..];
      assert [e] + rest == ([e] + [log[0]]) + rest[1..];
      assert multiset([e] + rest) == multiset{log[0]} + multiset([e] + rest[1..]);
    }
  }

  /** The key of a log that begins with these events, which put the row at the latest time
      above every status there. */
  lemma BeginsWith(log: seq<Event>, first: seq<Event>, rest: seq<Event>, i: Id)
    requires Reorders(first + rest, log) && KeyIn(first, i).Some?
    requires forall e :: Concerns(e, log, i) ==> AtMost(KeyOf(e), KeyIn(first, i).value)
    ensures KeyIn(first + rest, i) == KeyIn(first, i)
  {
    hide KeyIn, KeyOf, AtMost;
    ReorderedEvents(first + rest, log);
    forall e | Concerns(e, rest, i) ensures Concerns(e, log, i) {
      assert e in first + rest;
    }
    FirstDecides(first, rest, i);
  }

  lemma KeyOfOne(e: Event)
    ensures KeyIn([e], e.incident) == Some(Key(e.createdAt, if Given(e.status) then EventRank(e) else 1))
  {
    hide StatusRank;
    assert [e][..0] == [];
  }

  /** An event with a status, then a later one without. */
  lemma KeyOfTwo(e: Event, f: Event)
    requires e.incident == f.incident && Given(e.status) && !Given(f.status) && e.createdAt < f.createdAt
    ensures KeyIn([e, f], e.incident) == Some(Key(f.createdAt, EventRank(e)))
  {
    hide StatusRank;
    KeyOfOne(e);
    assert [e, f][..1] == [e];
  }

  /** The order that begins with one event at the latest time. */
  lemma StartWith(log: seq<Event>, i: Id, e: Event) returns (order: seq<Event>)
    requires AtLatest(e, log, i)
    requires forall f :: AtLatest(f, log, i) && Given(f.status) ==>
      EventRank(f) <= if Given(e.status) then EventRank(e) else 1
    ensures Reorders(order, log)
    ensures KeyIn(order, i) == Some(Key(e.createdAt, if Given(e.status) then EventRank(e) else 1))
  {
    hide StatusRank, Given, KeyIn;
    var rest := MoveToFront(log, e);
    order := [e] + rest;
    KeyOfOne(e);
    forall f | Concerns(f, log, i) ensures AtMost(KeyOf(f), KeyIn([e], i).value) {
      RankOrEarlier(log, i, e, f);
    }
    BeginsWith(log, [e], rest, i);
  }

  lemma RankOrEarlier(log: seq<Event>, i: Id, e: Event, f: Event)
    requires AtLatest(e, log, i) && Concerns(f, log, i)
    ensures f.createdAt <= e.createdAt
    ensures f.createdAt == e.createdAt ==> AtLatest(f, log, i)
    ensures !Given(f.status) ==> EventRank(f) == 0
  {
    if !Given(f.status) {
      BlankRankIsZero(f);
    }
  }

  /** The order that begins with an earlier status and then an event at the latest time that
      carries none. */
  lemma StartEarlier(log: seq<Event>, i: Id, early: Event, blank: Event) returns (order: seq<Event>)
    requires AtLatest(blank, log, i) && !Given(blank.status)
    requires Concerns(early, log, i) && Given(early.status) && early.createdAt < blank.createdAt
    requires forall f :: AtLatest(f, log, i) && Given(f.status) ==> EventRank(f) <= EventRank(early)
    ensures Reorders(order, log)
    ensures KeyIn(order, i) == Some(Key(blank.createdAt, EventRank(early)))
  {
    hide StatusRank, Given, KeyIn;
    var others := MoveToFront(log, early);
    ReorderedEvents([early] + others, log);
    assert blank in [early] + others;
    var rest := MoveToFront(others, blank);
    order := [early, blank] + rest;
    assert order == [early] + ([blank] + rest);
    KeyOfTwo(early, blank);
    forall f | Concerns(f, log, i) ensures AtMost(KeyOf(f), KeyIn([early, blank], i).value) {
      RankOrEarlier(log, i, blank, f);
    }
    BeginsWith(log, [early, blank], rest, i);
  }

  /** Among the events at the latest time that carry a status, one of the highest rank. */
  lemma {:induction false} HighestLatest(log: seq<Event>, i: Id, e: Event) returns (top: Event)
    requires AtLatest(e, log, i) && Given(e.status)
    ensures AtLatest(top, log, i) && Given(top.status)
    ensures forall f :: AtLatest(f, log, i) && Given(f.status) ==> EventRank(f) <= EventRank(top)
    decreases 7 - EventRank(e)
  {
    hide StatusRank, Given;
    RankIsSmall(e);
    if f :| AtLatest(f, log, i) && Given(f.status) && EventRank(f) > EventRank(e) {
      RankIsSmall(f);
      top := HighestLatest(log, i, f);
    } else {
      top := e;
    }
  }

  lemma RankIsSmall(e: Event)
    ensures EventRank(e) <= 7
  {
  }

  /** Two orders of any other log that give different keys. */
  lemma OrdersDiffer(log: seq<Event>, i: Id) returns (a: seq<Event>, b: seq<Event>)
    requires !OrderFree(log, i)
    ensures Reorders(a, log) && Reorders(b, log) && KeyIn(a, i) != KeyIn(b, i)
  {
    hide StatusRank, Given, KeyIn;
    var blank :| AtLatest(blank, log, i) && !Given(blank.status);
    if e :| AtLatest(e, log, i) && Given(e.status) {
      var top := HighestLatest(log, i, e);
      a := StartWith(log, i, top);
      if EventRank(top) == 0 {
        b := StartWith(log, i, blank);
      } else {
        assert !Tops(top, log, i);
        var early :| Concerns(early, log, i) && Given(early.status) && EventRank(early) > EventRank(top);
        RankOrEarlier(log, i, blank, early);
        b := StartEarlier(log, i, early, blank);
      }
    } else {
      a := StartWith(log, i, blank);
      var early :| Concerns(early, log, i) && Given(early.status) && (AtLatest(early, log, i) || EventRank(early) != 1);
      RankOrEarlier(log, i, blank, early);
      b := StartEarlier(log, i, early, blank);
    }
  }

  // ---------- the theorems ----------

  /** The two projections agree on whether the incident has a row and on its time and rank. */
  ghost predicate Agree(a: seq<Event>, b: seq<Event>, i: Id) {
    var p, q := ProjectAll(map[], a), ProjectAll(map[], b);
    (i in p <==> i in q) && (i in p ==> RowKey(p[i]) == RowKey(q[i]))
  }

  lemma AgreeIsSameKey(a: seq<Event>, b: seq<Event>, i: Id)
    ensures Agree(a, b, i) <==> KeyIn(a, i) == KeyIn(b, i)
  {
    hide KeyIn, RowKey, ProjectAll;
    KeyInIsRowKey(a, i);
    KeyInIsRowKey(b, i);
  }

  /** Every order of a log gives an incident the same time and rank exactly when no event at
      its latest time lacks a status, or some status there is above "unknown" and no status
      of the incident ranks higher, or no event there carries a status and every earlier
      status has the rank of "open". */
  lemma ConvergesExactly(log: seq<Event>, i: Id)
    ensures OrderFree(log, i) <==> forall order :: Reorders(order, log) ==> Agree(log, order, i)
  {
    hide OrderFree, KeyIn, Agree;
    if OrderFree(log, i) {
      forall order | Reorders(order, log) ensures Agree(log, order, i) {
        ReorderedEvents(order, log);
        OrderFreeAgrees(log, order, i);
        AgreeIsSameKey(log, order, i);
      }
    } else {
      var a, b := OrdersDiffer(log, i);
      AgreeIsSameKey(log, a, i);
      AgreeIsSameKey(log, b, i);
    }
  }

  lemma RankNamesStatus(a: string, b: string)
    requires Known(a) && Known(b) && StatusRank(Some(a)) == StatusRank(Some(b))
    ensures Normal(a) == Normal(b)
  {
  }

  /** Any two orders of such a log, duplicates included, also agree on the status where
      statuses are known. */
  lemma Converges(a: seq<Event>, b: seq<Event>, i: Id)
    requires OrderFree(a, i) && SameEvents(a, b)
    ensures Agree(a, b, i)
    ensures i in ProjectAll(map[], a) ==>
      var s, t := ProjectAll(map[], a)[i].status, ProjectAll(map[], b)[i].status;
      Known(s) && Known(t) ==> Normal(s) == Normal(t)
  {
    hide OrderFree, KeyIn, ProjectAll, Known, StatusRank, Normal;
    OrderFreeAgrees(a, b, i);
    AgreeIsSameKey(a, b, i);
    if i in ProjectAll(map[], a) {
      var s, t := ProjectAll(map[], a)[i].status, ProjectAll(map[], b)[i].status;
      if Known(s) && Known(t) {
        RankNamesStatus(s, t);
      }
    }
  }

  /** A log in which every event carries a status is such a log for every incident. */
  lemma GivenIsOrderFree(log: seq<Event>, i: Id)
    requires AllGiven(log)
    ensures OrderFree(log, i)
  {
  }

  /** The two shortest logs with a blank: it matters which event comes first when the blank
      is the later one, and it does not when the blank is the earlier one. */
  lemma BlankStatusDiverges(e: Event)
    ensures var closed, blank := e.(createdAt := 1, status := Some("closed")), e.(createdAt := 2, status := None);
      && ProjectAll(map[], [closed, blank])[e.incident].status == "closed"
      && ProjectAll(map[], [blank, closed])[e.incident].status == "open"
    ensures var closed, blank := e.(createdAt := 2, status := Some("closed")), e.(createdAt := 1, status := None);
      && ProjectAll(map[], [closed, blank])[e.incident].status == "closed"
      && ProjectAll(map[], [blank, closed])[e.incident].status == "closed"
  {
    hide StatusRank;
    var closed, blank := e.(status := Some("closed")), e.(status := None);
    ProjectTwo(closed.(createdAt := 1), blank.(createdAt := 2));
    ProjectTwo(blank.(createdAt := 2), closed.(createdAt := 1));
    ProjectTwo(closed.(createdAt := 2), blank.(createdAt := 1));
    ProjectTwo(blank.(createdAt := 1), closed.(createdAt := 2));
  }

  lemma ProjectTwo(e: Event, f: Event)
    ensures ProjectAll(map[], [e, f]) == Upserted(Upserted(map[], e), f)
  {
    assert [e, f][..1] == [e] && [e][..0] == [];
    assert ProjectAll(map[], [e]) == Upserted(map[], e);
  }
}
