/** The incident projection: one row per incident, overwritten by every event that is not
    older than the row, where "older" means an earlier time, or the same time and an earlier
    stage of the lifecycle.

    The row is a last-writer-wins register ordered by (time, status rank); the theorems say
    what it shows and when the log may be replayed. `ProjectionOrder` says when events may
    arrive in any order. */
module Projection {
  import opened Wrappers
  import opened Text

  type Id = nat

  /** Fields the row takes over from the event as they are. */
  datatype Detail = Detail(
    alertId: Option<Id>, traceId: Option<string>, service: string, environment: string,
    severity: Option<string>, riskTier: Option<string>, executionMode: Option<string>,
    requiresApproval: Option<bool>, policyVersion: Option<string>, policyReason: Option<string>,
    transportProvider: string)

  /** A payload, with the recommendation and flow found in it, if any. */
  datatype Payload = Payload(text: string, recommendationId: Option<Id>, flowId: Option<string>)

  datatype Event = Event(
    id: Id, incident: Id, createdAt: int, status: Option<string>, tenantId: string,
    eventType: string, eventStage: string, transportChannel: string, detail: Detail, payload: Payload)

  datatype Row = Row(
    firstSeenAt: int, detail: Detail, tenantId: string, status: string,
    recommendationId: Option<Id>, flowId: Option<string>,
    latestEventId: Id, latestEventType: string, latestEventAt: int,
    eventStage: string, transportChannel: string, payload: Payload)

  function Normal(status: string): string {
    Lower(Strip(status))
  }

  const STAGES := ["unknown", "open", "investigating", "awaiting_approval", "remediating", "validating", "failed", "closed"]

  function IndexIn(stages: seq<string>, token: string): (r: Option<nat>)
    ensures r.Some? ==> r.value < |stages| && stages[r.value] == token
  {
    if stages == [] then None
    else if stages[0] == token then Some(0)
    else match IndexIn(stages[1..], token)
      case None => None
      case Some(i) => Some(i + 1)
  }

  /** Position in the lifecycle; anything unrecognised ranks with "unknown". */
  function StatusRank(status: Option<string>): nat {
    if status.None? then 0 else IndexIn(STAGES, Normal(status.value)).GetOr(0)
  }

  /** The ranks by name, whatever the case and surrounding white space; any other status
      ranks with "unknown". */
  lemma StatusRankExactly(status: string)
    ensures var token := Lower(Strip(status));
      && (StatusRank(Some(status)) == 1 <==> token == "open")
      && (StatusRank(Some(status)) == 2 <==> token == "investigating")
      && (StatusRank(Some(status)) == 3 <==> token == "awaiting_approval")
      && (StatusRank(Some(status)) == 4 <==> token == "remediating")
      && (StatusRank(Some(status)) == 5 <==> token == "validating")
      && (StatusRank(Some(status)) == 6 <==> token == "failed")
      && (StatusRank(Some(status)) == 7 <==> token == "closed")
      && StatusRank(Some(status)) <= 7 && StatusRank(None) == 0
  {
    hide Strip, Lower, IndexIn;
    StagesDiffer();
    IndexExactly(STAGES, Lower(Strip(status)));
    assert STAGES[1] == "open" && STAGES[2] == "investigating" && STAGES[3] == "awaiting_approval";
    assert STAGES[4] == "remediating" && STAGES[5] == "validating" && STAGES[6] == "failed" && STAGES[7] == "closed";
  }

  lemma StagesDiffer()
    ensures forall i, j :: 0 <= i < j < |STAGES| ==> STAGES[i] != STAGES[j]
  {
    var letters := ['u', 'o', 'i', 'a', 'r', 'v', 'f', 'c'];
    assert forall i :: 0 <= i < 8 ==> STAGES[i][0] == letters[i];
  }

  lemma {:induction false} IndexExactly(stages: seq<string>, token: string)
    requires forall i, j :: 0 <= i < j < |stages| ==> stages[i] != stages[j]
    ensures forall i :: 0 <= i < |stages| ==> (IndexIn(stages, token) == Some(i) <==> stages[i] == token)
  {
    if stages != [] {
      var rest := stages[1..];
      assert forall i :: 0 <= i < |rest| ==> rest[i] == stages[i + 1];
      IndexExactly(rest, token);
      forall i | 0 <= i < |stages| ensures IndexIn(stages, token) == Some(i) <==> stages[i] == token {
        if i > 0 {
          assert stages[0] != stages[i];
          assert IndexIn(rest, token) == Some(i - 1) <==> rest[i - 1] == token;
        }
      }
    }
  }

  predicate Known(status: string) {
    IndexIn(STAGES, Normal(status)).Some?
  }

  /** Python truth of an optional string. */
  predicate Given(s: Option<string>) {
    s.Some? && s.value != ""
  }

  // ---------- one event ----------

  predicate Refuses(row: Row, e: Event) {
    || e.createdAt < row.latestEventAt
    || (e.createdAt == row.latestEventAt && StatusRank(e.status) < StatusRank(Some(row.status)))
  }

  /** What writing the event leaves, given the row before it (none for a new incident). */
  function Written(before: Option<Row>, e: Event): Row {
    Row(
      if before.Some? then before.value.firstSeenAt else e.createdAt,
      e.detail,
      if e.tenantId != "" then e.tenantId else "default",
      if Given(e.status) then e.status.value
      else if before.Some? && before.value.status != "" then before.value.status
      else "open",
      if e.payload.recommendationId.Some? then e.payload.recommendationId
      else if before.Some? then before.value.recommendationId else None,
      if Given(e.payload.flowId) then e.payload.flowId
      else if before.Some? then before.value.flowId else None,
      e.id, e.eventType, e.createdAt, e.eventStage, e.transportChannel, e.payload)
  }

  function Upserted(table: map<Id, Row>, e: Event): map<Id, Row> {
    if e.incident !in table then table[e.incident := Written(None, e)]
    else if Refuses(table[e.incident], e) then table
    else table[e.incident := Written(Some(table[e.incident]), e)]
  }

  function ProjectAll(table: map<Id, Row>, log: seq<Event>): map<Id, Row> {
    if log == [] then table else Upserted(ProjectAll(table, log[..|log| - 1]), log[|log| - 1])
  }

  // ---------- the order ----------

  datatype Key = Key(at: int, rank: nat)

  predicate AtMost(a: Key, b: Key) {
    a.at < b.at || (a.at == b.at && a.rank <= b.rank)
  }

  function KeyOf(e: Event): Key {
    Key(e.createdAt, StatusRank(e.status))
  }

  function RowKey(row: Row): Key {
    Key(row.latestEventAt, StatusRank(Some(row.status)))
  }

  /** Whatever the event, the row's (time, rank) never decreases; other rows do not change. */
  lemma NeverRegresses(table: map<Id, Row>, e: Event, i: Id)
    requires i in table
    ensures var table' := Upserted(table, e);
      && i in table' && AtMost(RowKey(table[i]), RowKey(table'[i]))
      && (i != e.incident ==> table'[i] == table[i])
  {
    hide IndexIn, Normal;
    assert StatusRank(Some("")) == 0 by { BlankRanksLowest(); }
  }

  lemma BlankRanksLowest()
    ensures StatusRank(Some("")) == 0 && StatusRank(Some("open")) == 1
  {
    assert Normal("") == "" && Normal("open") == "open";
  }

  /** The row becomes the greater of itself and the event exactly when the event carries a
      status, or does not move the row to a later time, or finds it at rank zero. */
  lemma UpsertIsMaximumExactly(table: map<Id, Row>, e: Event)
    requires e.incident in table && table[e.incident].status != ""
    ensures var before, after := RowKey(table[e.incident]), RowKey(Upserted(table, e)[e.incident]);
      (after == if AtMost(before, KeyOf(e)) then KeyOf(e) else before) <==>
        Given(e.status) || e.createdAt <= before.at || before.rank == 0
  {
    assert !Given(e.status) ==> StatusRank(e.status) == 0 by {
      assert Normal("") == "";
    }
  }

  // ---------- convergence ----------

  /** The row shows exactly this event, field by field. The first-seen time and, where the
      event carries none, the recommendation and flow are inherited and not covered. */
  ghost predicate Shows(row: Row, e: Event) {
    && row.latestEventId == e.id && row.latestEventType == e.eventType && row.latestEventAt == e.createdAt
    && row.eventStage == e.eventStage && row.transportChannel == e.transportChannel
    && row.payload == e.payload && row.detail == e.detail
    && row.tenantId == (if e.tenantId == "" then "default" else e.tenantId)
    && Given(e.status) && row.status == e.status.value
    && (e.payload.recommendationId.Some? ==> row.recommendationId == e.payload.recommendationId)
    && (Given(e.payload.flowId) ==> row.flowId == e.payload.flowId)
  }

  ghost predicate Concerns(e: Event, log: seq<Event>, i: Id) {
    e in log && e.incident == i
  }

  /** `e` is the last of the incident's events in (time, rank) order. */
  ghost predicate Latest(e: Event, log: seq<Event>, i: Id) {
    Concerns(e, log, i) && forall f :: Concerns(f, log, i) ==> AtMost(KeyOf(f), KeyOf(e))
  }

  ghost predicate AllGiven(log: seq<Event>) {
    forall e :: e in log ==> Given(e.status)
  }

  lemma ShownKey(row: Row, e: Event)
    requires Shows(row, e)
    ensures RowKey(row) == KeyOf(e)
  {
    hide StatusRank;
  }

  /** The three things an event can do to an incident's row. */
  lemma EventShows(table: map<Id, Row>, e: Event, i: Id)
    requires Given(e.status)
    ensures var table' := Upserted(table, e);
      if e.incident != i then (i in table' <==> i in table) && (i in table ==> table'[i] == table[i])
      else if i in table && Refuses(table[i], e) then table' == table && AtMost(KeyOf(e), RowKey(table[i]))
      else i in table' && Shows(table'[i], e) && (i in table ==> AtMost(RowKey(table[i]), KeyOf(e)))
  {
    hide StatusRank;
  }

  lemma {:induction false} ShowsLatest(log: seq<Event>, i: Id) returns (e: Option<Event>)
    requires AllGiven(log)
    ensures e.None? ==> i !in ProjectAll(map[], log) && forall f :: !Concerns(f, log, i)
    ensures e.Some? ==> i in ProjectAll(map[], log) && Latest(e.value, log, i) && Shows(ProjectAll(map[], log)[i], e.value)
  {
    hide Upserted, Refuses, Shows, KeyOf, RowKey, Given;
    if log == [] {
      e := None;
    } else {
      var init, last := log[..|log| - 1], log[|log| - 1];
      assert log == init + [last];
      e := ShowsLatest(init, i);
      var table := ProjectAll(map[], init);
      EventShows(table, last, i);
      if e.Some? {
        ShownKey(table[i], e.value);
      }
      if last.incident == i && (i !in table || !Refuses(table[i], last)) {
        e := Some(last);
      }
      assert forall f :: Concerns(f, log, i) <==> Concerns(f, init, i) || (f == last && last.incident == i);
    }
  }

  /** The projection after any log whose events carry a status: each incident that has
      events shows its latest one, whatever order they came in. */
  lemma ProjectionShowsLatest(log: seq<Event>, i: Id)
    requires AllGiven(log)
    ensures i in ProjectAll(map[], log) <==> exists e :: Concerns(e, log, i)
    ensures i in ProjectAll(map[], log) ==>
      exists e :: Latest(e, log, i) && Shows(ProjectAll(map[], log)[i], e)
  {
    var e := ShowsLatest(log, i);
  }

  ghost predicate SameEvents(a: seq<Event>, b: seq<Event>) {
    forall e :: e in a <==> e in b
  }

  lemma SameLatest(a: seq<Event>, b: seq<Event>, i: Id, e: Event)
    requires SameEvents(a, b) && Latest(e, b, i)
    ensures Latest(e, a, i)
  {
    assert forall g :: Concerns(g, a, i) <==> Concerns(g, b, i);
  }

  /** The time needs no status: whatever the log, a row carries its incident's latest time. */
  lemma {:induction false} TimeAlwaysConverges(log: seq<Event>, i: Id)
    ensures i in ProjectAll(map[], log) <==> exists e :: Concerns(e, log, i)
    ensures forall e :: Concerns(e, log, i) ==> e.createdAt <= ProjectAll(map[], log)[i].latestEventAt
    ensures i in ProjectAll(map[], log) ==>
      exists e :: Concerns(e, log, i) && e.createdAt == ProjectAll(map[], log)[i].latestEventAt
  {
    if log != [] {
      var init, last := log[..|log| - 1], log[|log| - 1];
      TimeAlwaysConverges(init, i);
      assert log == init + [last];
      assert forall e :: Concerns(e, log, i) <==> Concerns(e, init, i) || (e == last && last.incident == i);
    }
  }

  /** Where one event is strictly the latest, the two orders agree on every field that its
      writer determines: all but the first-seen time, and the recommendation and flow when
      that event names none. */
  lemma ConvergesOnLatest(a: seq<Event>, b: seq<Event>, i: Id, latest: Event)
    requires AllGiven(a) && SameEvents(a, b)
    requires Latest(latest, a, i) && forall e :: Latest(e, a, i) ==> e == latest
    ensures i in ProjectAll(map[], a) && i in ProjectAll(map[], b)
    ensures Shows(ProjectAll(map[], a)[i], latest) && Shows(ProjectAll(map[], b)[i], latest)
    ensures var p, q := ProjectAll(map[], a)[i], ProjectAll(map[], b)[i];
      q == p.(firstSeenAt := q.firstSeenAt, recommendationId := q.recommendationId, flowId := q.flowId)
  {
    var e := ShowsLatest(a, i);
    assert Concerns(latest, b, i);
    var f := ShowsLatest(b, i);
    SameLatest(a, b, i, f.value);
  }

  // ---------- replay ----------

  /** No two of an incident's events have the same time and rank. */
  ghost predicate NoTies(log: seq<Event>) {
    forall e, f :: e in log && f in log && e.incident == f.incident && KeyOf(e) == KeyOf(f) ==> e == f
  }

  /** Replaying any selection of the log, in any order and any number of times, changes
      nothing in a projection made from that log in any order. */
  lemma {:induction false} ReplayChangesNothing(log: seq<Event>, replayed: seq<Event>)
    requires AllGiven(log) && NoTies(log)
    requires forall e :: e in replayed ==> e in log
    ensures ProjectAll(ProjectAll(map[], log), replayed) == ProjectAll(map[], log)
  {
    hide Upserted, Refuses, Shows, AllGiven, NoTies, Latest, KeyOf;
    if replayed != [] {
      var table, last := ProjectAll(map[], log), replayed[|replayed| - 1];
      ReplayChangesNothing(log, replayed[..|replayed| - 1]);
      ReplayedOnce(log, last);
    }
  }

  lemma ReplayedOnce(log: seq<Event>, e: Event)
    requires AllGiven(log) && NoTies(log) && e in log
    ensures Upserted(ProjectAll(map[], log), e) == ProjectAll(map[], log)
  {
    hide StatusRank, ProjectAll;
    var table := ProjectAll(map[], log);
    var latest := ShowsLatest(log, e.incident);
    assert Concerns(e, log, e.incident);
    ShownKey(table[e.incident], latest.value);
    if !Refuses(table[e.incident], e) {
      assert KeyOf(e) == KeyOf(latest.value);
      assert table[e.incident := table[e.incident]] == table;
    }
  }

  /** Some events with none newer left out. */
  ghost predicate Window(rows: seq<Event>, events: set<Event>) {
    && (forall e :: e in rows ==> e in events)
    && (forall e, f :: e in events && e !in rows && f in rows ==> e.createdAt <= f.createdAt)
  }

  /** `max(1, min(int(limit), 5000))` */
  function SafeLimit(limit: int): nat {
    if limit < 1 then 1 else if limit > 5000 then 5000 else limit
  }

  /** What the query for the newest events may return: as many as the limit allows, each
      once, with none newer left out. */
  ghost predicate Newest(rows: seq<Event>, events: map<Id, Event>, limit: nat) {
    && Window(rows, events.Values)
    && (forall j, k :: 0 <= j < k < |rows| ==> rows[j] != rows[k])
    && |rows| == if |events| < limit then |events| else limit
  }

  /** Rebuilding from an empty table over a window of the log gives the (time, rank) of the
      whole log to every incident that has an event in the window. */
  lemma WindowRebuilds(log: seq<Event>, rows: seq<Event>, i: Id)
    requires AllGiven(log) && Window(rows, set e | e in log)
    requires forall e, f :: e in log && f in log && e.incident == f.incident && e.createdAt == f.createdAt ==> e == f
    requires exists e :: Concerns(e, rows, i)
    ensures i in ProjectAll(map[], rows) && i in ProjectAll(map[], log)
    ensures RowKey(ProjectAll(map[], rows)[i]) == RowKey(ProjectAll(map[], log)[i])
  {
    var f :| Concerns(f, rows, i);
    assert Concerns(f, log, i);
    var e := ShowsLatest(log, i);
    var g := ShowsLatest(rows, i);
    assert e.value in rows;
    assert Concerns(e.value, rows, i) && Concerns(g.value, log, i);
  }

  // ---------- the repository ----------

  function Inserted(sorted: seq<Event>, e: Event): seq<Event> {
    if sorted == [] || e.createdAt < sorted[0].createdAt then [e] + sorted
    else [sorted[0]] + Inserted(sorted[1..], e)
  }

  /** `rows.sort(key=created_at)`; stable. */
  function SortedByTime(rows: seq<Event>): seq<Event> {
    if rows == [] then [] else Inserted(SortedByTime(rows[..|rows| - 1]), rows[|rows| - 1])
  }

  lemma InsertedMembers(sorted: seq<Event>, e: Event)
    ensures forall f :: f in Inserted(sorted, e) <==> f == e || f in sorted
    ensures |Inserted(sorted, e)| == |sorted| + 1
  {
  }

  lemma {:induction false} SortedMembers(rows: seq<Event>)
    ensures SameEvents(SortedByTime(rows), rows) && |SortedByTime(rows)| == |rows|
  {
    if rows != [] {
      var init, last := rows[..|rows| - 1], rows[|rows| - 1];
      SortedMembers(init);
      InsertedMembers(SortedByTime(init), last);
      assert rows == init + [last];
    }
  }

  ghost predicate InTimeOrder(rows: seq<Event>) {
    forall i :: 0 < i < |rows| ==> rows[i - 1].createdAt <= rows[i].createdAt
  }

  lemma {:induction false} InsertedInTimeOrder(sorted: seq<Event>, e: Event)
    requires InTimeOrder(sorted)
    ensures InTimeOrder(Inserted(sorted, e))
    ensures Inserted(sorted, e)[0] == e || (sorted != [] && Inserted(sorted, e)[0] == sorted[0])
  {
    if sorted != [] && e.createdAt >= sorted[0].createdAt {
      assert forall i :: 0 < i < |sorted[1..]| ==> sorted[1..][i] == sorted[i + 1] && sorted[1..][i - 1] == sorted[i];
      InsertedInTimeOrder(sorted[1..], e);
    }
  }

  /** The rows of one time, in order. */
  function AtTime(rows: seq<Event>, at: int): seq<Event> {
    if rows == [] then [] else (if rows[0].createdAt == at then [rows[0]] else []) + AtTime(rows[1..], at)
  }

  lemma {:induction false} AtTimeConcat(a: seq<Event>, b: seq<Event>, at: int)
    ensures AtTime(a + b, at) == AtTime(a, at) + AtTime(b, at)
  {
    if a == [] {
      assert a + b == b;
    } else {
      AtTimeConcat(a[1..], b, at);
      var head := if a[0].createdAt == at then [a[0]] else [];
      assert AtTime(a + b, at) == head + AtTime(a[1..] + b, at) by { assert (a + b)[1..] == a[1..] + b; }
      assert head + (AtTime(a[1..], at) + AtTime(b, at)) == (head + AtTime(a[1..], at)) + AtTime(b, at);
    }
  }

  lemma {:induction false} NoneAtTime(rows: seq<Event>, at: int)
    requires InTimeOrder(rows) && (rows != [] ==> at < rows[0].createdAt)
    ensures AtTime(rows, at) == []
  {
    if |rows| > 1 {
      assert rows[0].createdAt <= rows[1].createdAt;
      assert forall i :: 0 < i < |rows[1..]| ==> rows[1..][i] == rows[i + 1] && rows[1..][i - 1] == rows[i];
      NoneAtTime(rows[1..], at);
    }
  }

  lemma {:induction false} InsertedAtTime(sorted: seq<Event>, e: Event, at: int)
    requires InTimeOrder(sorted)
    ensures AtTime(Inserted(sorted, e), at) == AtTime(sorted, at) + if e.createdAt == at then [e] else []
  {
    if sorted == [] || e.createdAt < sorted[0].createdAt {
      assert ([e] + sorted)[1..] == sorted;
      if e.createdAt == at {
        NoneAtTime(sorted, at);
      }
    } else {
      assert forall i :: 0 < i < |sorted[1..]| ==> sorted[1..][i] == sorted[i + 1] && sorted[1..][i - 1] == sorted[i];
      InsertedAtTime(sorted[1..], e, at);
      assert Inserted(sorted, e)[1..] == Inserted(sorted[1..], e);
    }
  }

  /** The replay goes through the same rows, from the oldest to the newest, and through those
      of one time in the order in which they were read. */
  lemma {:induction false} ReplayInTimeOrder(rows: seq<Event>)
    ensures InTimeOrder(SortedByTime(rows)) && SameEvents(SortedByTime(rows), rows)
    ensures forall at :: AtTime(SortedByTime(rows), at) == AtTime(rows, at)
  {
    hide Inserted, AtTime, InTimeOrder;
    SortedMembers(rows);
    if rows == [] {
      NothingInOrder();
    } else {
      var init, last := rows[..|rows| - 1], rows[|rows| - 1];
      ReplayInTimeOrder(init);
      InsertedInTimeOrder(SortedByTime(init), last);
      forall at ensures AtTime(SortedByTime(rows), at) == AtTime(rows, at) {
        InsertedAtTime(SortedByTime(init), last, at);
        AtTimeConcat(init, [last], at);
        LoneAtTime(last, at);
        assert rows == init + [last];
      }
    }
  }

  lemma NothingInOrder()
    ensures InTimeOrder([])
  {
  }

  lemma LoneAtTime(e: Event, at: int)
    ensures AtTime([e], at) == if e.createdAt == at then [e] else []
  {
    assert [e][1..] == [];
  }

  lemma {:induction false} ProjectConcat(table: map<Id, Row>, a: seq<Event>, b: seq<Event>)
    ensures ProjectAll(table, a + b) == ProjectAll(ProjectAll(table, a), b)
  {
    hide Upserted;
    if b == [] {
      assert a + b == a;
    } else {
      var n, all := |b| - 1, a + b;
      ProjectConcat(table, a, b[..n]);
      assert all[..|all| - 1] == a + b[..n] && all[|all| - 1] == b[n];
    }
  }

  class IncidentRepository {
    var events: map<Id, Event>
    var projections: map<Id, Row>
    ghost var log: seq<Event>   // every event projected so far, replays included

    /** Events are kept under their own ids and have been projected; the rows are what the
        log projects to. */
    ghost predicate Valid()
      reads this
    {
      && (forall i :: i in events ==> events[i].id == i && events[i] in log)
      && projections == ProjectAll(map[], log)
    }

    constructor ()
      ensures Valid() && events == map[] && projections == map[] && log == []
    {
      events, projections, log := map[], map[], [];
    }

    /** A row is made for an incident's first event and refuses an earlier event, or one of
        the same time and a lower rank; any other event leaves its own fields, but the
        first-seen time stays, and so do the status, recommendation and flow that it does
        not carry. */
    method UpsertProjectionFromRecord(e: Event)
      modifies this`projections, this`log
      ensures projections == Upserted(old(projections), e) && log == old(log) + [e]
      ensures projections.Keys == old(projections).Keys + {e.incident}
      ensures forall i :: i in old(projections) && i != e.incident ==> projections[i] == old(projections)[i]
      ensures var had, row := e.incident in old(projections), projections[e.incident];
        var refused := had &&
          var before := old(projections)[e.incident];
          e.createdAt < before.latestEventAt ||
          (e.createdAt == before.latestEventAt && StatusRank(e.status) < StatusRank(Some(before.status)));
        && (refused ==> row == old(projections)[e.incident])
        && (!refused ==>
              && row.latestEventId == e.id && row.latestEventType == e.eventType && row.latestEventAt == e.createdAt
              && row.eventStage == e.eventStage && row.transportChannel == e.transportChannel
              && row.payload == e.payload && row.detail == e.detail
              && row.tenantId == (if e.tenantId == "" then "default" else e.tenantId)
              && row.firstSeenAt == (if had then old(projections)[e.incident].firstSeenAt else e.createdAt)
              && (Given(e.status) ==> row.status == e.status.value)
              && (!Given(e.status) && had && old(projections)[e.incident].status != "" ==> row.status == old(projections)[e.incident].status)
              && (!Given(e.status) && !(had && old(projections)[e.incident].status != "") ==> row.status == "open")
              && row.recommendationId == (if had && e.payload.recommendationId.None?
                                          then old(projections)[e.incident].recommendationId else e.payload.recommendationId)
              && (Given(e.payload.flowId) ==> row.flowId == e.payload.flowId)
              && (!Given(e.payload.flowId) ==> row.flowId == if had then old(projections)[e.incident].flowId else None))
    {
      hide StatusRank;
      log := log + [e];
      var status := if Given(e.status) then e.status.value else "open";
      var row := Row(e.createdAt, e.detail, "", status, None, None, e.id, "", e.createdAt, "", "", e.payload);
      if e.incident in projections {
        row := projections[e.incident];
        if e.createdAt < row.latestEventAt {
          return;
        }
        if e.createdAt == row.latestEventAt {
          if StatusRank(e.status) < StatusRank(Some(row.status)) {
            return;
          }
        }
        status := if Given(e.status) then e.status.value else if row.status != "" then row.status else "open";
      }
      row := row.(detail := e.detail, status := status);
      if e.payload.recommendationId.Some? {
        row := row.(recommendationId := e.payload.recommendationId);
      }
      if Given(e.payload.flowId) {
        row := row.(flowId := e.payload.flowId);
      }
      row := row.(tenantId := if e.tenantId != "" then e.tenantId else "default");
      row := row.(latestEventId := e.id, latestEventType := e.eventType, latestEventAt := e.createdAt);
      row := row.(eventStage := e.eventStage, transportChannel := e.transportChannel, payload := e.payload);
      projections := projections[e.incident := row];
    }

    method SaveIncidentEvent(e: Event)
      requires Valid()
      modifies this
      ensures Valid() && log == old(log) + [e]
      ensures events == old(events)[e.id := e]
      ensures projections == Upserted(old(projections), e)
    {
      hide Upserted;
      events := events[e.id := e];
      UpsertProjectionFromRecord(e);
      assert log[..|log| - 1] == old(log);
    }

    /** `rows` is what the query for the newest events returned. The replay changes no row
        when every event projected so far carries a status and none ties with another. */
    method ProjectRecentIncidentEvents(limit: int, rows: seq<Event>) returns (count: nat)
      requires Valid() && Newest(rows, events, SafeLimit(limit))
      modifies this`projections, this`log
      ensures Valid() && log == old(log) + SortedByTime(rows)
      ensures count == |rows| <= 5000
      ensures limit < 1 ==> count == if |events| < 1 then |events| else 1
      ensures 1 <= limit <= 5000 ==> count == if |events| < limit then |events| else limit
      ensures 5000 < limit ==> count == if |events| < 5000 then |events| else 5000
      ensures projections == ProjectAll(old(projections), SortedByTime(rows))
      ensures AllGiven(old(log)) && NoTies(old(log)) ==> projections == old(projections)
    {
      hide Upserted, SortedByTime, AllGiven, NoTies;
      var sorted := SortedByTime(rows);
      SortedMembers(rows);
      ghost var before := log;
      for k := 0 to |sorted|
        invariant projections == ProjectAll(old(projections), sorted[..k])
        invariant log == before + sorted[..k]
      {
        assert sorted[..k + 1] == sorted[..k] + [sorted[k]] && sorted[..k + 1][..k] == sorted[..k];
        UpsertProjectionFromRecord(sorted[k]);
      }
      assert sorted[..|sorted|] == sorted;
      ProjectConcat(map[], before, sorted);
      assert forall e :: e in rows ==> e in events.Values;
      assert forall e :: e in sorted ==> e in before;
      if AllGiven(before) && NoTies(before) {
        ReplayChangesNothing(before, sorted);
      }
      count := |rows|;
    }
  }
}
