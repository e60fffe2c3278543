/** What every field of an incident's row holds after any log of events, with or without
    statuses: which of the incident's events it comes from. */
module ProjectionFields {
  import opened Wrappers
  import opened Text
  import opened Projection

  // ---------- which events are taken ----------

  /** The event at this position found no row of its incident, or one that did not refuse it. */
  ghost predicate Accepted(log: seq<Event>, k: nat)
    requires k < |log|
  {
    var table := ProjectAll(map[], log[..k]);
    log[k].incident in table ==> !Refuses(table[log[k].incident], log[k])
  }

  ghost predicate TakenFor(log: seq<Event>, i: Id, has: Event -> bool, k: nat)
    requires k < |log|
  {
    log[k].incident == i && has(log[k]) && Accepted(log, k)
  }

  /** The last of the incident's accepted events with this property. */
  ghost predicate LastTaken(log: seq<Event>, i: Id, has: Event -> bool, k: nat) {
    k < |log| && TakenFor(log, i, has, k) && forall j :: k < j < |log| ==> !TakenFor(log, i, has, j)
  }

  ghost predicate NoneTaken(log: seq<Event>, i: Id, has: Event -> bool) {
    forall j :: 0 <= j < |log| ==> !TakenFor(log, i, has, j)
  }

  ghost predicate FirstFor(log: seq<Event>, i: Id, k: nat) {
    k < |log| && log[k].incident == i && forall j :: 0 <= j < k ==> log[j].incident != i
  }

  predicate Anything(e: Event) {
    true
  }

  predicate HasStatus(e: Event) {
    e.status.Some? && e.status.value != ""
  }

  predicate NamesRecommendation(e: Event) {
    e.payload.recommendationId.Some?
  }

  predicate NamesFlow(e: Event) {
    e.payload.flowId.Some? && e.payload.flowId.value != ""
  }

  // ---------- the last such event, one event at a time ----------

  ghost function Last(log: seq<Event>, i: Id, has: Event -> bool): Option<Event> {
    if log == [] then None else
      var n := |log| - 1;
      if TakenFor(log, i, has, n) then Some(log[n]) else Last(log[..n], i, has)
  }

  lemma TakenBefore(log: seq<Event>, i: Id, has: Event -> bool, n: nat, k: nat)
    requires k < n <= |log|
    ensures TakenFor(log[..n], i, has, k) <==> TakenFor(log, i, has, k)
  {
    assert log[..n][..k] == log[..k];
  }

  /** It is what its name says. */
  lemma {:induction false} LastExactly(log: seq<Event>, i: Id, has: Event -> bool)
    ensures forall k: nat :: LastTaken(log, i, has, k) ==> Last(log, i, has) == Some(log[k])
    ensures NoneTaken(log, i, has) ==> Last(log, i, has) == None
  {
    hide TakenFor;
    if log != [] {
      var n := |log| - 1;
      LastExactly(log[..n], i, has);
      forall k: nat | k < n ensures TakenFor(log[..n], i, has, k) <==> TakenFor(log, i, has, k) {
        TakenBefore(log, i, has, n, k);
      }
      forall k: nat | LastTaken(log, i, has, k) ensures Last(log, i, has) == Some(log[k]) {
        if k < n {
          assert LastTaken(log[..n], i, has, k);
        }
      }
    }
  }

  lemma LastPush(log: seq<Event>, e: Event, i: Id, has: Event -> bool)
    ensures var table := ProjectAll(map[], log);
      Last(log + [e], i, has) ==
        if e.incident == i && has(e) && (i in table ==> !Refuses(table[i], e)) then Some(e) else Last(log, i, has)
  {
    hide ProjectAll, Refuses;
    assert (log + [e])[..|log|] == log;
  }

  // ---------- one more event ----------

  /** What an accepted event leaves, given the row it found, if any. */
  lemma AcceptedLeaves(table: map<Id, Row>, e: Event)
    requires e.incident in table ==> !Refuses(table[e.incident], e)
    ensures e.incident in Upserted(table, e)
    ensures var had, row := e.incident in table, Upserted(table, e)[e.incident];
      && OwnFields(row, e)
      && row.firstSeenAt == (if had then table[e.incident].firstSeenAt else e.createdAt)
      && (HasStatus(e) ==> Some(row.status) == e.status)
      && (!HasStatus(e) ==> row.status == if had && table[e.incident].status != "" then table[e.incident].status else "open")
      && row.recommendationId == (if NamesRecommendation(e) then e.payload.recommendationId
                                  else if had then table[e.incident].recommendationId else None)
      && row.flowId == (if NamesFlow(e) then e.payload.flowId else if had then table[e.incident].flowId else None)
  {
    hide StatusRank;
  }

  lemma OthersLeave(table: map<Id, Row>, e: Event, i: Id)
    requires e.incident != i || (i in table && Refuses(table[i], e))
    ensures i in Upserted(table, e) <==> i in table
    ensures i in table ==> Upserted(table, e)[i] == table[i]
  {
    hide Refuses, Written;
  }

  /** The fields that the last accepted event alone determines. */
  ghost predicate OwnFields(row: Row, e: Event) {
    && row.latestEventId == e.id && row.latestEventType == e.eventType && row.latestEventAt == e.createdAt
    && row.eventStage == e.eventStage && row.transportChannel == e.transportChannel
    && row.payload == e.payload && row.detail == e.detail
    && row.tenantId == (if e.tenantId == "" then "default" else e.tenantId)
  }

  ghost predicate Follows(log: seq<Event>, i: Id) {
    var table := ProjectAll(map[], log);
    && (i in table <==> exists k :: 0 <= k < |log| && log[k].incident == i)
    && (i !in table ==>
          && Last(log, i, Anything).None? && Last(log, i, HasStatus).None?
          && Last(log, i, NamesRecommendation).None? && Last(log, i, NamesFlow).None?)
    && (i in table ==>
          var row, status := table[i], Last(log, i, HasStatus);
          var recommendation, flow := Last(log, i, NamesRecommendation), Last(log, i, NamesFlow);
          && (forall k: nat :: FirstFor(log, i, k) ==> row.firstSeenAt == log[k].createdAt)
          && Last(log, i, Anything).Some? && OwnFields(row, Last(log, i, Anything).value)
          && (if status.Some? then status.value.status == Some(row.status) && row.status != "" else row.status == "open")
          && row.recommendationId == (if recommendation.Some? then recommendation.value.payload.recommendationId else None)
          && row.flowId == (if flow.Some? then flow.value.payload.flowId else None))
  }

  lemma FirstPush(log: seq<Event>, e: Event, i: Id, k: nat)
    requires FirstFor(log + [e], i, k)
    ensures k < |log| ==> FirstFor(log, i, k)
    ensures k == |log| ==> e.incident == i && forall j :: 0 <= j < |log| ==> log[j].incident != i
  {
    assert forall j :: 0 <= j < |log| ==> (log + [e])[j] == log[j];
  }

  lemma FollowsPush(log: seq<Event>, e: Event, i: Id)
    requires Follows(log, i)
    ensures Follows(log + [e], i)
  {
    hide Refuses, Upserted, Last, OwnFields;
    var all, table := log + [e], ProjectAll(map[], log);
    assert all[..|log|] == log && ProjectAll(map[], all) == Upserted(table, e);
    assert all[|log|] == e && forall j :: 0 <= j < |log| ==> all[j] == log[j];
    LastPush(log, e, i, Anything);
    LastPush(log, e, i, HasStatus);
    LastPush(log, e, i, NamesRecommendation);
    LastPush(log, e, i, NamesFlow);
    forall k: nat | FirstFor(all, i, k) ensures k < |log| ==> FirstFor(log, i, k)
      ensures k == |log| ==> e.incident == i && i !in table
    {
      FirstPush(log, e, i, k);
    }
    if e.incident == i && (i in table ==> !Refuses(table[i], e)) {
      AcceptedLeaves(table, e);
    } else {
      OthersLeave(table, e, i);
    }
  }

  lemma {:induction false} AlwaysFollows(log: seq<Event>, i: Id)
    ensures Follows(log, i)
  {
    hide Follows;
    if log == [] {
      NothingFollows(i);
    } else {
      var n := |log| - 1;
      AlwaysFollows(log[..n], i);
      FollowsPush(log[..n], log[n], i);
      assert log[..n] + [log[n]] == log;
    }
  }

  lemma NothingFollows(i: Id)
    ensures Follows([], i)
  {
  }

  // ---------- the theorem ----------

  /** After any log an incident has a row exactly when it has events. The first-seen time is
      that of its first event; the recommendation and flow are those of the last accepted
      event that named one, the status that of the last accepted event that carried one, and
      "open" if none did; everything else is what the last accepted event says. */
  lemma RowByField(log: seq<Event>, i: Id)
    ensures i in ProjectAll(map[], log) <==> exists k :: 0 <= k < |log| && log[k].incident == i
    ensures i in ProjectAll(map[], log) ==>
      var row := ProjectAll(map[], log)[i];
      && (forall k: nat :: FirstFor(log, i, k) ==> row.firstSeenAt == log[k].createdAt)
      && (forall k: nat :: LastTaken(log, i, Anything, k) ==>
            && row.latestEventId == log[k].id && row.latestEventType == log[k].eventType && row.latestEventAt == log[k].createdAt
            && row.eventStage == log[k].eventStage && row.transportChannel == log[k].transportChannel
            && row.payload == log[k].payload && row.detail == log[k].detail
            && row.tenantId == (if log[k].tenantId == "" then "default" else log[k].tenantId))
      && (forall k: nat :: LastTaken(log, i, HasStatus, k) ==> log[k].status == Some(row.status))
      && (NoneTaken(log, i, HasStatus) ==> row.status == "open")
      && (forall k: nat :: LastTaken(log, i, NamesRecommendation, k) ==> row.recommendationId == log[k].payload.recommendationId)
      && (NoneTaken(log, i, NamesRecommendation) ==> row.recommendationId == None)
      && (forall k: nat :: LastTaken(log, i, NamesFlow, k) ==> row.flowId == log[k].payload.flowId)
      && (NoneTaken(log, i, NamesFlow) ==> row.flowId == None)
  {
    hide ProjectAll, Last, LastTaken, NoneTaken, FirstFor;
    AlwaysFollows(log, i);
    LastExactly(log, i, Anything);
    LastExactly(log, i, HasStatus);
    LastExactly(log, i, NamesRecommendation);
    LastExactly(log, i, NamesFlow);
  }

  /** Such events exist: an incident with events has a first one and a last accepted one. */
  lemma {:induction false} SomeAreTaken(log: seq<Event>, i: Id) returns (first: nat, last: nat)
    requires exists k :: 0 <= k < |log| && log[k].incident == i
    ensures FirstFor(log, i, first) && LastTaken(log, i, Anything, last)
  {
    hide ProjectAll, Refuses;
    var n := |log| - 1;
    var init := log[..n];
    assert forall k :: 0 <= k < n ==> init[k] == log[k];
    if exists k :: 0 <= k < |init| && init[k].incident == i {
      first, last := SomeAreTaken(init, i);
      forall k: nat | k < n ensures TakenFor(init, i, Anything, k) <==> TakenFor(log, i, Anything, k) {
        TakenBefore(log, i, Anything, n, k);
      }
      if TakenFor(log, i, Anything, n) {
        last := n;
      }
    } else {
      AlwaysFollows(init, i);
      first, last := n, n;
    }
  }
}
