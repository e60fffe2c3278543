/** Merging a group fills the nested dictionaries of its best event in place. This module
    says what a pass leaves of its input, and that a second pass over that input gives the
    same result as the first. */
module EventMutation {
  import opened Wrappers
  import opened EventMerge

  // ---------- what a pass leaves ----------

  /** A dictionary that the merged event shares is filled; one that it copied from another
      event is not. */
  function InPlace(own: Nested, merged: Nested): Nested {
    if own.Dict? then merged else own
  }

  function Touched(best: Event, merged: Event): Event {
    best.(input := InPlace(best.input, merged.input), metrics := InPlace(best.metrics, merged.metrics))
  }

  /** The event is the best of its group, the first of them. */
  predicate Leads(events: seq<Event>, i: nat)
    requires i < |events|
  {
    forall j :: 0 <= j < |events| && events[j].StepKey() == events[i].StepKey() ==>
      (j < i ==> Score(events[j]) < Score(events[i])) && (i < j ==> Score(events[j]) <= Score(events[i]))
  }

  function LeftAt(events: seq<Event>, i: nat): Event
    requires i < |events|
  {
    var group := Group(events, events[i].StepKey());
    if Leads(events, i) && group != [] then Touched(events[i], Merged(group)) else events[i]
  }

  /** The input as a pass leaves it. */
  function LeftBy(events: seq<Event>): seq<Event> {
    seq(|events|, i requires 0 <= i < |events| => LeftAt(events, i))
  }

  // ---------- filling, field by field ----------

  function ValuesFilled(own: Value, offers: seq<Value>): Value {
    if offers == [] then own else FilledValue(ValuesFilled(own, offers[..|offers| - 1]), offers[|offers| - 1])
  }

  function NestedFilled(own: Nested, offers: seq<Nested>): Nested {
    if offers == [] then own else FilledNested(NestedFilled(own, offers[..|offers| - 1]), offers[|offers| - 1])
  }

  lemma ValuesPush(own: Value, offers: seq<Value>, v: Value)
    ensures ValuesFilled(own, offers + [v]) == FilledValue(ValuesFilled(own, offers), v)
  {
    assert (offers + [v])[..|offers|] == offers;
  }

  lemma NestedPush(own: Nested, offers: seq<Nested>, n: Nested)
    ensures NestedFilled(own, offers + [n]) == FilledNested(NestedFilled(own, offers), n)
  {
    hide FilledNested;
    assert (offers + [n])[..|offers|] == offers;
  }

  lemma FilledPush(merged: Event, group: seq<Event>, e: Event)
    ensures FilledAll(merged, group + [e]) == Filled(FilledAll(merged, group), e)
  {
    hide Filled;
    assert (group + [e])[..|group|] == group;
  }

  lemma ColumnsPush(group: seq<Event>, e: Event)
    ensures Actions(group + [e]) == Actions(group) + [e.action]
    ensures Decisions(group + [e]) == Decisions(group) + [e.decision]
    ensures Outputs(group + [e]) == Outputs(group) + [e.output]
    ensures Targets(group + [e]) == Targets(group) + [e.communicatesTo]
    ensures Inputs(group + [e]) == Inputs(group) + [e.input]
    ensures Metrics(group + [e]) == Metrics(group) + [e.metrics]
  {
  }

  lemma NothingFills(merged: Event)
    ensures FilledAll(merged, []) == merged && ByField(merged, []) == merged
  {
    assert Actions([]) == [] && Decisions([]) == [] && Outputs([]) == [] && Targets([]) == [];
    assert Inputs([]) == [] && Metrics([]) == [];
  }

  function ByField(merged: Event, group: seq<Event>): Event {
    merged.(
      action := ValuesFilled(merged.action, Actions(group)), decision := ValuesFilled(merged.decision, Decisions(group)),
      output := ValuesFilled(merged.output, Outputs(group)),
      communicatesTo := ValuesFilled(merged.communicatesTo, Targets(group)),
      input := NestedFilled(merged.input, Inputs(group)), metrics := NestedFilled(merged.metrics, Metrics(group)))
  }

  lemma ByFieldPush(merged: Event, group: seq<Event>, e: Event)
    ensures ByField(merged, group + [e]) == Filled(ByField(merged, group), e)
  {
    hide FilledValue, FilledNested, ValuesFilled, NestedFilled, Actions, Decisions, Outputs, Targets, Inputs, Metrics;
    ColumnsPush(group, e);
    ValuesPush(merged.action, Actions(group), e.action);
    ValuesPush(merged.decision, Decisions(group), e.decision);
    ValuesPush(merged.output, Outputs(group), e.output);
    ValuesPush(merged.communicatesTo, Targets(group), e.communicatesTo);
    NestedPush(merged.input, Inputs(group), e.input);
    NestedPush(merged.metrics, Metrics(group), e.metrics);
  }

  /** Filling a group fills each field from what the group offers for it. */
  lemma {:induction false} FilledByField(merged: Event, group: seq<Event>)
    ensures FilledAll(merged, group) == ByField(merged, group)
  {
    hide FilledAll, ByField, Filled;
    if group == [] {
      NothingFills(merged);
    } else {
      var init, last := group[..|group| - 1], group[|group| - 1];
      assert group == init + [last];
      FilledByField(merged, init);
      FilledPush(merged, init, last);
      ByFieldPush(merged, init, last);
    }
  }

  // ---------- a filled dictionary stays ----------

  lemma {:induction false} FilledStays(r: Nested, offers: seq<Nested>)
    requires forall i :: 0 <= i < |offers| ==> FilledNested(r, offers[i]) == r
    ensures NestedFilled(r, offers) == r
  {
    hide FilledNested;
    if offers != [] {
      FilledStays(r, offers[..|offers| - 1]);
    }
  }

  lemma {:induction false} BaseOfDict(own: Nested, offers: seq<Nested>)
    requires own.Dict?
    ensures Base(own, offers) == own
  {
    if offers != [] {
      BaseOfDict(own, offers[..|offers| - 1]);
    }
  }

  lemma {:induction false} NestedIsRight(own: Nested, offers: seq<Nested>)
    ensures NestedRight(NestedFilled(own, offers), Base(own, offers), offers)
  {
    hide FilledNested, NestedRight, Base;
    if offers == [] {
      NothingNested(own);
    } else {
      var init, last := offers[..|offers| - 1], offers[|offers| - 1];
      NestedIsRight(own, init);
      NestedRightPush(NestedFilled(own, init), own, init, last);
      assert offers == init + [last];
    }
  }

  /** What has been offered everything has nothing left to take. */
  lemma NothingToTake(r: map<string, Value>, base: map<string, Value>, offers: seq<Nested>, i: nat)
    requires forall k :: EntryRight(r, base, offers, k)
    requires i < |offers|
    ensures FilledNested(Dict(r), offers[i]) == Dict(r)
  {
    hide Meaningful;
    if offers[i].Dict? {
      forall k | k in offers[i].entries && k !in r ensures !Meaningful(offers[i].entries[k]) {
        assert EntryRight(r, base, offers, k);
        assert !Offers(offers[i], k);
      }
      assert FilledNested(Dict(r), offers[i]).entries == r;
    }
  }

  lemma TakesNothingFromItself(r: Nested)
    ensures FilledNested(r, r) == r
  {
    hide Meaningful;
    if r.Dict? {
      assert FilledNested(r, r).entries == r.entries;
    }
  }

  /** Filling again, from the same offers with the filled dictionary among them, changes
      nothing. */
  lemma FilledAgain(offers: seq<Nested>, b: nat)
    requires b < |offers|
    ensures var r := NestedFilled(offers[b], offers);
      NestedFilled(InPlace(offers[b], r), offers[b := InPlace(offers[b], r)]) == r
  {
    hide FilledNested, NestedFilled, NestedRight, Base, EntryRight;
    var own := offers[b];
    var r := NestedFilled(own, offers);
    if own.Dict? {
      NestedIsRight(own, offers);
      BaseOfDict(own, offers);
      assert r.Dict? && forall k :: EntryRight(r.entries, own.entries, offers, k) by { RightOfDict(r, own, offers); }
      var again := offers[b := r];
      forall i | 0 <= i < |again| ensures FilledNested(r, again[i]) == r {
        if i == b {
          TakesNothingFromItself(r);
        } else {
          NothingToTake(r.entries, own.entries, offers, i);
        }
      }
      FilledStays(r, again);
    } else {
      assert offers[b := own] == offers;
    }
  }

  lemma RightOfDict(r: Nested, own: Nested, offers: seq<Nested>)
    requires NestedRight(r, own, offers) && own.Dict?
    ensures r.Dict? && forall k :: EntryRight(r.entries, own.entries, offers, k)
  {
    hide EntryRight;
  }

  // ---------- the best event stays the best ----------

  predicate LeadsIn(group: seq<Event>, b: nat)
    requires b < |group|
  {
    && (forall i :: 0 <= i < b ==> Score(group[i]) < Score(group[b]))
    && (forall i :: b < i < |group| ==> Score(group[i]) <= Score(group[b]))
  }

  lemma LeaderIsBest(group: seq<Event>, b: nat)
    requires b < |group|
    ensures LeadsIn(group, b) ==> Best(group) == group[b]
    ensures forall c: nat :: c < |group| && LeadsIn(group, b) && LeadsIn(group, c) ==> b == c
  {
    hide Score, Best;
    var c := BestIsFirstMaximum(group);
  }

  lemma NestedKeepsEntries(own: Nested, offers: seq<Nested>)
    requires own.Dict?
    ensures var r := NestedFilled(own, offers); r.Dict? && forall k :: k in own.entries ==> k in r.entries
  {
    hide NestedFilled, EntryRight, Base;
    NestedIsRight(own, offers);
    BaseOfDict(own, offers);
    var r := NestedFilled(own, offers);
    RightOfDict(r, own, offers);
    forall k | k in own.entries ensures k in r.entries {
      EntryOfBase(r.entries, own.entries, offers, k);
    }
  }

  lemma EntryOfBase(r: map<string, Value>, base: map<string, Value>, offers: seq<Nested>, k: string)
    requires EntryRight(r, base, offers, k) && k in base
    ensures k in r
  {
  }

  predicate HasEntries(n: Nested) {
    n.Dict? && n.entries != map[]
  }

  lemma EntriesStay(own: Nested, offers: seq<Nested>)
    ensures HasEntries(own) ==> HasEntries(InPlace(own, NestedFilled(own, offers)))
  {
    hide NestedFilled;
    if HasEntries(own) {
      NestedKeepsEntries(own, offers);
      var k :| k in own.entries;
      assert k in NestedFilled(own, offers).entries;
    }
  }

  lemma ScoreByParts(e: Event, f: Event)
    requires f == e.(input := f.input, metrics := f.metrics)
    requires HasEntries(e.input) ==> HasEntries(f.input)
    requires HasEntries(e.metrics) ==> HasEntries(f.metrics)
    ensures Score(e) <= Score(f)
  {
    hide Meaningful;
  }

  // ---------- one group ----------

  lemma {:induction false} SameRecords(kind: Kind, a: seq<Event>, b: seq<Event>)
    requires |a| == |b| && forall i :: 0 <= i < |a| ==> a[i].Listed(kind) == b[i].Listed(kind)
    ensures Recorded(kind, a) == Recorded(kind, b)
  {
    if a != [] {
      SameRecords(kind, a[..|a| - 1], b[..|b| - 1]);
    }
  }

  lemma FilledAllAgain(group: seq<Event>, b: nat)
    requires b < |group|
    ensures var m := FilledAll(group[b], group);
      FilledAll(Touched(group[b], m), group[b := Touched(group[b], m)]) == m
  {
    hide ValuesFilled, NestedFilled, FilledAll;
    var best := group[b];
    var m := FilledAll(best, group);
    var best' := Touched(best, m);
    var again := group[b := best'];
    FilledByField(best, group);
    FilledByField(best', again);
    assert Actions(again) == Actions(group) && Decisions(again) == Decisions(group);
    assert Outputs(again) == Outputs(group) && Targets(again) == Targets(group);
    assert Inputs(again) == Inputs(group)[b := best'.input] && Metrics(again) == Metrics(group)[b := best'.metrics];
    FilledAgain(Inputs(group), b);
    FilledAgain(Metrics(group), b);
  }

  lemma LeaderStays(group: seq<Event>, b: nat)
    requires b < |group| && LeadsIn(group, b)
    ensures LeadsIn(group[b := Touched(group[b], FilledAll(group[b], group))], b)
  {
    hide ValuesFilled, NestedFilled, FilledAll, Score;
    var best := group[b];
    FilledByField(best, group);
    EntriesStay(best.input, Inputs(group));
    EntriesStay(best.metrics, Metrics(group));
    ScoreByParts(best, Touched(best, FilledAll(best, group)));
  }

  lemma MergedOfMany(group: seq<Event>)
    requires |group| > 1
    ensures var m := FilledAll(Best(group), group);
      && Merged(group) == m.(
           llmCalls := if Recorded(ModelCalls, group) != [] then Some(Recorded(ModelCalls, group)) else m.llmCalls,
           llmErrors := if Recorded(ModelErrors, group) != [] then Some(Recorded(ModelErrors, group)) else m.llmErrors)
      && Merged(group).input == m.input && Merged(group).metrics == m.metrics
  {
    hide FilledAll, Best, Recorded;
  }

  /** A group merges the same after its best event has been filled in place. */
  lemma MergedAgain(group: seq<Event>, b: nat)
    requires b < |group| && LeadsIn(group, b)
    ensures Merged(group[b := Touched(group[b], Merged(group))]) == Merged(group)
  {
    hide FilledAll, Best, Recorded, LeadsIn, Merged;
    LeaderIsBest(group, b);
    if |group| == 1 {
      MergedOfOne(group);
      assert group[b := group[b]] == group;
    } else {
      var best := group[b];
      var best' := Touched(best, Merged(group));
      var again := group[b := best'];
      MergedOfMany(group);
      LeaderStays(group, b);
      LeaderIsBest(again, b);
      FilledAllAgain(group, b);
      MergedOfMany(again);
      SameRecords(ModelCalls, again, group);
      SameRecords(ModelErrors, again, group);
    }
  }

  lemma MergedOfOne(group: seq<Event>)
    requires |group| == 1
    ensures Merged(group) == group[0] && Touched(group[0], Merged(group)) == group[0]
  {
  }

  // ---------- the positions of a group ----------

  function Positions(events: seq<Event>, k: Key): seq<nat> {
    if events == [] then [] else
      var n := |events| - 1;
      Positions(events[..n], k) + if events[n].StepKey() == k then [n] else []
  }

  lemma PositionsPush(events: seq<Event>, e: Event, k: Key)
    ensures Positions(events + [e], k) == Positions(events, k) + if e.StepKey() == k then [|events|] else []
  {
    assert (events + [e])[..|events|] == events;
  }

  lemma NoPositions(k: Key)
    ensures Positions([], k) == [] && Group([], k) == []
  {
  }

  /** The group is what stands at its positions, in order. */
  lemma {:induction false} GroupAtPositions(events: seq<Event>, k: Key)
    ensures var group, at := Group(events, k), Positions(events, k);
      && |group| == |at|
      && (forall j :: 0 <= j < |at| ==> at[j] < |events| && group[j] == events[at[j]] && group[j].StepKey() == k)
      && (forall i, j :: 0 <= i < j < |at| ==> at[i] < at[j])
  {
    hide Group, Positions;
    if events == [] {
      NoPositions(k);
    } else {
      var n := |events| - 1;
      var init, last := events[..n], events[n];
      assert events == init + [last];
      GroupAtPositions(init, k);
      GroupSnoc(init, last, k);
      PositionsPush(init, last, k);
    }
  }

  lemma {:induction false} EveryPosition(events: seq<Event>, k: Key, i: nat)
    requires i < |events| && events[i].StepKey() == k
    ensures i in Positions(events, k)
  {
    hide Positions;
    var n := |events| - 1;
    assert events == events[..n] + [events[n]];
    PositionsPush(events[..n], events[n], k);
    if i < n {
      EveryPosition(events[..n], k, i);
    }
  }

  ghost predicate SameSteps(a: seq<Event>, b: seq<Event>) {
    |a| == |b| && forall i :: 0 <= i < |a| ==> a[i].StepKey() == b[i].StepKey()
  }

  lemma {:induction false} SamePositions(a: seq<Event>, b: seq<Event>, k: Key)
    requires SameSteps(a, b)
    ensures Positions(a, k) == Positions(b, k)
  {
    if a != [] {
      var n := |a| - 1;
      assert forall i :: 0 <= i < n ==> a[..n][i] == a[i] && b[..n][i] == b[i];
      SamePositions(a[..n], b[..n], k);
    }
  }

  lemma {:induction false} SameKeys(a: seq<Event>, b: seq<Event>)
    requires SameSteps(a, b)
    ensures Keys(a) == Keys(b)
  {
    if a != [] {
      var n := |a| - 1;
      assert forall i :: 0 <= i < n ==> a[..n][i] == a[i] && b[..n][i] == b[i];
      SameKeys(a[..n], b[..n]);
    }
  }

  lemma LeftHasSameSteps(events: seq<Event>)
    ensures SameSteps(LeftBy(events), events)
  {
    hide Leads, Merged, Group;
  }

  /** Leading the group is leading in the list. */
  lemma LeadsByPosition(events: seq<Event>, k: Key, j: nat)
    requires j < |Group(events, k)| && j < |Positions(events, k)| && Positions(events, k)[j] < |events|
    ensures Leads(events, Positions(events, k)[j]) <==> LeadsIn(Group(events, k), j)
  {
    hide Score, Group, Positions;
    GroupAtPositions(events, k);
    var group, at := Group(events, k), Positions(events, k);
    if Leads(events, at[j]) {
      forall i | 0 <= i < |group| && i != j
        ensures i < j ==> Score(group[i]) < Score(group[j])
        ensures j < i ==> Score(group[i]) <= Score(group[j])
      {
        assert events[at[i]].StepKey() == events[at[j]].StepKey();
      }
    }
    if LeadsIn(group, j) {
      forall i | 0 <= i < |events| && events[i].StepKey() == events[at[j]].StepKey()
        ensures i < at[j] ==> Score(events[i]) < Score(events[at[j]])
        ensures at[j] < i ==> Score(events[i]) <= Score(events[at[j]])
      {
        EveryPosition(events, k, i);
        var l :| 0 <= l < |at| && at[l] == i;
        assert l < j ==> at[l] < at[j];
        assert j < l ==> at[j] < at[l];
      }
    }
  }

  /** After a pass a group has its best event filled in place and is otherwise as it was. */
  lemma GroupLeft(events: seq<Event>, k: Key) returns (b: nat)
    requires Group(events, k) != []
    ensures var group := Group(events, k);
      && b < |group| && LeadsIn(group, b)
      && Group(LeftBy(events), k) == group[b := Touched(group[b], Merged(group))]
  {
    hide Group, Positions, Merged, Leads, LeadsIn, Score, Touched;
    var group, at := Group(events, k), Positions(events, k);
    var left := LeftBy(events);
    GroupAtPositions(events, k);
    GroupAtPositions(left, k);
    LeftHasSameSteps(events);
    SamePositions(left, events, k);
    b := Leader(group);
    forall j | 0 <= j < |group| ensures Group(left, k)[j] == if j == b then Touched(group[b], Merged(group)) else group[j] {
      LeadsByPosition(events, k, j);
      LeaderIsBest(group, j);
      assert left[at[j]] == LeftAt(events, at[j]);
    }
  }

  lemma Leader(group: seq<Event>) returns (b: nat)
    requires group != []
    ensures b < |group| && LeadsIn(group, b)
  {
    hide Score;
    b := BestIsFirstMaximum(group);
  }

  // ---------- the theorem ----------

  lemma {:induction false} MergeAllSame(a: seq<Event>, b: seq<Event>, keys: seq<Key>)
    requires forall k :: k in keys ==> k in Keys(a) && k in Keys(b) && MergedAt(a, k) == MergedAt(b, k)
    ensures MergeAll(a, keys) == MergeAll(b, keys)
  {
    hide Keys, MergedAt;
    if keys != [] {
      MergeAllSame(a, b, keys[..|keys| - 1]);
      assert keys[|keys| - 1] in keys;
    }
  }

  lemma SameMerged(events: seq<Event>, k: Key)
    requires k in Keys(events) && k in Keys(LeftBy(events))
    ensures MergedAt(LeftBy(events), k) == MergedAt(events, k)
  {
    hide Keys, Group, Merged, LeadsIn, LeftBy;
    KeyIffGroup(events, k);
    var b := GroupLeft(events, k);
    MergedAgain(Group(events, k), b);
  }

  /** Deduplicating the input as a first pass has left it gives what the first pass gave. */
  lemma SecondPassAgrees(events: seq<Event>)
    ensures Deduplicated(LeftBy(events)) == Deduplicated(events)
  {
    hide Keys, MergedAt, MergeAll, InStepOrder, LeftBy;
    var left := LeftBy(events);
    LeftHasSameSteps(events);
    SameKeys(left, events);
    var keys := InStepOrder(Keys(events));
    OrderedMembers(Keys(events));
    forall k | k in keys ensures k in Keys(events) && MergedAt(left, k) == MergedAt(events, k) {
      SameMerged(events, k);
    }
    MergeAllSame(left, events, keys);
  }
}
