/** Rebuilding a trace from recorded events: events of the same step and agent are merged
    into one, and the merged events are put in order of their steps. `SessionController`
    models the user interface's own copy of this code. */
module EventMerge {
  import opened Wrappers
  import opened Text

  // ---------- values ----------

  /** A JSON value; `text` is what `str(value or "")` makes of it. */
  datatype Value =
    | Null
    | Str(text: string)
    | Collection(size: nat, text: string)
    | Scalar(text: string)

  function TextOf(v: Value): string {
    if v.Null? then "" else v.text
  }

  predicate IsPlaceholder(token: string) {
    token == "" || token == "-" || token == "n/a" || token == "na" || token == "none" || token == "null" || token == "unknown"
  }

  predicate Meaningful(v: Value) {
    match v
    case Null => false
    case Str(s) => !IsPlaceholder(Lower(Strip(s)))
    case Collection(size, _) => size > 0
    case Scalar(_) => true
  }

  /** A field that should hold a dictionary. */
  datatype Nested = NotDict(value: Value) | Dict(entries: map<string, Value>)

  /** The two lists an event may carry. */
  datatype Kind = ModelCalls | ModelErrors

  datatype Event = Event(
    sequence: int, agent: string,
    action: Value, decision: Value, output: Value, communicatesTo: Value,
    input: Nested, metrics: Nested,
    llmCalls: Option<seq<Value>>, llmErrors: Option<seq<Value>>,   // `None` unless a list
    rest: map<string, Value>)
  {
    function StepKey(): Key {
      Key(sequence, Strip(agent))
    }

    function Listed(kind: Kind): seq<Value> {
      (if kind.ModelCalls? then llmCalls else llmErrors).GetOr([])
    }
  }

  datatype Key = Key(sequence: int, agent: string)

  // ---------- merging a group ----------

  predicate IsPending(token: string) {
    token == "PENDING" || token == "QUEUED" || token == "AWAITING_APPROVAL" || token == "AWAITING USER APPROVAL" || token == "STANDBY"
  }

  function Bonus(holds: bool, points: nat): nat {
    if holds then points else 0
  }

  function Score(e: Event): nat {
    var decision := Strip(TextOf(e.decision));
    Bonus(Meaningful(Str(decision)), 2)
    + Bonus(decision != "" && !IsPending(Upper(decision)), 8)
    + Bonus(Meaningful(e.output), 3)
    + Bonus(Meaningful(e.action), 2)
    + Bonus(e.input.Dict? && e.input.entries != map[], 1)
    + Bonus(e.metrics.Dict? && e.metrics.entries != map[], 1)
  }

  /** A value says something unless it is null, an empty collection, or a text that is blank
      or one of six placeholders, whatever its case. */
  ghost predicate Says(v: Value) {
    || v.Scalar?
    || (v.Collection? && v.size != 0)
    || (v.Str? && Lower(Strip(v.text)) !in {"", "-", "n/a", "na", "none", "null", "unknown"})
  }

  lemma MeaningfulExactly(v: Value)
    ensures Meaningful(v) <==> Says(v)
  {
  }

  /** An event that records an outcome: a decision that says something and waits for nobody. */
  ghost predicate Decided(e: Event) {
    && !e.decision.Null? && Says(Str(Strip(e.decision.text)))
    && Upper(Strip(e.decision.text)) !in {"PENDING", "QUEUED", "AWAITING_APPROVAL", "AWAITING USER APPROVAL", "STANDBY"}
  }

  /** An event whose decision is missing, blank or waiting. */
  ghost predicate Undecided(e: Event) {
    || e.decision.Null? || Strip(e.decision.text) == ""
    || Upper(Strip(e.decision.text)) in {"PENDING", "QUEUED", "AWAITING_APPROVAL", "AWAITING USER APPROVAL", "STANDBY"}
  }

  /** What each part of an event is worth. */
  lemma ScoreExactly(e: Event)
    ensures var decision := if e.decision.Null? then "" else Strip(e.decision.text);
      Score(e) ==
        (if Says(Str(decision)) then 2 else 0)
        + (if Undecided(e) then 0 else 8)
        + (if Says(e.output) then 3 else 0) + (if Says(e.action) then 2 else 0)
        + (if e.input.Dict? && |e.input.entries| > 0 then 1 else 0)
        + (if e.metrics.Dict? && |e.metrics.entries| > 0 then 1 else 0)
  {
    hide Meaningful, Says, Strip, Upper;
    MeaningfulExactly(Str(if e.decision.Null? then "" else Strip(e.decision.text)));
    MeaningfulExactly(e.output);
    MeaningfulExactly(e.action);
    StripOfTrimmed("");
  }

  /** However much else an undecided event holds, a decided one of its group is chosen
      before it. */
  lemma DecidedWins(decided: Event, undecided: Event)
    requires Decided(decided) && Undecided(undecided)
    ensures Score(undecided) < Score(decided)
  {
    hide Score, Strip, Upper;
    ScoreExactly(decided);
    ScoreExactly(undecided);
    StripTrims(decided);
    assert |Lower(Strip(decided.decision.text))| == |Strip(decided.decision.text)|;
  }

  lemma StripTrims(e: Event)
    requires !e.decision.Null?
    ensures Strip(Strip(e.decision.text)) == Strip(e.decision.text)
  {
    StripIsTrimmed(e.decision.text);
    StripOfTrimmed(Strip(e.decision.text));
  }

  /** `max(group, key=score)`: the first of the best. */
  function Best(group: seq<Event>): Event
    requires group != []
  {
    if |group| == 1 then group[0] else
      var best := Best(group[..|group| - 1]);
      if Score(best) < Score(group[|group| - 1]) then group[|group| - 1] else best
  }

  lemma {:induction false} BestIsFirstMaximum(group: seq<Event>) returns (b: nat)
    requires group != []
    ensures b < |group| && Best(group) == group[b]
    ensures forall i :: 0 <= i < |group| ==> Score(group[i]) <= Score(group[b])
    ensures forall i :: 0 <= i < b ==> Score(group[i]) < Score(group[b])
  {
    hide Score;
    var n := |group| - 1;
    if n == 0 {
      b := 0;
    } else {
      b := BestIsFirstMaximum(group[..n]);
      assert forall i :: 0 <= i < n ==> group[..n][i] == group[i];
      if Score(group[b]) < Score(group[n]) {
        b := n;
      }
    }
  }

  function FilledValue(existing: Value, incoming: Value): Value {
    if !Meaningful(existing) && Meaningful(incoming) then incoming else existing
  }

  function FilledNested(existing: Nested, incoming: Nested): Nested {
    if existing.Dict? && incoming.Dict?
    then Dict(existing.entries + map k | k in incoming.entries && k !in existing.entries && Meaningful(incoming.entries[k]) :: incoming.entries[k])
    else if existing.NotDict? && incoming.Dict? && incoming.entries != map[] then incoming
    else existing
  }

  function Filled(merged: Event, item: Event): Event {
    merged.(action := FilledValue(merged.action, item.action),
            decision := FilledValue(merged.decision, item.decision),
            output := FilledValue(merged.output, item.output),
            communicatesTo := FilledValue(merged.communicatesTo, item.communicatesTo),
            input := FilledNested(merged.input, item.input),
            metrics := FilledNested(merged.metrics, item.metrics))
  }

  function FilledAll(merged: Event, group: seq<Event>): Event {
    if group == [] then merged else Filled(FilledAll(merged, group[..|group| - 1]), group[|group| - 1])
  }

  /** What the group has recorded, in order. */
  function Recorded(kind: Kind, group: seq<Event>): seq<Value> {
    if group == [] then [] else Recorded(kind, group[..|group| - 1]) + group[|group| - 1].Listed(kind)
  }

  function Merged(group: seq<Event>): Event
    requires group != []
  {
    if |group| == 1 then group[0] else
      var m := FilledAll(Best(group), group);
      m.(llmCalls := if Recorded(ModelCalls, group) != [] then Some(Recorded(ModelCalls, group)) else m.llmCalls,
         llmErrors := if Recorded(ModelErrors, group) != [] then Some(Recorded(ModelErrors, group)) else m.llmErrors)
  }

  /** What filling leaves alone. */
  lemma {:induction false} FillingKeeps(merged: Event, group: seq<Event>)
    ensures var m := FilledAll(merged, group);
      m == merged.(action := m.action, decision := m.decision, output := m.output, communicatesTo := m.communicatesTo,
                   input := m.input, metrics := m.metrics)
  {
    if group != [] {
      FillingKeeps(merged, group[..|group| - 1]);
    }
  }

  /** A field filled from a group has its own value if that is meaningful or the group offers
      nothing meaningful, and otherwise the first meaningful value that it offers. */
  ghost predicate FilledRight(result: Value, own: Value, offers: seq<Value>) {
    if Meaningful(own) || forall i :: 0 <= i < |offers| ==> !Meaningful(offers[i]) then result == own
    else exists i :: 0 <= i < |offers| && FirstMeaningful(offers, i) && result == offers[i]
  }

  predicate FirstMeaningful(offers: seq<Value>, i: nat)
    requires i < |offers|
  {
    Meaningful(offers[i]) && forall j :: 0 <= j < i ==> !Meaningful(offers[j])
  }

  lemma FilledRightPush(result: Value, own: Value, offers: seq<Value>, v: Value)
    requires FilledRight(result, own, offers)
    ensures FilledRight(FilledValue(result, v), own, offers + [v])
  {
    hide Meaningful;
    var more, n := offers + [v], |offers|;
    assert more[n] == v && forall i :: 0 <= i < n ==> more[i] == offers[i];
    if !Meaningful(own) {
      if i :| 0 <= i < n && FirstMeaningful(offers, i) && result == offers[i] {
        assert FirstMeaningful(more, i);
      } else if Meaningful(v) {
        assert FirstMeaningful(more, n);
      }
    }
  }

  predicate Offers(n: Nested, k: string) {
    n.Dict? && k in n.entries && Meaningful(n.entries[k])
  }

  /** The dictionary that entries are added to: the field's own, or else the first non-empty
      one offered. */
  function Base(own: Nested, offers: seq<Nested>): Nested {
    if offers == [] then own else
      var base, last := Base(own, offers[..|offers| - 1]), offers[|offers| - 1];
      if base.NotDict? && last.Dict? && last.entries != map[] then last else base
  }

  /** This offer is the first to offer the key. */
  predicate FirstOffer(offers: seq<Nested>, i: nat, k: string)
    requires i < |offers|
  {
    Offers(offers[i], k) && forall j :: 0 <= j < i ==> !Offers(offers[j], k)
  }

  ghost predicate EntryRight(result: map<string, Value>, base: map<string, Value>, offers: seq<Nested>, k: string) {
    if k in base then k in result && result[k] == base[k]
    else if k in result then exists i :: 0 <= i < |offers| && FirstOffer(offers, i, k) && result[k] == offers[i].entries[k]
    else forall i :: 0 <= i < |offers| ==> !Offers(offers[i], k)
  }

  /** A dictionary filled from a group keeps what its base has; every other key is there
      exactly when some member has something meaningful under it, and then holds what the
      first such member has. */
  ghost predicate NestedRight(result: Nested, base: Nested, offers: seq<Nested>) {
    if base.Dict?
    then result.Dict? && forall k :: EntryRight(result.entries, base.entries, offers, k)
    else result == base && forall i :: 0 <= i < |offers| ==> offers[i].NotDict? || offers[i].entries == map[]
  }

  lemma EntryRightPush(result: map<string, Value>, base: map<string, Value>, offers: seq<Nested>, n: Nested, k: string)
    requires EntryRight(result, base, offers, k)
    ensures EntryRight(FilledNested(Dict(result), n).entries, base, offers + [n], k)
  {
    hide Meaningful;
    var more := offers + [n];
    assert forall i :: 0 <= i < |offers| ==> more[i] == offers[i];
    if k !in base && k in result {
      var i :| 0 <= i < |offers| && FirstOffer(offers, i, k) && result[k] == offers[i].entries[k];
      assert FirstOffer(more, i, k);
    } else if k !in base && Offers(n, k) {
      assert more[|offers|] == n && FirstOffer(more, |offers|, k);
    }
  }

  lemma BasePush(own: Nested, offers: seq<Nested>, n: Nested)
    ensures var base := Base(own, offers);
      Base(own, offers + [n]) == if base.NotDict? && n.Dict? && n.entries != map[] then n else base
  {
    assert (offers + [n])[..|offers|] == offers;
  }

  lemma NestedRightPush(result: Nested, own: Nested, offers: seq<Nested>, n: Nested)
    requires NestedRight(result, Base(own, offers), offers)
    ensures NestedRight(FilledNested(result, n), Base(own, offers + [n]), offers + [n])
  {
    hide Meaningful, EntryRight, Base;
    BasePush(own, offers, n);
    var base := Base(own, offers);
    if base.Dict? {
      EntriesFill(result.entries, base.entries, offers, n);
    } else if n.Dict? && n.entries != map[] {
      forall k ensures EntryRight(n.entries, n.entries, offers + [n], k) {
        AdoptedEntry(n, offers, k);
      }
    }
  }

  lemma EntriesFill(result: map<string, Value>, base: map<string, Value>, offers: seq<Nested>, n: Nested)
    requires forall k :: EntryRight(result, base, offers, k)
    ensures FilledNested(Dict(result), n).Dict?
    ensures forall k :: EntryRight(FilledNested(Dict(result), n).entries, base, offers + [n], k)
  {
    hide EntryRight;
    forall k ensures EntryRight(FilledNested(Dict(result), n).entries, base, offers + [n], k) {
      EntryRightPush(result, base, offers, n, k);
    }
  }

  lemma AdoptedEntry(n: Nested, offers: seq<Nested>, k: string)
    requires n.Dict? && forall i :: 0 <= i < |offers| ==> offers[i].NotDict? || offers[i].entries == map[]
    ensures EntryRight(n.entries, n.entries, offers + [n], k)
  {
  }

  function Inputs(group: seq<Event>): seq<Nested> {
    seq(|group|, i requires 0 <= i < |group| => group[i].input)
  }

  function Metrics(group: seq<Event>): seq<Nested> {
    seq(|group|, i requires 0 <= i < |group| => group[i].metrics)
  }

  lemma {:induction false} FillingNests(merged: Event, group: seq<Event>)
    ensures var m := FilledAll(merged, group);
      && NestedRight(m.input, Base(merged.input, Inputs(group)), Inputs(group))
      && NestedRight(m.metrics, Base(merged.metrics, Metrics(group)), Metrics(group))
  {
    hide Meaningful, FilledValue, FilledNested, NestedRight, Base;
    if group == [] {
      assert Inputs(group) == [] && Metrics(group) == [];
      NothingNested(merged.input);
      NothingNested(merged.metrics);
    } else {
      var init, last := group[..|group| - 1], group[|group| - 1];
      var m := FilledAll(merged, init);
      FillingNests(merged, init);
      NestedRightPush(m.input, merged.input, Inputs(init), last.input);
      NestedRightPush(m.metrics, merged.metrics, Metrics(init), last.metrics);
      assert Inputs(group) == Inputs(init) + [last.input];
      assert Metrics(group) == Metrics(init) + [last.metrics];
    }
  }

  lemma NothingNested(own: Nested)
    ensures NestedRight(own, Base(own, []), [])
  {
  }

  function Actions(group: seq<Event>): seq<Value> {
    seq(|group|, i requires 0 <= i < |group| => group[i].action)
  }

  function Decisions(group: seq<Event>): seq<Value> {
    seq(|group|, i requires 0 <= i < |group| => group[i].decision)
  }

  function Outputs(group: seq<Event>): seq<Value> {
    seq(|group|, i requires 0 <= i < |group| => group[i].output)
  }

  function Targets(group: seq<Event>): seq<Value> {
    seq(|group|, i requires 0 <= i < |group| => group[i].communicatesTo)
  }

  lemma {:induction false} FillingFills(merged: Event, group: seq<Event>)
    ensures var m := FilledAll(merged, group);
      && FilledRight(m.action, merged.action, Actions(group))
      && FilledRight(m.decision, merged.decision, Decisions(group))
      && FilledRight(m.output, merged.output, Outputs(group))
      && FilledRight(m.communicatesTo, merged.communicatesTo, Targets(group))
  {
    hide Meaningful, FilledValue, FilledRight, FilledNested;
    if group == [] {
      assert Actions(group) == [] && Decisions(group) == [] && Outputs(group) == [] && Targets(group) == [];
      NothingOffered(merged.action);
      NothingOffered(merged.decision);
      NothingOffered(merged.output);
      NothingOffered(merged.communicatesTo);
    } else {
      var init, last := group[..|group| - 1], group[|group| - 1];
      var m := FilledAll(merged, init);
      FillingFills(merged, init);
      FilledRightPush(m.action, merged.action, Actions(init), last.action);
      FilledRightPush(m.decision, merged.decision, Decisions(init), last.decision);
      FilledRightPush(m.output, merged.output, Outputs(init), last.output);
      FilledRightPush(m.communicatesTo, merged.communicatesTo, Targets(init), last.communicatesTo);
      assert Actions(group) == Actions(init) + [last.action];
      assert Decisions(group) == Decisions(init) + [last.decision];
      assert Outputs(group) == Outputs(init) + [last.output];
      assert Targets(group) == Targets(init) + [last.communicatesTo];
    }
  }

  lemma NothingOffered(v: Value)
    ensures FilledRight(v, v, [])
  {
  }

  lemma {:induction false} NothingRecorded(kind: Kind, group: seq<Event>, b: nat)
    requires b < |group| && Recorded(kind, group) == []
    ensures group[b].Listed(kind) == []
  {
    if b < |group| - 1 {
      NothingRecorded(kind, group[..|group| - 1], b);
    }
  }

  /** The merged event of a group: step and agent of the best one; each of the four fields
      meaningful exactly when it is so in some member, and the best one's own if that is;
      both dictionaries filled key by key; all model calls and errors of the group, in
      order. */
  lemma MergedMeaning(group: seq<Event>)
    requires group != []
    ensures var m, best := Merged(group), Best(group);
      && m.sequence == best.sequence && m.agent == best.agent && m.rest == best.rest
      && FilledRight(m.action, best.action, Actions(group))
      && FilledRight(m.decision, best.decision, Decisions(group))
      && FilledRight(m.output, best.output, Outputs(group))
      && FilledRight(m.communicatesTo, best.communicatesTo, Targets(group))
      && NestedRight(m.input, Base(best.input, Inputs(group)), Inputs(group))
      && NestedRight(m.metrics, Base(best.metrics, Metrics(group)), Metrics(group))
      && m.Listed(ModelCalls) == Recorded(ModelCalls, group) && m.Listed(ModelErrors) == Recorded(ModelErrors, group)
  {
    hide Meaningful, FilledNested, Score, NestedRight, Base, FilledRight;
    var best := Best(group);
    FillingKeeps(best, group);
    FillingFills(best, group);
    FillingNests(best, group);
    if |group| == 1 {
      assert group[..0] == [];
      assert Filled(best, best) == best by {
        FillSelf(best);
      }
      assert FilledAll(best, group) == best;
      assert forall kind :: Recorded(kind, group) == [] + best.Listed(kind);
    } else {
      var b := BestIsFirstMaximum(group);
      if Recorded(ModelCalls, group) == [] {
        NothingRecorded(ModelCalls, group, b);
      }
      if Recorded(ModelErrors, group) == [] {
        NothingRecorded(ModelErrors, group, b);
      }
    }
  }

  lemma FillSelf(e: Event)
    ensures Filled(e, e) == e
  {
    hide Meaningful;
    assert FilledNested(e.input, e.input) == e.input by {
      if e.input.Dict? { assert FilledNested(e.input, e.input).entries == e.input.entries; }
    }
    assert FilledNested(e.metrics, e.metrics) == e.metrics by {
      if e.metrics.Dict? { assert FilledNested(e.metrics, e.metrics).entries == e.metrics.entries; }
    }
  }

  // ---------- grouping ----------

  /** The distinct keys, in the order of their first events. */
  function Keys(events: seq<Event>): seq<Key> {
    if events == [] then [] else
      var keys, k := Keys(events[..|events| - 1]), events[|events| - 1].StepKey();
      if k in keys then keys else keys + [k]
  }

  function Group(events: seq<Event>, k: Key): seq<Event> {
    if events == [] then [] else
      var group, last := Group(events[..|events| - 1], k), events[|events| - 1];
      if last.StepKey() == k then group + [last] else group
  }

  function Placed(sorted: seq<Key>, k: Key): seq<Key> {
    if sorted == [] || k.sequence < sorted[0].sequence then [k] + sorted else [sorted[0]] + Placed(sorted[1..], k)
  }

  /** Stable sort by step. */
  function InStepOrder(keys: seq<Key>): seq<Key> {
    if keys == [] then [] else Placed(InStepOrder(keys[..|keys| - 1]), keys[|keys| - 1])
  }

  lemma {:induction false} KeyIffGroup(events: seq<Event>, k: Key)
    ensures k in Keys(events) <==> Group(events, k) != []
    ensures forall e :: e in Group(events, k) ==> e in events && e.StepKey() == k
  {
    if events != [] {
      KeyIffGroup(events[..|events| - 1], k);
    }
  }

  lemma PlacedMembers(sorted: seq<Key>, k: Key)
    ensures forall x :: x in Placed(sorted, k) <==> x == k || x in sorted
  {
  }

  lemma {:induction false} OrderedMembers(keys: seq<Key>)
    ensures forall x :: x in InStepOrder(keys) <==> x in keys
  {
    if keys != [] {
      var init, last := keys[..|keys| - 1], keys[|keys| - 1];
      OrderedMembers(init);
      PlacedMembers(InStepOrder(init), last);
      assert keys == init + [last];
    }
  }

  function MergedAt(events: seq<Event>, k: Key): Event
    requires k in Keys(events)
  {
    KeyIffGroup(events, k);
    Merged(Group(events, k))
  }

  function MergeAll(events: seq<Event>, keys: seq<Key>): seq<Event>
    requires forall k :: k in keys ==> k in Keys(events)
  {
    if keys == [] then [] else MergeAll(events, keys[..|keys| - 1]) + [MergedAt(events, keys[|keys| - 1])]
  }

  function Deduplicated(events: seq<Event>): seq<Event> {
    OrderedMembers(Keys(events));
    MergeAll(events, InStepOrder(Keys(events)))
  }

  // ---------- one event per key, in order ----------

  lemma {:induction false} BestIsMember(group: seq<Event>)
    requires group != []
    ensures Best(group) in group
  {
    var b := BestIsFirstMaximum(group);
  }

  lemma MergedKeepsKey(events: seq<Event>, k: Key)
    requires k in Keys(events)
    ensures MergedAt(events, k).StepKey() == k
  {
    hide Merged, Best, FilledRight, NestedRight, Base;
    KeyIffGroup(events, k);
    MergedMeaning(Group(events, k));
    BestIsMember(Group(events, k));
  }

  function KeysOf(events: seq<Event>): seq<Key> {
    seq(|events|, i requires 0 <= i < |events| => events[i].StepKey())
  }

  lemma {:induction false} MergeAllKeys(events: seq<Event>, keys: seq<Key>)
    requires forall k :: k in keys ==> k in Keys(events)
    ensures KeysOf(MergeAll(events, keys)) == keys
  {
    hide MergedAt;
    if keys != [] {
      var init, last := keys[..|keys| - 1], keys[|keys| - 1];
      MergeAllKeys(events, init);
      assert last in keys;
      MergedKeepsKey(events, last);
      assert keys == init + [last];
      assert KeysOf(MergeAll(events, keys)) == KeysOf(MergeAll(events, init)) + [last];
    }
  }

  /** Position of the first event of a key. */
  function FirstOf(events: seq<Event>, k: Key): nat {
    if events == [] || events[0].StepKey() == k then 0 else 1 + FirstOf(events[1..], k)
  }

  /** By step, and within a step by first appearance. */
  ghost predicate Precedes(events: seq<Event>, a: Key, b: Key) {
    a.sequence < b.sequence || (a.sequence == b.sequence && FirstOf(events, a) < FirstOf(events, b))
  }

  ghost predicate Ordered(events: seq<Event>, keys: seq<Key>) {
    keys == [] || ((forall x :: x in keys[1..] ==> Precedes(events, keys[0], x)) && Ordered(events, keys[1..]))
  }

  lemma {:induction false} FirstInPrefix(a: seq<Event>, b: seq<Event>, k: Key)
    ensures Group(a, k) != [] ==> FirstOf(a + b, k) == FirstOf(a, k) < |a|
    ensures Group(a, k) == [] ==> FirstOf(a + b, k) == |a| + FirstOf(b, k)
  {
    if a == [] {
      assert a + b == b;
    } else {
      assert (a + b)[1..] == a[1..] + b;
      FirstInPrefix(a[1..], b, k);
      GroupCons(a, k);
    }
  }

  lemma GroupOfOne(e: Event, k: Key)
    ensures Group([e], k) == (if e.StepKey() == k then [e] else []) + Group([], k)
  {
    assert [e][..0] == [];
  }

  lemma {:induction false} GroupCons(events: seq<Event>, k: Key)
    requires events != []
    ensures Group(events, k) == (if events[0].StepKey() == k then [events[0]] else []) + Group(events[1..], k)
  {
    hide Group;
    if |events| == 1 {
      assert events == [events[0]] && events[1..] == [];
      GroupOfOne(events[0], k);
    } else {
      var init, tail, last := events[..|events| - 1], events[1..], events[|events| - 1];
      GroupCons(init, k);
      GroupSnoc(init, last, k);
      GroupSnoc(init[1..], last, k);
      assert events == init + [last] && tail == init[1..] + [last] && init[0] == events[0];
    }
  }

  lemma GroupSnoc(events: seq<Event>, e: Event, k: Key)
    ensures Group(events + [e], k) == Group(events, k) + if e.StepKey() == k then [e] else []
  {
    assert (events + [e])[..|events|] == events;
  }

  lemma {:induction false} PlacedOrdered(events: seq<Event>, sorted: seq<Key>, k: Key)
    requires Ordered(events, sorted) && forall x :: x in sorted ==> FirstOf(events, x) < FirstOf(events, k)
    ensures Ordered(events, Placed(sorted, k))
  {
    if sorted == [] {
    } else if k.sequence < sorted[0].sequence {
      assert ([k] + sorted)[1..] == sorted;
      assert forall x :: x in sorted ==> x == sorted[0] || x in sorted[1..];
    } else {
      PlacedOrdered(events, sorted[1..], k);
      PlacedMembers(sorted[1..], k);
      assert Placed(sorted, k)[1..] == Placed(sorted[1..], k);
    }
  }

  lemma {:induction false} OrderedInPrefix(events: seq<Event>, e: Event, keys: seq<Key>)
    requires Ordered(events, keys) && forall k :: k in keys ==> Group(events, k) != []
    ensures Ordered(events + [e], keys)
  {
    if keys != [] {
      OrderedInPrefix(events, e, keys[1..]);
      assert keys[0] in keys;
      FirstInPrefix(events, [e], keys[0]);
      forall x | x in keys[1..] ensures Precedes(events + [e], keys[0], x) {
        assert x in keys;
        FirstInPrefix(events, [e], x);
      }
    }
  }

  /** The keys come out ordered by step and, within a step, by first appearance. */
  lemma {:induction false} KeysAreOrdered(events: seq<Event>)
    ensures Ordered(events, InStepOrder(Keys(events)))
  {
    if events != [] {
      var init, last := events[..|events| - 1], events[|events| - 1];
      var k := last.StepKey();
      KeysAreOrdered(init);
      OrderedMembers(Keys(init));
      forall x | x in InStepOrder(Keys(init)) ensures Group(init, x) != [] && FirstOf(events, x) < |init| {
        KeyIffGroup(init, x);
        FirstInPrefix(init, [last], x);
        assert events == init + [last];
      }
      OrderedInPrefix(init, last, InStepOrder(Keys(init)));
      assert events == init + [last];
      if k !in Keys(init) {
        KeyIffGroup(init, k);
        FirstInPrefix(init, [last], k);
        PlacedOrdered(events, InStepOrder(Keys(init)), k);
        assert (Keys(init) + [k])[..|Keys(init)|] == Keys(init);
      }
    }
  }

  /** One event per key; the keys are those of the input, ordered by step and, within a
      step, by first appearance. */
  lemma OneEventPerKey(events: seq<Event>)
    ensures var keys := KeysOf(Deduplicated(events));
      && keys == InStepOrder(Keys(events)) && Ordered(events, keys)
      && (forall k :: k in keys <==> exists e :: e in events && e.StepKey() == k)
  {
    OrderedMembers(Keys(events));
    MergeAllKeys(events, InStepOrder(Keys(events)));
    KeysAreOrdered(events);
    forall k ensures k in Keys(events) <==> exists e :: e in events && e.StepKey() == k {
      KeyHasEvent(events, k);
    }
  }

  lemma {:induction false} KeyHasEvent(events: seq<Event>, k: Key)
    ensures k in Keys(events) <==> exists e :: e in events && e.StepKey() == k
  {
    if events != [] {
      var init, last := events[..|events| - 1], events[|events| - 1];
      KeyHasEvent(init, k);
      assert events == init + [last];
    }
  }

  /** The same in the events' own terms: each (step, stripped agent) of the input appears in
      the result, none appears twice, and the steps rise. */
  lemma OneEventPerStepAndAgent(events: seq<Event>)
    ensures var out := Deduplicated(events);
      && (forall e :: e in events ==> exists o :: o in out && o.sequence == e.sequence && Strip(o.agent) == Strip(e.agent))
      && (forall o :: o in out ==> exists e :: e in events && o.sequence == e.sequence && Strip(o.agent) == Strip(e.agent))
      && (forall i, j :: 0 <= i < j < |out| ==>
            out[i].sequence < out[j].sequence ||
            (out[i].sequence == out[j].sequence && Strip(out[i].agent) != Strip(out[j].agent)))
  {
    hide Deduplicated, Strip, Ordered, FirstOf;
    var out := Deduplicated(events);
    var keys := KeysOf(out);
    OneEventPerKey(events);
    forall e | e in events ensures exists o :: o in out && o.sequence == e.sequence && Strip(o.agent) == Strip(e.agent) {
      assert e.StepKey() in keys;
      var i :| 0 <= i < |keys| && keys[i] == e.StepKey();
      assert out[i] in out && out[i].StepKey() == e.StepKey();
    }
    forall o | o in out ensures exists e :: e in events && o.sequence == e.sequence && Strip(o.agent) == Strip(e.agent) {
      var i :| 0 <= i < |out| && out[i] == o;
      assert keys[i] == o.StepKey() && keys[i] in keys;
      var e :| e in events && e.StepKey() == keys[i];
    }
    forall i, j | 0 <= i < j < |out|
      ensures out[i].sequence < out[j].sequence ||
        (out[i].sequence == out[j].sequence && Strip(out[i].agent) != Strip(out[j].agent))
    {
      OrderedAt(events, keys, i, j);
      assert keys[i] == out[i].StepKey() && keys[j] == out[j].StepKey();
    }
  }

  // ---------- doing it twice ----------

  lemma {:induction false} OrderedAt(events: seq<Event>, keys: seq<Key>, i: nat, j: nat)
    requires Ordered(events, keys) && i < j < |keys|
    ensures Precedes(events, keys[i], keys[j])
  {
    if i > 0 {
      OrderedAt(events, keys[1..], i - 1, j - 1);
    }
  }

  /** Distinct keys in the order of their steps. */
  ghost predicate Rising(keys: seq<Key>) {
    forall i, j :: 0 <= i < j < |keys| ==> keys[i] != keys[j] && keys[i].sequence <= keys[j].sequence
  }

  lemma {:induction false} PlacedLast(sorted: seq<Key>, k: Key)
    requires forall x :: x in sorted ==> x.sequence <= k.sequence
    ensures Placed(sorted, k) == sorted + [k]
  {
    if sorted != [] {
      PlacedLast(sorted[1..], k);
    }
  }

  lemma {:induction false} RisingIsSorted(keys: seq<Key>)
    requires Rising(keys)
    ensures InStepOrder(keys) == keys
  {
    if keys != [] {
      var n := |keys| - 1;
      RisingIsSorted(keys[..n]);
      PlacedLast(keys[..n], keys[n]);
    }
  }

  lemma RisingInit(keys: seq<Key>, k: Key)
    requires Rising(keys + [k])
    ensures Rising(keys) && k !in keys
  {
    var all := keys + [k];
    assert all[|keys|] == k && forall i :: 0 <= i < |keys| ==> all[i] == keys[i];
  }

  lemma {:induction false} DistinctKeys(events: seq<Event>)
    requires Rising(KeysOf(events))
    ensures Keys(events) == KeysOf(events)
  {
    hide Rising, Keys;
    if events == [] {
      NoKeys();
    } else {
      var init, last := events[..|events| - 1], events[|events| - 1];
      assert events == init + [last] && KeysOf(events) == KeysOf(init) + [last.StepKey()];
      RisingInit(KeysOf(init), last.StepKey());
      DistinctKeys(init);
      KeysSnoc(init, last);
    }
  }

  lemma NoKeys()
    ensures Keys([]) == []
  {
  }

  lemma {:induction false} LoneGroup(events: seq<Event>, i: nat)
    requires Rising(KeysOf(events)) && i < |events|
    ensures Group(events, events[i].StepKey()) == [events[i]]
  {
    var n, keys := |events| - 1, KeysOf(events);
    assert KeysOf(events[..n]) == keys[..n];
    assert keys[i] == events[i].StepKey() && keys[n] == events[n].StepKey();
    if i < n {
      LoneGroup(events[..n], i);
    } else {
      DistinctKeys(events[..n]);
      KeyIffGroup(events[..n], keys[n]);
    }
  }

  lemma LoneMerged(events: seq<Event>, i: nat)
    requires Rising(KeysOf(events)) && i < |events| && events[i].StepKey() in Keys(events)
    ensures MergedAt(events, events[i].StepKey()) == events[i]
  {
    hide Keys;
    LoneGroup(events, i);
  }

  lemma MergeAllPush(events: seq<Event>, keys: seq<Key>, k: Key)
    requires k in Keys(events) && forall x :: x in keys ==> x in Keys(events)
    ensures MergeAll(events, keys + [k]) == MergeAll(events, keys) + [MergedAt(events, k)]
  {
    hide MergedAt, Keys;
    assert (keys + [k])[..|keys|] == keys;
  }

  lemma {:induction false} MergeAllLone(events: seq<Event>, n: nat)
    requires Rising(KeysOf(events)) && n <= |events|
    requires forall k :: k in KeysOf(events[..n]) ==> k in Keys(events)
    ensures MergeAll(events, KeysOf(events[..n])) == events[..n]
  {
    hide Keys, MergedAt, Group, Rising, MergeAll;
    if n == 0 {
      MergeAllNone(events);
      assert KeysOf(events[..0]) == [];
    } else {
      var init, last := KeysOf(events[..n - 1]), events[n - 1];
      assert KeysOf(events[..n]) == init + [last.StepKey()];
      assert last.StepKey() in KeysOf(events[..n]);
      MergeAllLone(events, n - 1);
      MergeAllPush(events, init, last.StepKey());
      LoneMerged(events, n - 1);
      assert events[..n] == events[..n - 1] + [last];
    }
  }

  lemma MergeAllNone(events: seq<Event>)
    ensures MergeAll(events, []) == []
  {
  }

  /** Deduplicating what has been deduplicated changes nothing. */
  lemma DeduplicatingTwice(events: seq<Event>)
    ensures Deduplicated(Deduplicated(events)) == Deduplicated(events)
  {
    hide Deduplicated, MergeAll, Keys, Ordered;
    var once := Deduplicated(events);
    OneEventPerKey(events);
    forall i, j | 0 <= i < j < |KeysOf(once)|
      ensures KeysOf(once)[i] != KeysOf(once)[j] && KeysOf(once)[i].sequence <= KeysOf(once)[j].sequence
    {
      OrderedAt(events, KeysOf(once), i, j);
    }
    RisingIsKept(once);
  }

  lemma RisingIsKept(events: seq<Event>)
    requires Rising(KeysOf(events))
    ensures Deduplicated(events) == events
  {
    hide MergeAll, Keys;
    DistinctKeys(events);
    RisingIsSorted(KeysOf(events));
    assert events[..|events|] == events;
    MergeAllLone(events, |events|);
  }

  // ---------- no model call or error is lost ----------

  lemma {:induction false} RecordedConcat(kind: Kind, a: seq<Event>, b: seq<Event>)
    ensures Recorded(kind, a + b) == Recorded(kind, a) + Recorded(kind, b)
  {
    if b == [] {
      assert a + b == a;
    } else {
      var n, all := |b| - 1, a + b;
      RecordedConcat(kind, a, b[..n]);
      assert all[..|all| - 1] == a + b[..n] && all[|all| - 1] == b[n];
      assert Recorded(kind, all) == Recorded(kind, a + b[..n]) + b[n].Listed(kind);
    }
  }

  /** What the groups of these keys have recorded, as a bag. */
  function RecordedUnder(kind: Kind, events: seq<Event>, keys: seq<Key>): multiset<Value> {
    if keys == [] then multiset{} else RecordedUnder(kind, events, keys[1..]) + multiset(Recorded(kind, Group(events, keys[0])))
  }

  lemma {:induction false} PlacedRecords(kind: Kind, events: seq<Event>, sorted: seq<Key>, k: Key)
    ensures RecordedUnder(kind, events, Placed(sorted, k)) == RecordedUnder(kind, events, sorted) + multiset(Recorded(kind, Group(events, k)))
  {
    if sorted == [] || k.sequence < sorted[0].sequence {
      assert ([k] + sorted)[1..] == sorted;
    } else {
      PlacedRecords(kind, events, sorted[1..], k);
      assert Placed(sorted, k)[1..] == Placed(sorted[1..], k);
    }
  }

  lemma {:induction false} PushedRecords(kind: Kind, events: seq<Event>, keys: seq<Key>, k: Key)
    ensures RecordedUnder(kind, events, keys + [k]) == RecordedUnder(kind, events, keys) + multiset(Recorded(kind, Group(events, k)))
  {
    if keys == [] {
      assert ([k])[1..] == [] && keys + [k] == [k];
    } else {
      PushedRecords(kind, events, keys[1..], k);
      assert (keys + [k])[1..] == keys[1..] + [k];
    }
  }

  lemma {:induction false} SortingKeepsRecords(kind: Kind, events: seq<Event>, keys: seq<Key>)
    ensures RecordedUnder(kind, events, InStepOrder(keys)) == RecordedUnder(kind, events, keys)
  {
    hide RecordedUnder, Placed, Recorded, Group;
    if keys != [] {
      var init, last := keys[..|keys| - 1], keys[|keys| - 1];
      SortingKeepsRecords(kind, events, init);
      PlacedRecords(kind, events, InStepOrder(init), last);
      PushedRecords(kind, events, init, last);
      assert keys == init + [last];
    }
  }

  predicate NoRepeats(keys: seq<Key>) {
    keys == [] || (keys[0] !in keys[1..] && NoRepeats(keys[1..]))
  }

  lemma {:induction false} PushNoRepeats(keys: seq<Key>, k: Key)
    requires NoRepeats(keys) && k !in keys
    ensures NoRepeats(keys + [k])
  {
    if keys != [] {
      PushNoRepeats(keys[1..], k);
      assert (keys + [k])[1..] == keys[1..] + [k];
    }
  }

  lemma {:induction false} KeysNoRepeats(events: seq<Event>)
    ensures NoRepeats(Keys(events))
  {
    if events != [] {
      KeysNoRepeats(events[..|events| - 1]);
      if events[|events| - 1].StepKey() !in Keys(events[..|events| - 1]) {
        PushNoRepeats(Keys(events[..|events| - 1]), events[|events| - 1].StepKey());
      }
    }
  }

  /** One more event adds its records to the group of its key and to no other. */
  lemma {:induction false} EventAddsRecords(kind: Kind, events: seq<Event>, e: Event, keys: seq<Key>)
    requires NoRepeats(keys)
    ensures RecordedUnder(kind, events + [e], keys) ==
      RecordedUnder(kind, events, keys) + if e.StepKey() in keys then multiset(e.Listed(kind)) else multiset{}
  {
    hide Group, Recorded;
    if keys != [] {
      EventAddsRecords(kind, events, e, keys[1..]);
      GroupSnoc(events, e, keys[0]);
      var group := Group(events, keys[0]);
      RecordsOfOne(kind, e);
      RecordedConcat(kind, group, [e]);
      assert group + [] == group;
    }
  }

  lemma NoEventsNoRecords(kind: Kind)
    ensures RecordedUnder(kind, [], Keys([])) == multiset(Recorded(kind, []))
  {
  }

  lemma KeysSnoc(events: seq<Event>, e: Event)
    ensures Keys(events + [e]) == if e.StepKey() in Keys(events) then Keys(events) else Keys(events) + [e.StepKey()]
  {
    assert (events + [e])[..|events|] == events;
  }

  lemma RecordsOfOne(kind: Kind, e: Event)
    ensures Recorded(kind, [e]) == e.Listed(kind)
  {
    assert [e][..0] == [];
  }

  lemma FirstOfItsKey(kind: Kind, events: seq<Event>, e: Event)
    requires e.StepKey() !in Keys(events)
    ensures Recorded(kind, Group(events + [e], e.StepKey())) == e.Listed(kind)
  {
    KeyIffGroup(events, e.StepKey());
    GroupSnoc(events, e, e.StepKey());
    assert [] + [e] == [e];
    RecordsOfOne(kind, e);
  }

  lemma {:induction false} GroupsHoldAllRecords(kind: Kind, events: seq<Event>)
    ensures RecordedUnder(kind, events, Keys(events)) == multiset(Recorded(kind, events))
  {
    hide RecordedUnder, Group, Keys, Recorded;
    if events == [] {
      NoEventsNoRecords(kind);
    } else {
      var init, last := events[..|events| - 1], events[|events| - 1];
      GroupsHoldAllRecords(kind, init);
      KeysNoRepeats(init);
      KeysSnoc(init, last);
      RecordedConcat(kind, init, [last]);
      RecordsOfOne(kind, last);
      assert events == init + [last];
      EventAddsRecords(kind, init, last, Keys(init));
      if last.StepKey() !in Keys(init) {
        PushedRecords(kind, events, Keys(init), last.StepKey());
        FirstOfItsKey(kind, init, last);
      }
    }
  }

  lemma {:induction false} MergedHoldRecords(kind: Kind, events: seq<Event>, keys: seq<Key>)
    requires forall k :: k in keys ==> k in Keys(events)
    ensures multiset(Recorded(kind, MergeAll(events, keys))) == RecordedUnder(kind, events, keys)
  {
    hide MergedAt, Keys;
    if keys != [] {
      var init, last := keys[..|keys| - 1], keys[|keys| - 1];
      MergedHoldRecords(kind, events, init);
      assert last in keys;
      RecordsOfMerged(kind, events, last);
      PushedRecords(kind, events, init, last);
      assert keys == init + [last];
      var m := MergeAll(events, keys);
      assert m[..|m| - 1] == MergeAll(events, init);
    }
  }

  lemma RecordsOfMerged(kind: Kind, events: seq<Event>, k: Key)
    requires k in Keys(events)
    ensures MergedAt(events, k).Listed(kind) == Recorded(kind, Group(events, k))
  {
    hide Merged, FilledRight, NestedRight, Base;
    KeyIffGroup(events, k);
    MergedMeaning(Group(events, k));
    assert kind == ModelCalls || kind == ModelErrors;
  }

  /** Deduplication keeps every recorded model call, and every recorded error, as often as it
      was recorded. */
  lemma RecordsAreKept(kind: Kind, events: seq<Event>)
    ensures multiset(Recorded(kind, Deduplicated(events))) == multiset(Recorded(kind, events))
  {
    OrderedMembers(Keys(events));
    MergedHoldRecords(kind, events, InStepOrder(Keys(events)));
    SortingKeepsRecords(kind, events, Keys(events));
    GroupsHoldAllRecords(kind, events);
  }

  // ---------- the loops ----------

  method MergeEvents(group: seq<Event>) returns (merged: Event)
    requires group != []
    ensures merged == Merged(group)
  {
    hide Meaningful, FilledNested, FilledValue, Score, Best;
    if |group| == 1 {
      return group[0];
    }
    merged := Best(group);
    ghost var best := merged;
    for i := 0 to |group|
      invariant merged == FilledAll(best, group[..i])
    {
      assert group[..i + 1][..i] == group[..i];
      merged := Filled(merged, group[i]);
    }
    assert group[..|group|] == group;
    var llmCalls, llmErrors := [], [];
    for i := 0 to |group|
      invariant llmCalls == Recorded(ModelCalls, group[..i]) && llmErrors == Recorded(ModelErrors, group[..i])
    {
      assert group[..i + 1][..i] == group[..i];
      llmCalls := llmCalls + group[i].Listed(ModelCalls);
      llmErrors := llmErrors + group[i].Listed(ModelErrors);
    }
    if llmCalls != [] {
      merged := merged.(llmCalls := Some(llmCalls));
    }
    if llmErrors != [] {
      merged := merged.(llmErrors := Some(llmErrors));
    }
  }

  /** Groups the events under their keys, keeping the keys in the order of first appearance. */
  method GroupEvents(events: seq<Event>) returns (grouped: map<Key, seq<Event>>, order: seq<Key>)
    ensures order == Keys(events)
    ensures forall k :: k in grouped <==> k in Keys(events)
    ensures forall k :: k in grouped ==> grouped[k] == Group(events, k)
  {
    grouped, order := map[], [];
    for i := 0 to |events|
      invariant order == Keys(events[..i])
      invariant forall k :: k in grouped <==> k in order
      invariant forall k :: k in grouped ==> grouped[k] == Group(events[..i], k)
    {
      assert events[..i + 1][..i] == events[..i];
      var event := events[i];
      var key := event.StepKey();
      if key in grouped {
        grouped := grouped[key := grouped[key] + [event]];
      } else {
        KeyIffGroup(events[..i], key);
        grouped := grouped[key := [event]];
        order := order + [key];
      }
    }
    assert events[..|events|] == events;
  }

  method DeduplicateEvents(events: seq<Event>) returns (result: seq<Event>)
    ensures result == Deduplicated(events)
  {
    hide Merged, Placed, Keys, Group;
    var grouped, order := GroupEvents(events);
    var ordered := InStepOrder(order);
    OrderedMembers(order);
    result := [];
    for i := 0 to |ordered|
      invariant forall k :: k in ordered[..i] ==> k in Keys(events)
      invariant result == MergeAll(events, ordered[..i])
    {
      assert ordered[..i + 1][..i] == ordered[..i] && ordered[i] in ordered;
      KeyIffGroup(events, ordered[i]);
      var merged := MergeEvents(grouped[ordered[i]]);
      result := result + [merged];
    }
    assert ordered[..|ordered|] == ordered;
  }
}
