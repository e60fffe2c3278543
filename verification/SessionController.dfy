/** The user interface's copy of the trace reconstruction, written out on its own: its
    loops, its score and its sort are proved to compute what the original computes. */
module SessionController {
  import opened Wrappers
  import opened Text
  import opened EventMerge

  // ---------- one event ----------

  method IsMeaningfulValue(value: Value) returns (meaningful: bool)
    ensures meaningful == Meaningful(value)
  {
    if value.Null? {
      return false;
    }
    if value.Str? {
      return !IsPlaceholder(Lower(Strip(value.text)));
    }
    if value.Collection? {
      return value.size > 0;
    }
    return true;
  }

  method EventQualityScore(event: Event) returns (score: nat)
    ensures score == Score(event)
  {
    hide Meaningful, IsPending, Strip, Upper;
    score := 0;
    var decision := Strip(TextOf(event.decision));
    var decisionToken := Upper(decision);
    var meaningful := IsMeaningfulValue(Str(decision));
    if meaningful {
      score := score + 2;
    }
    UpperOfNothing(decision);
    if decisionToken != "" && !IsPending(decisionToken) {
      score := score + 8;
    }
    meaningful := IsMeaningfulValue(event.output);
    if meaningful {
      score := score + 3;
    }
    meaningful := IsMeaningfulValue(event.action);
    if meaningful {
      score := score + 2;
    }
    if event.input.Dict? && event.input.entries != map[] {
      score := score + 1;
    }
    if event.metrics.Dict? && event.metrics.entries != map[] {
      score := score + 1;
    }
  }

  lemma UpperOfNothing(s: string)
    ensures Upper(s) == "" <==> s == ""
  {
    assert |Upper(s)| == |s|;
  }

  // ---------- one group ----------

  /** The event of the highest score, the first of them. */
  method MostInformative(group: seq<Event>) returns (best: Event)
    requires group != []
    ensures best == Best(group)
  {
    hide Score;
    best := group[0];
    var bestScore := EventQualityScore(best);
    assert group[..1] == [best];
    for k := 1 to |group|
      invariant best == Best(group[..k]) && bestScore == Score(best)
    {
      assert group[..k + 1][..k] == group[..k];
      var score := EventQualityScore(group[k]);
      if bestScore < score {
        best, bestScore := group[k], score;
      }
    }
    assert group[..|group|] == group;
  }

  method MergedValue(existing: Value, incoming: Value) returns (merged: Value)
    ensures merged == FilledValue(existing, incoming)
  {
    merged := existing;
    var known := IsMeaningfulValue(existing);
    var offered := IsMeaningfulValue(incoming);
    if !known && offered {
      merged := incoming;
    }
  }

  /** Goes through the incoming entries one by one. */
  method MergedEntries(existing: map<string, Value>, incoming: map<string, Value>) returns (merged: map<string, Value>)
    ensures Dict(merged) == FilledNested(Dict(existing), Dict(incoming))
  {
    hide Meaningful;
    merged := existing;
    var left := incoming.Keys;
    while left != {}
      invariant left <= incoming.Keys
      invariant forall k :: k in merged <==> k in existing || (k in incoming && k !in left && Meaningful(incoming[k]))
      invariant forall k :: k in merged ==> merged[k] == if k in existing then existing[k] else incoming[k]
    {
      var key :| key in left;
      var meaningful := IsMeaningfulValue(incoming[key]);
      if key !in merged && meaningful {
        merged := merged[key := incoming[key]];
      }
      left := left - {key};
    }
    assert merged == FilledNested(Dict(existing), Dict(incoming)).entries;
  }

  method MergedNested(existing: Nested, incoming: Nested) returns (merged: Nested)
    ensures merged == FilledNested(existing, incoming)
  {
    merged := existing;
    if existing.Dict? && incoming.Dict? {
      var entries := MergedEntries(existing.entries, incoming.entries);
      merged := Dict(entries);
    } else if (!existing.Dict? || existing.entries == map[]) && incoming.Dict? && incoming.entries != map[] {
      merged := Dict(incoming.entries);
    }
  }

  method MergedItem(merged: Event, item: Event) returns (result: Event)
    ensures result == Filled(merged, item)
  {
    hide FilledValue, FilledNested;
    result := merged;
    var value := MergedValue(result.action, item.action);
    result := result.(action := value);
    value := MergedValue(result.decision, item.decision);
    result := result.(decision := value);
    value := MergedValue(result.output, item.output);
    result := result.(output := value);
    value := MergedValue(result.communicatesTo, item.communicatesTo);
    result := result.(communicatesTo := value);
    var nested := MergedNested(result.input, item.input);
    result := result.(input := nested);
    nested := MergedNested(result.metrics, item.metrics);
    result := result.(metrics := nested);
  }

  /** The copy's merge of a group is the original's. */
  method MergedEvent(group: seq<Event>) returns (merged: Event)
    requires group != []
    ensures merged == Merged(group)
  {
    hide Filled, Best;
    if |group| == 1 {
      return group[0];
    }
    var best := MostInformative(group);
    merged := best;
    for k := 0 to |group|
      invariant merged == FilledAll(best, group[..k])
    {
      assert group[..k + 1][..k] == group[..k];
      merged := MergedItem(merged, group[k]);
    }
    var llmCalls, llmErrors := [], [];
    for k := 0 to |group|
      invariant llmCalls == Recorded(ModelCalls, group[..k]) && llmErrors == Recorded(ModelErrors, group[..k])
    {
      assert group[..k + 1][..k] == group[..k];
      if group[k].llmCalls.Some? {
        llmCalls := llmCalls + group[k].llmCalls.value;
      }
      if group[k].llmErrors.Some? {
        llmErrors := llmErrors + group[k].llmErrors.value;
      }
    }
    assert group[..|group|] == group;
    if llmCalls != [] {
      merged := merged.(llmCalls := Some(llmCalls));
    }
    if llmErrors != [] {
      merged := merged.(llmErrors := Some(llmErrors));
    }
  }

  // ---------- sorting by step and first index ----------

  predicate Less(firstIndex: map<Key, nat>, a: Key, b: Key)
    requires a in firstIndex && b in firstIndex
  {
    a.sequence < b.sequence || (a.sequence == b.sequence && firstIndex[a] < firstIndex[b])
  }

  /** The keys stand in the order in which they were first seen. */
  ghost predicate FirstSeenInOrder(keys: seq<Key>, firstIndex: map<Key, nat>) {
    && (forall k :: k in keys ==> k in firstIndex)
    && forall i, j :: 0 <= i < j < |keys| ==> firstIndex[keys[i]] < firstIndex[keys[j]]
  }

  lemma PlacedSkips(sorted: seq<Key>, k: Key, at: nat)
    requires at < |sorted| && sorted[at].sequence <= k.sequence
    ensures sorted[..at] + Placed(sorted[at..], k) == sorted[..at + 1] + Placed(sorted[at + 1..], k)
  {
    assert sorted[at..][1..] == sorted[at + 1..] && sorted[..at] + [sorted[at]] == sorted[..at + 1];
  }

  lemma PlacedHere(sorted: seq<Key>, k: Key, at: nat)
    requires at <= |sorted| && (at < |sorted| ==> k.sequence < sorted[at].sequence)
    ensures Placed(sorted[at..], k) == [k] + sorted[at..]
  {
  }

  method Insert(sorted: seq<Key>, k: Key, firstIndex: map<Key, nat>) returns (result: seq<Key>)
    requires k in firstIndex && forall x :: x in sorted ==> x in firstIndex && firstIndex[x] < firstIndex[k]
    ensures result == Placed(sorted, k)
  {
    hide Placed;
    var at := 0;
    assert sorted[0..] == sorted && sorted[..0] + Placed(sorted, k) == Placed(sorted, k);
    while at < |sorted| && !Less(firstIndex, k, sorted[at])
      invariant at <= |sorted|
      invariant Placed(sorted, k) == sorted[..at] + Placed(sorted[at..], k)
    {
      assert sorted[at] in sorted;
      PlacedSkips(sorted, k, at);
      at := at + 1;
    }
    assert at < |sorted| ==> sorted[at] in sorted;
    PlacedHere(sorted, k, at);
    result := sorted[..at] + ([k] + sorted[at..]);
  }

  /** Sorting by (step, first index) puts keys in the original's order. */
  method SortedKeys(keys: seq<Key>, firstIndex: map<Key, nat>) returns (sorted: seq<Key>)
    requires FirstSeenInOrder(keys, firstIndex)
    ensures sorted == InStepOrder(keys)
  {
    hide Placed;
    sorted := [];
    for n := 0 to |keys|
      invariant sorted == InStepOrder(keys[..n])
    {
      assert keys[..n + 1][..n] == keys[..n];
      OrderedMembers(keys[..n]);
      sorted := Insert(sorted, keys[n], firstIndex);
    }
    assert keys[..|keys|] == keys;
  }

  // ---------- the events ----------

  /** Whatever is not a dictionary is passed over. */
  function Dictionaries(raw: seq<Option<Event>>): seq<Event> {
    if raw == [] then [] else
      Dictionaries(raw[..|raw| - 1]) + if raw[|raw| - 1].Some? then [raw[|raw| - 1].value] else []
  }

  /** A list whose items are all dictionaries. */
  function AsItems(events: seq<Event>): seq<Option<Event>> {
    seq(|events|, i requires 0 <= i < |events| => Some(events[i]))
  }

  lemma {:induction false} AllAreDictionaries(events: seq<Event>)
    ensures Dictionaries(AsItems(events)) == events
  {
    if events != [] {
      var init, last := events[..|events| - 1], events[|events| - 1];
      AllAreDictionaries(init);
      assert AsItems(events)[..|events| - 1] == AsItems(init) && AsItems(events)[|events| - 1] == Some(last);
      assert events == init + [last];
    }
  }

  lemma ItemsAreDictionaries(events: Option<seq<Option<Event>>>)
    ensures forall originals: seq<Event> :: events == Some(AsItems(originals)) ==> Dictionaries(events.value) == originals
  {
    hide Dictionaries, AsItems;
    forall originals: seq<Event> | events == Some(AsItems(originals)) ensures Dictionaries(events.value) == originals {
      AllAreDictionaries(originals);
    }
  }

  lemma DictionariesPush(raw: seq<Option<Event>>, index: nat)
    requires index < |raw|
    ensures Dictionaries(raw[..index + 1]) ==
      if raw[index].Some? then Dictionaries(raw[..index]) + [raw[index].value] else Dictionaries(raw[..index])
  {
    assert raw[..index + 1][..index] == raw[..index];
  }

  /** The groups of these events, under their keys. */
  ghost predicate GroupsOf(grouped: map<Key, seq<Event>>, events: seq<Event>) {
    forall k :: (k in grouped <==> k in Keys(events)) && (k in grouped ==> grouped[k] == Group(events, k))
  }

  lemma GroupsPush(grouped: map<Key, seq<Event>>, events: seq<Event>, e: Event)
    requires GroupsOf(grouped, events)
    ensures var k := e.StepKey();
      GroupsOf(grouped[k := (if k in grouped then grouped[k] else []) + [e]], events + [e])
  {
    hide Keys, Group;
    var key := e.StepKey();
    KeysSnoc(events, e);
    KeyIffGroup(events, key);
    forall k ensures Group(events + [e], k) == Group(events, k) + if key == k then [e] else [] {
      GroupSnoc(events, e, k);
    }
  }

  lemma FirstSeenPush(order: seq<Key>, firstIndex: map<Key, nat>, key: Key, index: nat)
    requires FirstSeenInOrder(order, firstIndex) && key !in order
    requires forall k :: k in order ==> firstIndex[k] < index
    ensures FirstSeenInOrder(order + [key], firstIndex[key := index])
  {
    assert forall k :: k in order + [key] <==> k in order || k == key;
    assert forall i :: 0 <= i < |order| ==> (order + [key])[i] == order[i] && order[i] in order;
  }

  lemma NothingGrouped()
    ensures Dictionaries([]) == [] && Keys([]) == [] && GroupsOf(map[], []) && FirstSeenInOrder([], map[])
  {
  }

  method GroupWorkflowEvents(raw: seq<Option<Event>>)
    returns (grouped: map<Key, seq<Event>>, order: seq<Key>, firstIndex: map<Key, nat>)
    ensures order == Keys(Dictionaries(raw)) && FirstSeenInOrder(order, firstIndex)
    ensures GroupsOf(grouped, Dictionaries(raw))
  {
    hide Keys, Group, GroupsOf, FirstSeenInOrder, Dictionaries, Strip;
    grouped, order, firstIndex := map[], [], map[];
    NothingGrouped();
    assert raw[..0] == [];
    for index := 0 to |raw|
      invariant order == Keys(Dictionaries(raw[..index]))
      invariant FirstSeenInOrder(order, firstIndex) && GroupsOf(grouped, Dictionaries(raw[..index]))
      invariant firstIndex.Keys == grouped.Keys == set k | k in order
      invariant forall k :: k in firstIndex ==> firstIndex[k] < index
    {
      ghost var before := Dictionaries(raw[..index]);
      DictionariesPush(raw, index);
      if raw[index].None? {
        continue;
      }
      var event := raw[index].value;
      var key := event.StepKey();
      ghost var was := grouped;
      KeysSnoc(before, event);
      GroupsPush(grouped, before, event);
      if key !in grouped {
        FirstSeenPush(order, firstIndex, key, index);
        grouped := grouped[key := []];
        order := order + [key];
      }
      grouped := grouped[key := grouped[key] + [event]];
      assert grouped == was[key := (if key in was then was[key] else []) + [event]];
      if key !in firstIndex {
        firstIndex := firstIndex[key := index];
      }
    }
    assert raw[..|raw|] == raw;
  }

  /** The copy returns nothing for what is not a list, and otherwise does to the dictionaries
      in it what the original does; on a list of dictionaries the two agree. */
  method DeduplicateWorkflowEvents(events: Option<seq<Option<Event>>>) returns (result: seq<Event>)
    ensures events.None? ==> result == []
    ensures events.Some? ==> result == Deduplicated(Dictionaries(events.value))
    ensures forall originals: seq<Event> :: events == Some(AsItems(originals)) ==> result == Deduplicated(originals)
  {
    hide Merged, Placed, Keys, Group, FirstSeenInOrder, Dictionaries, AsItems;
    ItemsAreDictionaries(events);
    if events.None? {
      return [];
    }
    ghost var dictionaries := Dictionaries(events.value);
    var grouped, order, firstIndex := GroupWorkflowEvents(events.value);
    var ordered := SortedKeys(order, firstIndex);
    OrderedMembers(order);
    result := [];
    for n := 0 to |ordered|
      invariant forall k :: k in ordered[..n] ==> k in Keys(dictionaries)
      invariant result == MergeAll(dictionaries, ordered[..n])
    {
      assert ordered[..n + 1][..n] == ordered[..n] && ordered[n] in ordered;
      assert ordered[n] in Keys(dictionaries) && GroupsOf(grouped, dictionaries);
      KeyIffGroup(dictionaries, ordered[n]);
      var merged := MergedEvent(grouped[ordered[n]]);
      result := result + [merged];
    }
    assert ordered[..|ordered|] == ordered;
  }
}
