/** The search for a query text in an event payload: breadth first over a graph of
    dictionaries and lists that may share parts or contain themselves. */
module QueryHint {
  import opened Wrappers
  import opened Text

  type Ref = nat

  /** An object on the heap; `text` is what `str(value or "")` makes of it. */
  datatype Object =
    | Dict(entries: seq<(string, Ref)>, text: string)
    | List(items: seq<Ref>, text: string)
    | Scalar(text: string)

  type Heap = map<Ref, Object>

  const CANDIDATE_KEYS := ["sql", "query", "statement", "db_query", "query_text", "lookup_query"]

  ghost predicate Closed(heap: Heap) {
    forall r :: r in heap ==>
      && (heap[r].Dict? ==> forall i :: 0 <= i < |heap[r].entries| ==> heap[r].entries[i].1 in heap)
      && (heap[r].List? ==> forall i :: 0 <= i < |heap[r].items| ==> heap[r].items[i] in heap)
  }

  function Lookup(entries: seq<(string, Ref)>, key: string): Option<Ref> {
    if entries == [] then None
    else if entries[0].0 == key then Some(entries[0].1)
    else Lookup(entries[1..], key)
  }

  function TokenAt(heap: Heap, entries: seq<(string, Ref)>, key: string): string {
    match Lookup(entries, key)
    case None => ""
    case Some(r) => if r in heap then Strip(heap[r].text) else ""
  }

  function FirstToken(heap: Heap, entries: seq<(string, Ref)>, keys: seq<string>): Option<string> {
    if keys == [] then None
    else if TokenAt(heap, entries, keys[0]) != "" then Some(TokenAt(heap, entries, keys[0]))
    else FirstToken(heap, entries, keys[1..])
  }

  /** The hint an object carries itself. */
  function HintAt(heap: Heap, r: Ref): Option<string> {
    if r in heap && heap[r].Dict? then FirstToken(heap, heap[r].entries, CANDIDATE_KEYS) else None
  }

  // ---------- what a hint is ----------

  /** The dictionary holds, under this key, a value whose stripped text is this. */
  ghost predicate Holds(heap: Heap, entries: seq<(string, Ref)>, key: string, text: string) {
    exists i :: 0 <= i < |entries| && HoldsAt(heap, entries, i, key, text)
  }

  ghost predicate HoldsAt(heap: Heap, entries: seq<(string, Ref)>, i: nat, key: string, text: string)
    requires i < |entries|
  {
    && entries[i].0 == key && (forall j :: 0 <= j < i ==> entries[j].0 != key)
    && entries[i].1 in heap && Strip(heap[entries[i].1].text) == text
  }

  /** The key is absent, or what it holds is blank. */
  ghost predicate Blank(heap: Heap, entries: seq<(string, Ref)>, key: string) {
    forall text :: Holds(heap, entries, key, text) ==> text == ""
  }

  ghost predicate FirstToHold(heap: Heap, entries: seq<(string, Ref)>, keys: seq<string>, k: nat, text: string) {
    k < |keys| && Holds(heap, entries, keys[k], text) && forall j :: 0 <= j < k ==> Blank(heap, entries, keys[j])
  }

  /** The object is a dictionary, and the text is what the first of the six keys that is not
      blank holds. */
  ghost predicate Hints(heap: Heap, r: Ref, text: string) {
    && r in heap && heap[r].Dict? && text != ""
    && exists k: nat ::
      FirstToHold(heap, heap[r].entries, ["sql", "query", "statement", "db_query", "query_text", "lookup_query"], k, text)
  }

  ghost predicate HintsNothing(heap: Heap, r: Ref) {
    forall text :: !Hints(heap, r, text)
  }

  lemma {:induction false} LookupExactly(heap: Heap, entries: seq<(string, Ref)>, key: string, text: string)
    ensures Holds(heap, entries, key, text) <==>
      Lookup(entries, key).Some? && Lookup(entries, key).value in heap && Strip(heap[Lookup(entries, key).value].text) == text
  {
    hide Strip;
    if entries != [] {
      var rest := entries[1..];
      assert forall i :: 0 <= i < |rest| ==> rest[i] == entries[i + 1];
      if entries[0].0 == key {
        assert HoldsAt(heap, entries, 0, key, text) <==> entries[0].1 in heap && Strip(heap[entries[0].1].text) == text;
      } else {
        LookupExactly(heap, rest, key, text);
        if Holds(heap, rest, key, text) {
          var i :| 0 <= i < |rest| && HoldsAt(heap, rest, i, key, text);
          assert HoldsAt(heap, entries, i + 1, key, text);
        }
        if Holds(heap, entries, key, text) {
          var i :| 0 <= i < |entries| && HoldsAt(heap, entries, i, key, text);
          assert HoldsAt(heap, rest, i - 1, key, text);
        }
      }
    }
  }

  lemma TokenExactly(heap: Heap, entries: seq<(string, Ref)>, key: string)
    ensures forall text :: text != "" ==> (Holds(heap, entries, key, text) <==> TokenAt(heap, entries, key) == text)
    ensures Blank(heap, entries, key) <==> TokenAt(heap, entries, key) == ""
  {
    hide Strip, Holds, Lookup;
    forall text ensures Holds(heap, entries, key, text) <==>
      Lookup(entries, key).Some? && Lookup(entries, key).value in heap && Strip(heap[Lookup(entries, key).value].text) == text
    {
      LookupExactly(heap, entries, key, text);
    }
    if Blank(heap, entries, key) {
      assert !Holds(heap, entries, key, TokenAt(heap, entries, key)) || TokenAt(heap, entries, key) == "";
    }
  }

  lemma {:induction false} FirstTokenExactly(heap: Heap, entries: seq<(string, Ref)>, keys: seq<string>, text: string)
    requires text != ""
    ensures FirstToken(heap, entries, keys) == Some(text) <==> exists k: nat :: FirstToHold(heap, entries, keys, k, text)
  {
    hide Holds, Blank, TokenAt;
    if keys != [] {
      var rest := keys[1..];
      assert forall i :: 0 <= i < |rest| ==> rest[i] == keys[i + 1];
      TokenExactly(heap, entries, keys[0]);
      FirstTokenExactly(heap, entries, rest, text);
      if TokenAt(heap, entries, keys[0]) == text {
        assert FirstToHold(heap, entries, keys, 0, text);
      }
      if k: nat :| TokenAt(heap, entries, keys[0]) == "" && FirstToHold(heap, entries, rest, k, text) {
        assert FirstToHold(heap, entries, keys, k + 1, text);
      }
      if k: nat :| FirstToHold(heap, entries, keys, k, text) {
        if k > 0 {
          assert Blank(heap, entries, keys[0]);
          assert FirstToHold(heap, entries, rest, k - 1, text) by {
            assert forall j :: 0 <= j < k - 1 ==> rest[j] == keys[j + 1];
          }
        }
      }
    }
  }

  lemma {:induction false} FirstTokenIsThere(heap: Heap, entries: seq<(string, Ref)>, keys: seq<string>)
    ensures FirstToken(heap, entries, keys) != Some("")
  {
    hide TokenAt;
    if keys != [] {
      FirstTokenIsThere(heap, entries, keys[1..]);
    }
  }

  /** The hint that is looked for is the stripped text of the first of the six keys that is
      not blank. */
  lemma HintAtExactly(heap: Heap, r: Ref)
    ensures forall text :: HintAt(heap, r) == Some(text) <==> Hints(heap, r, text)
    ensures HintAt(heap, r).None? <==> HintsNothing(heap, r)
  {
    hide FirstToken, FirstToHold;
    forall text ensures HintAt(heap, r) == Some(text) <==> Hints(heap, r, text) {
      if r in heap && heap[r].Dict? {
        FirstTokenIsThere(heap, heap[r].entries, CANDIDATE_KEYS);
        if text != "" {
          FirstTokenExactly(heap, heap[r].entries, CANDIDATE_KEYS, text);
        }
      }
    }
  }

  // ---------- the graph ----------

  predicate IsContainer(heap: Heap, r: Ref) {
    r in heap && !heap[r].Scalar?
  }

  /** The containers among the values of a dictionary. */
  function Containers(heap: Heap, entries: seq<(string, Ref)>): (refs: seq<Ref>)
    ensures forall c :: c in refs ==> exists i :: 0 <= i < |entries| && entries[i].1 == c
  {
    if entries == [] then []
    else (if IsContainer(heap, entries[0].1) then [entries[0].1] else []) + Containers(heap, entries[1..])
  }

  /** What is queued after an object has been looked at: a dictionary's containers, all of
      a list's items. */
  function Children(heap: Heap, r: Ref): seq<Ref> {
    if r !in heap then []
    else match heap[r]
      case Dict(entries, _) => Containers(heap, entries)
      case List(items, _) => items
      case Scalar(_) => []
  }

  lemma {:induction false} ContainersExactly(heap: Heap, entries: seq<(string, Ref)>, c: Ref)
    ensures c in Containers(heap, entries) <==>
      exists i :: 0 <= i < |entries| && entries[i].1 == c && c in heap && (heap[c].Dict? || heap[c].List?)
  {
    if entries != [] {
      var rest := entries[1..];
      assert forall i :: 0 <= i < |rest| ==> rest[i] == entries[i + 1];
      ContainersExactly(heap, rest, c);
    }
  }

  /** From a list the search goes on to all its items, in order; from a dictionary to those
      of its values that are dictionaries or lists, in order. */
  lemma ChildrenExactly(heap: Heap, r: Ref)
    requires r in heap
    ensures heap[r].Scalar? ==> Children(heap, r) == []
    ensures heap[r].List? ==> Children(heap, r) == heap[r].items
    ensures heap[r].Dict? ==> forall c :: c in Children(heap, r) <==>
      exists i :: 0 <= i < |heap[r].entries| && heap[r].entries[i].1 == c && c in heap && (heap[c].Dict? || heap[c].List?)
    ensures heap[r].Dict? ==> forall n :: 0 <= n <= |heap[r].entries| ==>
      Children(heap, r) == Containers(heap, heap[r].entries[..n]) + Containers(heap, heap[r].entries[n..])
  {
    if heap[r].Dict? {
      forall c ensures c in Children(heap, r) <==>
        exists i :: 0 <= i < |heap[r].entries| && heap[r].entries[i].1 == c && c in heap && (heap[c].Dict? || heap[c].List?)
      {
        ContainersExactly(heap, heap[r].entries, c);
      }
      forall n | 0 <= n <= |heap[r].entries|
        ensures Children(heap, r) == Containers(heap, heap[r].entries[..n]) + Containers(heap, heap[r].entries[n..])
      {
        ContainersSplit(heap, heap[r].entries, n);
      }
    }
  }

  lemma {:induction false} ContainersSplit(heap: Heap, entries: seq<(string, Ref)>, n: nat)
    requires n <= |entries|
    ensures Containers(heap, entries) == Containers(heap, entries[..n]) + Containers(heap, entries[n..])
  {
    if n == 0 {
      assert entries[0..] == entries;
    } else {
      ContainersSplit(heap, entries[1..], n - 1);
      assert entries[..n][1..] == entries[1..][..n - 1] && entries[1..][n - 1..] == entries[n..];
    }
  }

  // ---------- distance ----------

  ghost function Successors(heap: Heap, s: set<Ref>): set<Ref> {
    set r, c | r in s && c in Children(heap, r) :: c
  }

  /** Everything at most `n` steps from the root. */
  ghost function Within(heap: Heap, root: Ref, n: nat): set<Ref> {
    if n == 0 then {root} else Within(heap, root, n - 1) + Successors(heap, Within(heap, root, n - 1))
  }

  ghost predicate Reachable(heap: Heap, root: Ref, r: Ref) {
    exists n: nat :: r in Within(heap, root, n)
  }

  ghost predicate NoHintIn(heap: Heap, s: set<Ref>) {
    forall r :: r in s ==> HintsNothing(heap, r)
  }

  /** What the objects lead to, one after the other. */
  ghost function ChildrenOf(heap: Heap, refs: seq<Ref>): seq<Ref> {
    if refs == [] then [] else ChildrenOf(heap, refs[..|refs| - 1]) + Children(heap, refs[|refs| - 1])
  }

  /** The objects not seen before, each where it first stands. */
  ghost function Unseen(refs: seq<Ref>, seen: set<Ref>): seq<Ref> {
    if refs == [] then []
    else if refs[0] in seen then Unseen(refs[1..], seen)
    else [refs[0]] + Unseen(refs[1..], seen + {refs[0]})
  }

  /** The objects at distance `n`, in the order of those that lead to them. */
  ghost function Ring(heap: Heap, root: Ref, n: nat): seq<Ref> {
    if n == 0 then [root] else Unseen(ChildrenOf(heap, Ring(heap, root, n - 1)), Within(heap, root, n - 1))
  }

  /** The hint is that of the first object at distance `n` to carry one, and no nearer object
      carries any. */
  ghost predicate Nearest(heap: Heap, root: Ref, hint: string, n: nat) {
    && (exists p :: 0 <= p < |Ring(heap, root, n)| && FirstInRing(heap, root, hint, n, p))
    && (n > 0 ==> NoHintIn(heap, Within(heap, root, n - 1)))
  }

  ghost predicate FirstInRing(heap: Heap, root: Ref, hint: string, n: nat, p: nat)
    requires p < |Ring(heap, root, n)|
  {
    && Ring(heap, root, n)[p] in Within(heap, root, n) && Hints(heap, Ring(heap, root, n)[p], hint)
    && forall q :: 0 <= q < p ==> HintsNothing(heap, Ring(heap, root, n)[q])
  }

  lemma {:induction false} ClosedSetHasAll(heap: Heap, root: Ref, s: set<Ref>, n: nat)
    requires root in s && Successors(heap, s) <= s
    ensures Within(heap, root, n) <= s
  {
    if n > 0 {
      ClosedSetHasAll(heap, root, s, n - 1);
      forall c | c in Successors(heap, Within(heap, root, n - 1)) ensures c in s {
        var r :| r in Within(heap, root, n - 1) && c in Children(heap, r);
        assert c in Successors(heap, s);
      }
    }
  }

  // ---------- the search ----------

  /** `cur` holds what is left of distance `d`, `nxt` what has been found beyond it; `done`
      is the part of the ring that has been looked at. */
  ghost predicate Frontier(heap: Heap, root: Ref, seen: set<Ref>, cur: seq<Ref>, nxt: seq<Ref>, d: nat, done: seq<Ref>) {
    && NoHintIn(heap, seen)
    && (forall r :: r in Within(heap, root, d) ==> r in seen || r in cur)
    && (forall r :: r in cur ==> r in Within(heap, root, d))
    && (forall r :: r in seen ==> r in Within(heap, root, d))
    && (forall r :: r in nxt ==> r in Within(heap, root, d + 1))
    && (forall c :: c in Successors(heap, seen) ==> c in seen || c in cur || c in nxt)
    && (d > 0 ==> Within(heap, root, d - 1) <= seen)
    && (forall r :: r in done ==> r in seen)
    && Ring(heap, root, d) == done + Unseen(cur, seen) && nxt == ChildrenOf(heap, done)
  }

  ghost predicate AllIn(heap: Heap, seen: set<Ref>, queue: seq<Ref>) {
    seen <= heap.Keys && forall r :: r in queue ==> r in heap
  }

  lemma NextLevel(heap: Heap, root: Ref, seen: set<Ref>, nxt: seq<Ref>, d: nat, done: seq<Ref>)
    requires Frontier(heap, root, seen, [], nxt, d, done)
    ensures Frontier(heap, root, seen, nxt, [], d + 1, [])
  {
    hide Unseen, HintsNothing;
    assert Within(heap, root, d) == seen;
    NothingUnseen(seen);
    assert Ring(heap, root, d) == done;
    assert Ring(heap, root, d + 1) == [] + Unseen(nxt, seen);
  }

  lemma NothingUnseen(seen: set<Ref>)
    ensures Unseen([], seen) == []
  {
  }

  lemma Skip(heap: Heap, root: Ref, seen: set<Ref>, cur: seq<Ref>, nxt: seq<Ref>, d: nat, done: seq<Ref>)
    requires Frontier(heap, root, seen, cur, nxt, d, done) && cur != [] && cur[0] in seen
    ensures Frontier(heap, root, seen, cur[1..], nxt, d, done)
  {
    hide HintsNothing, Ring, ChildrenOf, Within, Successors;
    assert forall r :: r in cur <==> r == cur[0] || r in cur[1..];
  }

  lemma ChildrenPush(heap: Heap, done: seq<Ref>, item: Ref)
    ensures ChildrenOf(heap, done + [item]) == ChildrenOf(heap, done) + Children(heap, item)
  {
    assert (done + [item])[..|done|] == done;
  }

  lemma SuccessorsPush(heap: Heap, seen: set<Ref>, item: Ref, c: Ref)
    requires c in Successors(heap, seen + {item})
    ensures c in Successors(heap, seen) || c in Children(heap, item)
  {
  }

  lemma Visit(heap: Heap, root: Ref, seen: set<Ref>, cur: seq<Ref>, nxt: seq<Ref>, d: nat, done: seq<Ref>)
    requires Frontier(heap, root, seen, cur, nxt, d, done) && cur != [] && cur[0] !in seen
    requires HintsNothing(heap, cur[0])
    ensures Frontier(heap, root, seen + {cur[0]}, cur[1..], nxt + Children(heap, cur[0]), d, done + [cur[0]])
  {
    hide HintsNothing, Ring, ChildrenOf, Children, Successors;
    var item, children := cur[0], Children(heap, cur[0]);
    assert forall r :: r in cur <==> r == item || r in cur[1..];
    assert forall r :: r in nxt + children <==> r in nxt || r in children;
    forall c | c in children ensures c in Within(heap, root, d + 1) {
      ChildIsWithin(heap, root, item, c, d);
    }
    forall c | c in Successors(heap, seen + {item})
      ensures c in seen + {item} || c in cur[1..] || c in nxt + children
    {
      SuccessorsPush(heap, seen, item, c);
    }
    ChildrenPush(heap, done, item);
    assert done + Unseen(cur, seen) == done + [item] + Unseen(cur[1..], seen + {item});
  }

  lemma ChildIsWithin(heap: Heap, root: Ref, r: Ref, c: Ref, d: nat)
    requires r in Within(heap, root, d) && c in Children(heap, r)
    ensures c in Within(heap, root, d + 1)
  {
    assert c in Successors(heap, Within(heap, root, d));
  }

  lemma AtStart(heap: Heap, root: Ref)
    ensures Frontier(heap, root, {}, [root], [], 0, [])
  {
    assert [root][1..] == [];
  }

  lemma AtHint(heap: Heap, root: Ref, seen: set<Ref>, cur: seq<Ref>, nxt: seq<Ref>, d: nat, done: seq<Ref>, hint: string)
    requires Frontier(heap, root, seen, cur, nxt, d, done) && cur != [] && cur[0] !in seen && Hints(heap, cur[0], hint)
    ensures Nearest(heap, root, hint, d) && Reachable(heap, root, cur[0])
  {
    hide Hints, HintsNothing, ChildrenOf, Within, Successors, Ring;
    assert Ring(heap, root, d)[|done|] == cur[0];
    forall q | 0 <= q < |done| ensures HintsNothing(heap, Ring(heap, root, d)[q]) {
      assert done[q] in done;
    }
    assert FirstInRing(heap, root, hint, d, |done|);
  }

  lemma AtEnd(heap: Heap, root: Ref, seen: set<Ref>, d: nat, done: seq<Ref>)
    requires Frontier(heap, root, seen, [], [], d, done)
    ensures forall r :: Reachable(heap, root, r) ==> HintsNothing(heap, r)
  {
    hide HintsNothing, Ring, ChildrenOf;
    RootWithin(heap, root, d);
    forall r | Reachable(heap, root, r) ensures r in seen {
      var n: nat :| r in Within(heap, root, n);
      ClosedSetHasAll(heap, root, seen, n);
    }
  }

  lemma RootWithin(heap: Heap, root: Ref, n: nat)
    ensures root in Within(heap, root, n)
  {
  }

  /** Every first visit leaves fewer objects unseen. */
  lemma VisitShrinks(heap: Heap, seen: set<Ref>, item: Ref, rest: seq<Ref>)
    requires Closed(heap) && AllIn(heap, seen, [item] + rest) && item !in seen
    ensures AllIn(heap, seen + {item}, rest + Children(heap, item))
    ensures |heap.Keys - (seen + {item})| < |heap.Keys - seen|
  {
    assert item in [item] + rest && forall r :: r in rest ==> r in [item] + rest;
    assert forall c :: c in Children(heap, item) ==> c in heap;
    assert heap.Keys - seen == (heap.Keys - (seen + {item})) + {item};
  }

  lemma DropHead(heap: Heap, seen: set<Ref>, item: Ref, rest: seq<Ref>)
    requires AllIn(heap, seen, [item] + rest)
    ensures AllIn(heap, seen, rest)
  {
    assert forall r :: r in rest ==> r in [item] + rest;
  }

  lemma StartIn(heap: Heap, root: Ref)
    requires root in heap
    ensures AllIn(heap, {}, [root])
  {
  }

  /** The search ends on every graph. It finds nothing only if nothing reachable carries a
      hint; what it finds is the hint of the first object, in order of distance and then of
      discovery, that carries one. */
  method ExtractQueryHint(heap: Heap, payload: Ref) returns (hint: Option<string>)
    requires Closed(heap) && payload in heap
    ensures !heap[payload].Dict? ==> hint.None?
    ensures heap[payload].Dict? ==>
      (hint.None? <==> forall r :: Reachable(heap, payload, r) ==> HintsNothing(heap, r))
    ensures hint.Some? ==> exists n: nat :: Nearest(heap, payload, hint.value, n)
  {
    hide Frontier, Nearest, Reachable, HintAt, Hints, HintsNothing, Children, Closed, AllIn;
    if !heap[payload].Dict? {
      return None;
    }
    var queue := [payload];
    var seen: set<Ref> := {};
    ghost var cur, nxt, d, done := [payload], [], 0, [];
    AtStart(heap, payload);
    StartIn(heap, payload);
    while queue != []
      invariant queue == cur + nxt
      invariant Frontier(heap, payload, seen, cur, nxt, d, done) && AllIn(heap, seen, queue)
      decreases |heap.Keys - seen|, |queue|
    {
      if cur == [] {
        NextLevel(heap, payload, seen, nxt, d, done);
        cur, nxt, d, done := nxt, [], d + 1, [];
      }
      var item := queue[0];
      assert queue == [item] + queue[1..];
      queue := queue[1..];
      assert item == cur[0] && queue == cur[1..] + nxt;
      if item in seen {
        DropHead(heap, seen, item, queue);
        Skip(heap, payload, seen, cur, nxt, d, done);
        cur := cur[1..];
      } else {
        hint := HintAt(heap, item);
        HintAtExactly(heap, item);
        if hint.Some? {
          AtHint(heap, payload, seen, cur, nxt, d, done, hint.value);
          assert !HintsNothing(heap, item) by { SomeHint(heap, item, hint.value); }
          return;
        }
        Visit(heap, payload, seen, cur, nxt, d, done);
        VisitShrinks(heap, seen, item, queue);
        seen := seen + {item};
        queue := queue + Children(heap, item);
        cur, nxt, done := cur[1..], nxt + Children(heap, item), done + [item];
      }
    }
    hint := None;
    AtEnd(heap, payload, seen, d, done);
  }

  lemma SomeHint(heap: Heap, r: Ref, text: string)
    requires Hints(heap, r, text)
    ensures !HintsNothing(heap, r)
  {
  }
}
