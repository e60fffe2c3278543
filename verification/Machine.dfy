/** Runs of a state machine whose steps may be impossible. */
module Machine {
  import opened Wrappers

  /** The state that the events lead to; `None` when one of them cannot happen. */
  function Run<S, E>(next: (S, E) -> Option<S>, s: S, events: seq<E>): Option<S> {
    if events == [] then Some(s) else
      match Run(next, s, events[..|events| - 1])
      case None => None
      case Some(before) => next(before, events[|events| - 1])
  }

  lemma RunSnoc<S, E>(next: (S, E) -> Option<S>, s: S, events: seq<E>, e: E)
    requires Run(next, s, events).Some?
    ensures Run(next, s, events + [e]) == next(Run(next, s, events).value, e)
  {
    assert (events + [e])[..|events|] == events;
  }

  lemma RunTwo<S, E>(next: (S, E) -> Option<S>, s: S, a: E, b: E)
    requires next(s, a).Some?
    ensures Run(next, s, [a, b]) == next(next(s, a).value, b)
  {
    assert [a, b][..1] == [a] && [a][..0] == [];
    assert Run(next, s, [a]) == next(s, a);
  }

  /** A run goes on from where its beginning has led. */
  lemma {:induction false} RunConcat<S, E>(next: (S, E) -> Option<S>, s: S, a: seq<E>, b: seq<E>)
    ensures Run(next, s, a + b) == (match Run(next, s, a) case None => None case Some(between) => Run(next, between, b))
  {
    if b == [] {
      assert a + b == a;
    } else {
      var n, all := |b| - 1, a + b;
      RunConcat(next, s, a, b[..n]);
      assert all[..|all| - 1] == a + b[..n] && all[|all| - 1] == b[n];
    }
  }

  /** Every beginning of a run is a run. */
  lemma RunPrefix<S, E>(next: (S, E) -> Option<S>, s: S, a: seq<E>, b: seq<E>)
    requires Run(next, s, a + b).Some?
    ensures Run(next, s, a).Some? && Run(next, Run(next, s, a).value, b) == Run(next, s, a + b)
  {
    RunConcat(next, s, a, b);
  }

  /** What the events of a run add, one after the other. */
  function Collected<S, E, T>(next: (S, E) -> Option<S>, adds: (S, E) -> seq<T>, s: S, events: seq<E>): seq<T> {
    if events == [] then [] else
      var init, last := events[..|events| - 1], events[|events| - 1];
      match Run(next, s, init)
      case None => []
      case Some(before) => Collected(next, adds, s, init) + adds(before, last)
  }

  /** A list in the state that quiet events only add to has grown by what they add. */
  lemma {:induction false} RunCollects<S(!new), E(!new), T>(
    next: (S, E) -> Option<S>, adds: (S, E) -> seq<T>, list: S -> seq<T>, quiet: E -> bool, s: S, events: seq<E>)
    requires Run(next, s, events).Some? && forall e :: e in events ==> quiet(e)
    requires forall x, e :: next(x, e).Some? && quiet(e) ==> list(next(x, e).value) == list(x) + adds(x, e)
    ensures list(Run(next, s, events).value) == list(s) + Collected(next, adds, s, events)
  {
    if events != [] {
      var init, last := events[..|events| - 1], events[|events| - 1];
      assert forall e :: e in init ==> e in events;
      assert last in events && quiet(last);
      RunCollects(next, adds, list, quiet, s, init);
      var before := Run(next, s, init).value;
      assert Run(next, s, events) == next(before, last);
    }
  }

  function Count<E>(events: seq<E>, counts: E -> bool): nat {
    if events == [] then 0 else
      Count(events[..|events| - 1], counts) + if counts(events[|events| - 1]) then 1 else 0
  }

  /** A counter in the state has grown by the number of events that count. */
  lemma {:induction false} RunCounts<S(!new), E(!new)>(
    next: (S, E) -> Option<S>, counts: E -> bool, counter: S -> nat, quiet: E -> bool, s: S, events: seq<E>)
    requires Run(next, s, events).Some? && forall e :: e in events ==> quiet(e)
    requires forall x, e :: next(x, e).Some? && quiet(e) ==>
      counter(next(x, e).value) == counter(x) + if counts(e) then 1 else 0
    ensures counter(Run(next, s, events).value) == counter(s) + Count(events, counts)
  {
    if events != [] {
      var init, last := events[..|events| - 1], events[|events| - 1];
      assert forall e :: e in init ==> e in events;
      assert last in events && quiet(last);
      RunCounts(next, counts, counter, quiet, s, init);
      var before := Run(next, s, init).value;
      assert Run(next, s, events) == next(before, last);
      assert Count(events, counts) == Count(init, counts) + if counts(last) then 1 else 0;
    }
  }
}
