/** The circuit breaker in front of every tool, and the registry that drives it. */
module ToolBreaker {
  import opened Wrappers

  datatype Settings = Settings(failureThreshold: int, recoverySeconds: real)

  datatype Breaker = Breaker(failures: int, openedAt: Option<real>)

  const FRESH := Breaker(0, None)

  /** `allow()`: an open breaker that has waited long enough starts afresh. */
  function Allowing(cfg: Settings, b: Breaker, now: real): (Breaker, bool) {
    if b.openedAt.None? then (b, true)
    else if now - b.openedAt.value >= cfg.recoverySeconds then (FRESH, true)
    else (b, false)
  }

  function AfterFailure(cfg: Settings, b: Breaker, now: real): Breaker {
    var failures := b.failures + 1;
    Breaker(failures, if failures >= cfg.failureThreshold then Some(now) else b.openedAt)
  }

  // ---------- runs of calls ----------

  /** One call: asked for at `askedAt`; if its handler runs, it returns or fails at `endsAt`. */
  datatype Call = Call(askedAt: real, endsAt: real, returns_: bool)

  /** What a run leaves: the breaker, the latest time, and, since the last success, the
      times of the handler failures and how often the breaker started afresh. */
  datatype History = History(breaker: Breaker, failures: seq<real>, restarts: nat, clock: real)

  function AfterCall(cfg: Settings, h: History, c: Call): History {
    var (b, allowed) := Allowing(cfg, h.breaker, c.askedAt);
    if !allowed then h.(clock := c.askedAt)
    else if c.returns_ then History(FRESH, [], 0, c.endsAt)
    else History(AfterFailure(cfg, b, c.endsAt), h.failures + [c.endsAt],
                 h.restarts + (if h.breaker.openedAt.Some? then 1 else 0), c.endsAt)
  }

  function AfterCalls(cfg: Settings, calls: seq<Call>): History {
    if calls == [] then History(FRESH, [], 0, 0.0)
    else AfterCall(cfg, AfterCalls(cfg, calls[..|calls| - 1]), calls[|calls| - 1])
  }

  /** Calls one after the other, on a clock that starts at zero and never goes back; a call
      that is refused is over at once. */
  ghost predicate Sequential(cfg: Settings, calls: seq<Call>) {
    calls == [] ||
    var init, last := calls[..|calls| - 1], calls[|calls| - 1];
    Sequential(cfg, init) && AfterCalls(cfg, init).clock <= last.askedAt <= last.endsAt
  }

  /** A threshold below one opens at the first failure, as one does. */
  function Threshold(cfg: Settings): int {
    if cfg.failureThreshold < 1 then 1 else cfg.failureThreshold
  }

  ghost predicate HistoryInv(cfg: Settings, h: History) {
    && 0 <= h.breaker.failures <= Threshold(cfg)
    && (h.breaker.openedAt.Some? <==> h.breaker.failures == Threshold(cfg))
    && |h.failures| == h.restarts * Threshold(cfg) + h.breaker.failures
    && (h.failures == [] ==> h.breaker == FRESH && h.restarts == 0)
    && (h.failures != [] ==>
          var first, last := h.failures[0], h.failures[|h.failures| - 1];
          && h.breaker.failures > 0
          && first + h.restarts as real * cfg.recoverySeconds <= last <= h.clock
          && (h.breaker.openedAt.Some? ==> h.breaker.openedAt.value == last))
  }

  lemma RestartAdds(cfg: Settings, restarts: nat, failures: nat)
    requires failures == restarts * Threshold(cfg) + Threshold(cfg)
    ensures failures + 1 == (restarts + 1) * Threshold(cfg) + 1
    ensures (restarts + 1) as real * cfg.recoverySeconds == restarts as real * cfg.recoverySeconds + cfg.recoverySeconds
  {
  }

  lemma CallKeepsInv(cfg: Settings, h: History, c: Call)
    requires HistoryInv(cfg, h) && h.clock <= c.askedAt <= c.endsAt
    ensures HistoryInv(cfg, AfterCall(cfg, h, c))
  {
    if h.breaker.openedAt.Some? {
      RestartAdds(cfg, h.restarts, |h.failures|);
    }
  }

  lemma {:induction false} CallsKeepInv(cfg: Settings, calls: seq<Call>)
    requires Sequential(cfg, calls)
    ensures HistoryInv(cfg, AfterCalls(cfg, calls))
  {
    if calls != [] {
      var init := calls[..|calls| - 1];
      CallsKeepInv(cfg, init);
      CallKeepsInv(cfg, AfterCalls(cfg, init), calls[|calls| - 1]);
    }
  }

  lemma QuotientBound(t: real, unit: real, m: nat)
    requires unit > 0.0 && m as real * unit <= t
    ensures (t / unit).Floor >= m
  {
    var q := t / unit;
    assert q * unit == t;
    assert q >= m as real;
  }

  lemma CountBound(count: nat, restarts: nat, threshold: int, current: int, q: int)
    requires count == restarts * threshold + current && current <= threshold && threshold > 0
    requires restarts <= q
    ensures count <= threshold * (q + 1)
  {
    assert restarts * threshold + threshold == (restarts + 1) * threshold;
    assert (q - restarts) * threshold >= 0;
    assert (q + 1) * threshold == (restarts + 1) * threshold + (q - restarts) * threshold;
  }

  /** If the handler has failed since its last success and T is the time from the first of
      these failures to the last, it has failed at most threshold times (T divided by the
      recovery time, rounded down, plus one) times. */
  ghost predicate Bounded(cfg: Settings, failures: seq<real>) {
    cfg.recoverySeconds > 0.0 && failures != [] ==>
      var elapsed := failures[|failures| - 1] - failures[0];
      |failures| <= Threshold(cfg) * ((elapsed / cfg.recoverySeconds).Floor + 1)
  }

  /** In every run the failures since the last success are so bounded. */
  lemma FailuresAreBounded(cfg: Settings, calls: seq<Call>)
    requires Sequential(cfg, calls)
    ensures Bounded(cfg, AfterCalls(cfg, calls).failures)
  {
    hide AfterCalls;
    CallsKeepInv(cfg, calls);
    var h := AfterCalls(cfg, calls);
    if cfg.recoverySeconds > 0.0 && h.failures != [] {
      var elapsed := h.failures[|h.failures| - 1] - h.failures[0];
      QuotientBound(elapsed, cfg.recoverySeconds, h.restarts);
      CountBound(|h.failures|, h.restarts, Threshold(cfg), h.breaker.failures, (elapsed / cfg.recoverySeconds).Floor);
    }
  }

  /** After every run, a call is refused exactly when the failures since the last success fill
      a whole number of thresholds, one more than the breaker has started afresh, and the last
      of them is less than the recovery time ago. So fewer failures than the threshold never
      refuse a call, and neither does anything once the recovery time has passed. */
  lemma RefusedExactly(cfg: Settings, calls: seq<Call>, askedAt: real)
    requires Sequential(cfg, calls) && AfterCalls(cfg, calls).clock <= askedAt
    ensures var h := AfterCalls(cfg, calls);
      var refused := !Allowing(cfg, h.breaker, askedAt).1;
      && (refused <==>
            && h.failures != [] && |h.failures| == (h.restarts + 1) * Threshold(cfg)
            && askedAt - h.failures[|h.failures| - 1] < cfg.recoverySeconds)
      && (|h.failures| < Threshold(cfg) ==> !refused)
      && (|h.failures| == Threshold(cfg) && askedAt - h.failures[|h.failures| - 1] < cfg.recoverySeconds ==> refused)
  {
    hide AfterCalls, Sequential;
    var h := AfterCalls(cfg, calls);
    CallsKeepInv(cfg, calls);
    RestartAdds(cfg, h.restarts, h.restarts * Threshold(cfg) + Threshold(cfg));
    WholeThresholds(h.restarts, Threshold(cfg), h.breaker.failures);
  }

  lemma WholeThresholds(restarts: nat, threshold: int, current: int)
    requires threshold >= 1 && 0 <= current <= threshold
    ensures restarts * threshold + current == (restarts + 1) * threshold <==> current == threshold
    ensures restarts * threshold + current < threshold ==> current < threshold
    ensures restarts * threshold + current == threshold && current > 0 ==> restarts == 0
  {
    assert (restarts + 1) * threshold == restarts * threshold + threshold;
    if restarts > 0 {
      assert restarts * threshold == (restarts - 1) * threshold + threshold;
      assert (restarts - 1) * threshold >= 0;
    }
  }

  lemma OneMoreCall(cfg: Settings, calls: seq<Call>, c: Call)
    requires Sequential(cfg, calls) && AfterCalls(cfg, calls).clock <= c.askedAt <= c.endsAt
    ensures Sequential(cfg, calls + [c])
    ensures AfterCalls(cfg, calls + [c]) == AfterCall(cfg, AfterCalls(cfg, calls), c)
  {
    assert (calls + [c])[..|calls|] == calls;
  }

  // ---------- the classes ----------

  class CircuitBreaker {
    const cfg: Settings
    var failures: int
    var openedAt: Option<real>
    ghost var calls: seq<Call>   // every call that has reached this breaker

    function State(): Breaker
      reads this
    {
      Breaker(failures, openedAt)
    }

    ghost function Past(): History
      reads this
    {
      AfterCalls(cfg, calls)
    }

    /** The state is where the run of calls has led. */
    ghost predicate Valid()
      reads this
    {
      Sequential(cfg, calls) && State() == Past().breaker
    }

    constructor (failureThreshold: int, recoverySeconds: real)
      ensures cfg == Settings(failureThreshold, recoverySeconds) && Valid() && calls == []
    {
      cfg := Settings(failureThreshold, recoverySeconds);
      failures, openedAt := 0, None;
      calls := [];
    }

    method Allow(now: real) returns (allowed: bool)
      modifies `failures, `openedAt
      ensures (State(), allowed) == Allowing(cfg, old(State()), now)
    {
      if openedAt.None? {
        return true;
      }
      if now - openedAt.value >= cfg.recoverySeconds {
        openedAt := None;
        failures := 0;
        return true;
      }
      return false;
    }

    method RecordSuccess()
      modifies `failures, `openedAt
      ensures State() == FRESH
    {
      failures := 0;
      openedAt := None;
    }

    method RecordFailure(now: real)
      modifies `failures, `openedAt
      ensures State() == AfterFailure(cfg, old(State()), now)
    {
      failures := failures + 1;
      if failures >= cfg.failureThreshold {
        openedAt := Some(now);
      }
    }

    ghost method Note(c: Call)
      requires Sequential(cfg, calls) && Past().clock <= c.askedAt <= c.endsAt
      requires State() == AfterCall(cfg, Past(), c).breaker
      modifies `calls
      ensures Valid() && calls == old(calls) + [c]
      ensures Past() == AfterCall(cfg, old(Past()), c) && Bounded(cfg, Past().failures)
    {
      OneMoreCall(cfg, calls, c);
      calls := calls + [c];
      FailuresAreBounded(cfg, calls);
    }
  }

  class ToolSpec {
    const name: string
    const breaker: CircuitBreaker
    const permissions: set<string>

    constructor (name: string, breaker: CircuitBreaker, permissions: set<string>)
      ensures this.name == name && this.breaker == breaker && this.permissions == permissions
    {
      this.name, this.breaker, this.permissions := name, breaker, permissions;
    }

    predicate Permits(role: string) {
      permissions == {} || role in permissions
    }
  }

  datatype Result = UnknownTool | Forbidden | CircuitOpen | HandlerFailed | Done

  class ToolRegistry {
    var tools: map<string, ToolSpec>

    ghost function Breakers(): set<CircuitBreaker>
      reads this
    {
      set n | n in tools :: tools[n].breaker
    }

    /** Tools stand under their names, and every breaker is where its calls have led. */
    ghost predicate Valid()
      reads this, Breakers()
    {
      forall n :: n in tools ==> tools[n].name == n && tools[n].breaker in Breakers() && tools[n].breaker.Valid()
    }

    constructor ()
      ensures Valid() && tools == map[]
    {
      tools := map[];
    }

    /** A tool takes the place of one of the same name; the other tools stay, and no breaker,
        not even that of the tool replaced, changes or forgets a call. */
    method Register(spec: ToolSpec)
      requires Valid() && spec.breaker.Valid()
      modifies this
      ensures Valid() && tools == old(tools)[spec.name := spec]
      ensures forall n :: n in old(tools) && n != spec.name ==> n in tools && tools[n] == old(tools[n])
      ensures forall b :: b in old(Breakers()) ==> b.State() == old(b.State()) && b.calls == old(b.calls)
    {
      tools := tools[spec.name := spec];
    }

    /** An unknown tool or a role without permission never reaches the breaker. Any other
        call takes the breaker one call on: an open breaker that has not recovered keeps the
        handler from running, and only a handler that ran is recorded. The failures since
        the last success stay bounded. */
    method Execute(name: string, role: string, askedAt: real, endsAt: real, handlerReturns: bool) returns (result: Result)
      requires Valid()
      requires name in tools ==> tools[name].breaker.Past().clock <= askedAt <= endsAt
      modifies if name in tools then {tools[name].breaker} else {}
      ensures Valid()
      ensures name !in tools <==> result == UnknownTool
      ensures name in tools ==>
        var spec := tools[name];
        var breaker := spec.breaker;
        var c := Call(askedAt, endsAt, handlerReturns);
        var before, after := old(breaker.Past()), breaker.Past();
        var allowed := Allowing(breaker.cfg, before.breaker, askedAt).1;
        && (result == Forbidden <==> !spec.Permits(role))
        && (result == CircuitOpen <==> spec.Permits(role) && !allowed)
        && (result == Forbidden <==> spec.permissions != {} && role !in spec.permissions)
        && (result == CircuitOpen <==>
              && (spec.permissions == {} || role in spec.permissions)
              && old(breaker.openedAt).Some? && askedAt - old(breaker.openedAt).value < breaker.cfg.recoverySeconds)
        && (result == HandlerFailed <==> spec.Permits(role) && allowed && !handlerReturns)
        && breaker.calls == old(breaker.calls) + (if spec.Permits(role) then [c] else [])
        && after == (if spec.Permits(role) then AfterCall(breaker.cfg, before, c) else before)
        && after.failures ==
             (if result == HandlerFailed then before.failures + [endsAt]
              else if result == Done then [] else before.failures)
        && Bounded(breaker.cfg, after.failures)
    {
      hide AfterCalls, Sequential, Bounded;
      if name !in tools {
        return UnknownTool;
      }
      var spec := tools[name];
      if spec.permissions != {} && role !in spec.permissions {
        FailuresAreBounded(spec.breaker.cfg, spec.breaker.calls);
        return Forbidden;
      }
      var allowed := spec.breaker.Allow(askedAt);
      if !allowed {
        result := CircuitOpen;
      } else if !handlerReturns {
        spec.breaker.RecordFailure(endsAt);
        result := HandlerFailed;
      } else {
        spec.breaker.RecordSuccess();
        result := Done;
      }
      spec.breaker.Note(Call(askedAt, endsAt, handlerReturns));
    }
  }
}
