/** The RabbitMQ consumer loop against a broker that redelivers, with a handler, a
    dead-letter exchange, a connection and a process that may each fail at any point.

    `Next` is the protocol as a state machine, one step per await of the loop or per event
    outside it. `Consumer.ConsumeOne` is the loop body as the program runs it, proved to be
    a run of that machine. The theorems are about every run. */
module RabbitConsumer {
  import opened Machine
  import opened Wrappers
  import opened MessageCache
  import opened Identity
  import opened Text

  datatype Body = Undecodable | NoPayload | WithPayload(payload: Payload)

  datatype Config = Config(cache: MessageCache.Config, maxRetries: nat)

  /** Where the loop stands: `attempts` counts failed handler calls for the message in hand. */
  datatype Phase =
    | Idle
    | Handling(id: nat, attempts: nat)
    | Exhausted(id: nat)
    | Acking(id: nat)
    | Requeueing(id: nat)

  datatype State = State(
    // the broker
    bodies: map<nat, Body>,
    ready: set<nat>,
    unacked: set<nat>,
    acked: set<nat>,
    // the consumer process
    phase: Phase,
    entries: seq<Entry>,
    calls: nat,              // handler calls for the message in hand
    // what has happened
    marks: seq<Entry>,       // marks made by this process
    clock: int,
    handled: set<nat>,
    deadLettered: set<nat>)

  datatype Event =
    | Publish(id: nat, body: Body)
    | Prefetch(id: nat)
    | Fetch(id: nat, now: int)
    | HandlerReturns(purgeAt: int, stampAt: int)
    | HandlerRaises
    | DeadLetter(purgeAt: int, stampAt: int)
    | DeadLetterUnconfirmed          // the copy is stored, the publish call raises
    | DeadLetterFails                // no copy, or no exchange to publish to
    | Ack
    | AckUnconfirmed                 // the broker has settled it, the call raises
    | AckFails
    | Nack
    | NackFails
    | ConnectionDrops
    | ProcessRestarts

  const START := State(map[], {}, {}, {}, Idle, [], 0, [], 0, {}, {})

  function IdentityOf(s: State, id: nat): Option<string> {
    if id in s.bodies && s.bodies[id].WithPayload? then s.bodies[id].payload.Identity() else None
  }

  /** The broker takes back everything that is not settled. */
  function Requeued(s: State): State {
    s.(ready := s.ready + s.unacked, unacked := {})
  }

  /** `processed_cache.mark(identity)` */
  function MarkedIn(cfg: Config, s: State, id: nat, purgeAt: int, stampAt: int): State {
    match IdentityOf(s, id)
    case None => s
    case Some(token) => s.(
      entries := Marked(cfg.cache, s.entries, token, purgeAt, stampAt),
      marks := s.marks + [Entry(token, stampAt)],
      clock := stampAt)
  }

  function Fetched(cfg: Config, s: State, id: nat, now: int): State
    requires id in s.bodies
  {
    var s := s.(ready := s.ready - {id}, unacked := s.unacked + {id}, calls := 0);
    if !s.bodies[id].WithPayload? then s.(phase := Acking(id)) else
      match IdentityOf(s, id)
      case None => s.(phase := Handling(id, 0))
      case Some(token) =>
        var entries := Purged(s.entries, now - cfg.cache.ttl);
        var s := s.(entries := entries, clock := now);
        s.(phase := if token in Tokens(entries) then Acking(id) else Handling(id, 0))
  }

  /** One step; `None` when the event cannot happen in this state. */
  function Next(cfg: Config, s: State, e: Event): Option<State> {
    match e
    case Publish(id, body) =>
      if id !in s.bodies then Some(s.(bodies := s.bodies[id := body], ready := s.ready + {id})) else None
    case Prefetch(id) =>
      if id in s.ready then Some(s.(ready := s.ready - {id}, unacked := s.unacked + {id})) else None
    case Fetch(id, now) =>
      if s.phase.Idle? && id in s.bodies && (id in s.ready || id in s.unacked) && s.clock <= now
      then Some(Fetched(cfg, s, id, now)) else None
    case HandlerReturns(purgeAt, stampAt) =>
      if s.phase.Handling? && s.clock <= purgeAt <= stampAt
      then
        var s := s.(handled := s.handled + {s.phase.id}, calls := s.calls + 1);
        Some(MarkedIn(cfg, s, s.phase.id, purgeAt, stampAt).(phase := Acking(s.phase.id)))
      else None
    case HandlerRaises =>
      if s.phase.Handling?
      then
        var attempts := s.phase.attempts + 1;
        var s := s.(calls := s.calls + 1);
        Some(s.(phase := if attempts > cfg.maxRetries then Exhausted(s.phase.id) else Handling(s.phase.id, attempts)))
      else None
    case DeadLetter(purgeAt, stampAt) =>
      if s.phase.Exhausted? && s.clock <= purgeAt <= stampAt
      then
        var s := s.(deadLettered := s.deadLettered + {s.phase.id});
        Some(MarkedIn(cfg, s, s.phase.id, purgeAt, stampAt).(phase := Acking(s.phase.id)))
      else None
    case DeadLetterUnconfirmed =>
      if s.phase.Exhausted?
      then Some(s.(deadLettered := s.deadLettered + {s.phase.id}, phase := Requeueing(s.phase.id))) else None
    case DeadLetterFails =>
      if s.phase.Exhausted? then Some(s.(phase := Requeueing(s.phase.id))) else None
    case Ack =>
      if s.phase.Acking? && s.phase.id in s.unacked
      then Some(s.(unacked := s.unacked - {s.phase.id}, acked := s.acked + {s.phase.id}, phase := Idle)) else None
    case AckUnconfirmed =>
      if s.phase.Acking? && s.phase.id in s.unacked
      then Some(Requeued(s.(unacked := s.unacked - {s.phase.id}, acked := s.acked + {s.phase.id})).(phase := Idle)) else None
    case AckFails =>
      if s.phase.Acking? then Some(Requeued(s).(phase := Idle)) else None
    case Nack =>
      if s.phase.Requeueing? && s.phase.id in s.unacked
      then Some(s.(unacked := s.unacked - {s.phase.id}, ready := s.ready + {s.phase.id}, phase := Idle)) else None
    case NackFails =>
      if s.phase.Requeueing? then Some(Requeued(s).(phase := Idle)) else None
    case ConnectionDrops => Some(Requeued(s))
    case ProcessRestarts => Some(Requeued(s).(phase := Idle, entries := [], marks := []))
  }

  function Steps(cfg: Config): (State, Event) -> Option<State> {
    (s, e) => Next(cfg, s, e)
  }

  // ---------- no message is lost ----------

  /** A settled message needed no handling, was handled or dead-lettered itself, or shares
      its identity with one that was. */
  ghost predicate Justified(s: State, id: nat) {
    || (id in s.bodies && !s.bodies[id].WithPayload?)
    || id in s.handled + s.deadLettered
    || (IdentityOf(s, id).Some? && KnownIdentity(s, IdentityOf(s, id).value))
  }

  ghost predicate KnownIdentity(s: State, token: string) {
    exists id :: id in s.handled + s.deadLettered && IdentityOf(s, id) == Some(token)
  }

  /** Every published message is in exactly one place. */
  ghost predicate Conserved(s: State) {
    && s.bodies.Keys == s.ready + s.unacked + s.acked
    && s.ready !! s.unacked !! s.acked
  }

  ghost predicate NothingLost(s: State) {
    && Conserved(s)
    && (s.handled + s.deadLettered <= s.bodies.Keys)
    && (forall id :: id in s.acked ==> Justified(s, id))
  }

  ghost predicate LossInv(s: State) {
    && NothingLost(s)
    && (s.phase.Idle? || s.phase.id in s.bodies)
    && (s.phase.Acking? ==> Justified(s, s.phase.id))
    && (forall t :: t in Tokens(s.entries) ==> KnownIdentity(s, t))
  }

  /** What is published or dealt with stays so. */
  ghost predicate Grows(s: State, s': State) {
    && s.handled <= s'.handled && s.deadLettered <= s'.deadLettered
    && s.bodies.Keys <= s'.bodies.Keys && forall i :: i in s.bodies ==> s'.bodies[i] == s.bodies[i]
  }

  lemma KnownGrows(s: State, s': State, token: string)
    requires KnownIdentity(s, token) && Grows(s, s')
    ensures KnownIdentity(s', token)
  {
    var id :| id in s.handled + s.deadLettered && IdentityOf(s, id) == Some(token);
    assert IdentityOf(s', id) == Some(token);
  }

  lemma JustifiedGrows(s: State, s': State, id: nat)
    requires Justified(s, id) && id in s.bodies && Grows(s, s')
    ensures Justified(s', id)
  {
    if IdentityOf(s, id).Some? && KnownIdentity(s, IdentityOf(s, id).value) {
      KnownGrows(s, s', IdentityOf(s, id).value);
    }
  }

  lemma NextGrows(cfg: Config, s: State, e: Event)
    requires Next(cfg, s, e).Some?
    ensures Grows(s, Next(cfg, s, e).value)
  {
  }

  lemma NextConserves(cfg: Config, s: State, e: Event)
    requires Conserved(s) && Next(cfg, s, e).Some?
    ensures Conserved(Next(cfg, s, e).value)
  {
  }

  function Singleton(identity: Option<string>): set<string> {
    if identity.Some? then {identity.value} else {}
  }

  /** A step caches no identity but that of the message in hand, when it is dealt with. */
  lemma NextTokens(cfg: Config, s: State, e: Event)
    requires Next(cfg, s, e).Some?
    ensures var s' := Next(cfg, s, e).value;
      if e.HandlerReturns? || e.DeadLetter? then
        && !s.phase.Idle? && s.phase.id in s'.handled + s'.deadLettered
        && IdentityOf(s', s.phase.id) == IdentityOf(s, s.phase.id)
        && Tokens(s'.entries) <= Tokens(s.entries) + Singleton(IdentityOf(s, s.phase.id))
      else
        Tokens(s'.entries) <= Tokens(s.entries)
  {
    hide Marked, Purged;
    match e {
      case HandlerReturns(purgeAt, stampAt) =>
        MarkedTokens(cfg.cache, s.entries, IdentityOf(s, s.phase.id).GetOr(""), purgeAt, stampAt);
      case DeadLetter(purgeAt, stampAt) =>
        MarkedTokens(cfg.cache, s.entries, IdentityOf(s, s.phase.id).GetOr(""), purgeAt, stampAt);
      case Fetch(_, now) => PurgedTokens(s.entries, now - cfg.cache.ttl);
      case _ =>
    }
  }

  lemma NextKeepsTokens(cfg: Config, s: State, e: Event)
    requires forall t :: t in Tokens(s.entries) ==> KnownIdentity(s, t)
    requires Next(cfg, s, e).Some?
    ensures var s' := Next(cfg, s, e).value;
      forall t :: t in Tokens(s'.entries) ==> KnownIdentity(s', t)
  {
    hide Next, IdentityOf, Tokens;
    var s' := Next(cfg, s, e).value;
    NextGrows(cfg, s, e);
    NextTokens(cfg, s, e);
    forall t | t in Tokens(s'.entries) ensures KnownIdentity(s', t) {
      if t in Tokens(s.entries) {
        KnownGrows(s, s', t);
      }
    }
  }

  /** Whatever is about to be acknowledged has been dealt with. */
  lemma NextKeepsAcking(cfg: Config, s: State, e: Event)
    requires LossInv(s) && Next(cfg, s, e).Some?
    ensures var s' := Next(cfg, s, e).value;
      && (s'.phase.Idle? || s'.phase.id in s'.bodies)
      && (s'.phase.Acking? ==> Justified(s', s'.phase.id))
      && (s'.handled + s'.deadLettered <= s'.bodies.Keys)
  {
    hide Marked, Purged, Tokens, Conserved;
    var s' := Next(cfg, s, e).value;
    NextGrows(cfg, s, e);
    if s.phase.Acking? {
      JustifiedGrows(s, s', s.phase.id);
    }
    if e.Fetch? {
      PurgedTokens(s.entries, e.now - cfg.cache.ttl);
      if IdentityOf(s, e.id).Some? && KnownIdentity(s, IdentityOf(s, e.id).value) {
        KnownGrows(s, s', IdentityOf(s, e.id).value);
      }
    }
  }

  lemma NextKeepsLossInv(cfg: Config, s: State, e: Event)
    requires LossInv(s) && Next(cfg, s, e).Some?
    ensures LossInv(Next(cfg, s, e).value)
  {
    var s' := Next(cfg, s, e).value;
    NextGrows(cfg, s, e);
    NextConserves(cfg, s, e);
    NextKeepsTokens(cfg, s, e);
    NextKeepsAcking(cfg, s, e);
    forall id | id in s'.acked ensures Justified(s', id) {
      if id in s.acked || (s.phase.Acking? && id == s.phase.id) {
        JustifiedGrows(s, s', id);
      }
    }
  }

  // ---------- no message is handled twice too soon ----------

  ghost predicate DuplicateInv(cfg: Config, s: State) {
    && Refines(cfg.cache, s.entries, s.marks, s.clock)
    && Separated(cfg.cache, s.marks)
    && (s.phase.Handling? ==> s.calls == s.phase.attempts <= cfg.maxRetries)
    && s.calls <= cfg.maxRetries + 1
    && (s.phase.Handling? || s.phase.Exhausted? ==>
          IdentityOf(s, s.phase.id).Some? ==>
            !Remembered(cfg.cache, s.marks, IdentityOf(s, s.phase.id).value, s.clock))
  }

  lemma FetchKeepsDuplicateInv(cfg: Config, s: State, id: nat, now: int)
    requires DuplicateInv(cfg, s) && id in s.bodies && s.clock <= now
    ensures DuplicateInv(cfg, Fetched(cfg, s, id, now))
  {
    if IdentityOf(s, id).Some? {
      PurgeKeeps(cfg.cache, s.entries, s.marks, s.clock, now);
      PurgedHoldsExactly(cfg.cache, s.entries, s.marks, s.clock, now, IdentityOf(s, id).value);
    }
  }

  lemma NextKeepsDuplicateInv(cfg: Config, s: State, e: Event)
    requires LossInv(s) && DuplicateInv(cfg, s) && Next(cfg, s, e).Some?
    ensures DuplicateInv(cfg, Next(cfg, s, e).value)
  {
    hide Refines, Separated, Remembered, Marked, Purged, LossInv, Fetched;
    match e {
      case HandlerReturns(purgeAt, stampAt) => MarkingKeeps(cfg, s, s.phase.id, purgeAt, stampAt);
      case DeadLetter(purgeAt, stampAt) => MarkingKeeps(cfg, s, s.phase.id, purgeAt, stampAt);
      case Fetch(id, now) => FetchKeepsDuplicateInv(cfg, s, id, now);
      case ProcessRestarts => NothingMarked(cfg.cache, s.clock);
      case Publish(id, body) => PublishKeepsDuplicateInv(cfg, s, id, body);
      case _ =>
    }
  }

  lemma PublishKeepsDuplicateInv(cfg: Config, s: State, id: nat, body: Body)
    requires LossInv(s) && DuplicateInv(cfg, s) && Next(cfg, s, Publish(id, body)).Some?
    ensures DuplicateInv(cfg, Next(cfg, s, Publish(id, body)).value)
  {
    hide Refines, Separated, Remembered, NothingLost;
    var s' := Next(cfg, s, Publish(id, body)).value;
    assert !s.phase.Idle? ==> IdentityOf(s', s.phase.id) == IdentityOf(s, s.phase.id);
  }

  lemma MarkingKeeps(cfg: Config, s: State, id: nat, purgeAt: int, stampAt: int)
    requires Refines(cfg.cache, s.entries, s.marks, s.clock) && Separated(cfg.cache, s.marks)
    requires s.clock <= purgeAt <= stampAt
    requires IdentityOf(s, id).Some? ==> !Remembered(cfg.cache, s.marks, IdentityOf(s, id).value, s.clock)
    ensures var s' := MarkedIn(cfg, s, id, purgeAt, stampAt);
      Refines(cfg.cache, s'.entries, s'.marks, s'.clock) && Separated(cfg.cache, s'.marks)
  {
    if IdentityOf(s, id).Some? {
      var token := IdentityOf(s, id).value;
      MarkKeeps(cfg.cache, s.entries, s.marks, s.clock, token, purgeAt, stampAt);
      MarkKeepsSeparated(cfg.cache, s.marks, token, s.clock, stampAt);
    }
  }

  // ---------- the theorems ----------

  ghost predicate Inv(cfg: Config, s: State) {
    LossInv(s) && DuplicateInv(cfg, s)
  }

  lemma {:induction false} RunKeepsInv(cfg: Config, s: State, events: seq<Event>)
    requires Inv(cfg, s) && Run(Steps(cfg), s, events).Some?
    ensures Inv(cfg, Run(Steps(cfg), s, events).value)
  {
    hide Inv, Next;
    if events != [] {
      var init, last := events[..|events| - 1], events[|events| - 1];
      RunKeepsInv(cfg, s, init);
      NextKeepsInv(cfg, Run(Steps(cfg), s, init).value, last);
    }
  }

  lemma NextKeepsInv(cfg: Config, s: State, e: Event)
    requires Inv(cfg, s) && Next(cfg, s, e).Some?
    ensures Inv(cfg, Next(cfg, s, e).value)
  {
    hide LossInv, DuplicateInv, Next;
    NextKeepsLossInv(cfg, s, e);
    NextKeepsDuplicateInv(cfg, s, e);
  }

  lemma StartHasInv(cfg: Config)
    ensures Inv(cfg, START)
  {
    NothingMarked(cfg.cache, 0);
  }

  /** After any run, through any failures: every published message is queued, in flight or
      settled, never two of these, and a settled one has been dealt with. */
  lemma NoMessageIsLost(cfg: Config, events: seq<Event>)
    requires Run(Steps(cfg), START, events).Some?
    ensures NothingLost(Run(Steps(cfg), START, events).value)
  {
    StartHasInv(cfg);
    RunKeepsInv(cfg, START, events);
  }

  /** No other message carries this text in any of its five fields. */
  ghost predicate OnlyCarrier(s: State, id: nat, token: string) {
    forall other :: other in s.bodies && other != id && s.bodies[other].WithPayload? ==> !Carries(s.bodies[other].payload, token)
  }

  /** So a settled message whose envelope has an event id that no other message carries was
      handled or dead-lettered itself, whatever else it shares with others. */
  lemma OwnEventIsDealtWith(cfg: Config, events: seq<Event>, id: nat)
    requires Run(Steps(cfg), START, events).Some?
    requires var s := Run(Steps(cfg), START, events).value;
      && id in s.acked && id in s.bodies && s.bodies[id].WithPayload?
      && Strip(s.bodies[id].payload.envelopeEventId.GetOr("")) != ""
      && OnlyCarrier(s, id, Strip(s.bodies[id].payload.envelopeEventId.GetOr("")))
    ensures var s := Run(Steps(cfg), START, events).value;
      id in s.handled || id in s.deadLettered
  {
    hide Run, Strip, Carries;
    var s := Run(Steps(cfg), START, events).value;
    NoMessageIsLost(cfg, events);
    IdentityByField(s.bodies[id].payload);
    var token := IdentityOf(s, id).value;
    if id !in s.handled + s.deadLettered {
      var other :| other in s.handled + s.deadLettered && IdentityOf(s, other) == Some(token);
      IdentityIsCarried(s.bodies[other].payload);
      assert false;
    }
  }

  /** The mark that an event makes in a state, if any. */
  function MarkOf(s: State, e: Event): seq<Entry> {
    if (e.HandlerReturns? && s.phase.Handling?) || (e.DeadLetter? && s.phase.Exhausted?)
    then match IdentityOf(s, s.phase.id)
      case None => []
      case Some(token) => [Entry(token, e.stampAt)]
    else []
  }

  /** The marks that a run makes. */
  function MarksIn(cfg: Config, s: State, events: seq<Event>): seq<Entry> {
    Collected(Steps(cfg), MarkOf, s, events)
  }

  lemma NextMarks(cfg: Config, s: State, e: Event)
    requires Next(cfg, s, e).Some? && e != ProcessRestarts
    ensures Next(cfg, s, e).value.marks == s.marks + MarkOf(s, e)
  {
    hide Marked, Purged;
  }

  lemma RunMarks(cfg: Config, s: State, events: seq<Event>)
    requires Run(Steps(cfg), s, events).Some? && ProcessRestarts !in events
    ensures Run(Steps(cfg), s, events).value.marks == s.marks + MarksIn(cfg, s, events)
  {
    hide Next, MarkOf, Run, Collected;
    forall x: State, e: Event | Steps(cfg)(x, e).Some? && e != ProcessRestarts
      ensures Steps(cfg)(x, e).value.marks == x.marks + MarkOf(x, e)
    {
      NextMarks(cfg, x, e);
    }
    RunCollects(Steps(cfg), MarkOf, (x: State) => x.marks, (e: Event) => e != ProcessRestarts, s, events);
  }

  /** The handler has returned for the message in hand, which has this identity. */
  predicate Handles(s: State, e: Event, token: string) {
    e.HandlerReturns? && s.phase.Handling? && IdentityOf(s, s.phase.id) == Some(token)
  }

  lemma HandlingMarks(cfg: Config, s: State, e: Event, token: string)
    requires Handles(s, e, token) && Next(cfg, s, e).Some?
    ensures Next(cfg, s, e).value.marks == s.marks + [Entry(token, e.stampAt)]
  {
    hide Marked;
  }

  /** In one process, and however often it reconnects, two runs of the handler that return
      for one identity are more than the time-to-live apart, or at least `maxEntries` other
      identities were handled or dead-lettered between them. */
  lemma NoEarlyDuplicate(cfg: Config, before: seq<Event>, first: Event, between: seq<Event>, second: Event, token: string)
    requires Run(Steps(cfg), START, before + [first] + between + [second]).Some? && ProcessRestarts !in between
    requires Handles(StateAfter(cfg, before), first, token)
    requires Handles(StateAfter(cfg, before + [first] + between), second, token)
    ensures var start := StateAfter(cfg, before + [first]);
      || first.stampAt < second.stampAt - cfg.cache.ttl
      || |OtherTokens(MarksIn(cfg, start, between), token)| >= cfg.cache.maxEntries
  {
    hide Next, OtherTokens, Inv, Run, MarksIn, IdentityOf;
    var steps := Steps(cfg);
    var upTo, all := before + [first] + between, before + [first] + between + [second];
    RunPrefix(steps, START, upTo, [second]);
    RunPrefix(steps, START, before + [first], between);
    RunPrefix(steps, START, before, [first]);
    var s, s1 := StateAfter(cfg, before), StateAfter(cfg, before + [first]);
    var s2, s3 := StateAfter(cfg, upTo), StateAfter(cfg, all);
    RunSnoc(steps, START, before, first);
    RunSnoc(steps, START, upTo, second);
    HandlingMarks(cfg, s, first, token);
    RunMarks(cfg, s1, between);
    HandlingMarks(cfg, s2, second, token);
    StartHasInv(cfg);
    RunKeepsInv(cfg, START, all);
    var i, j := |s.marks|, |s2.marks|;
    assert s3.marks == s.marks + [Entry(token, first.stampAt)] + MarksIn(cfg, s1, between) + [Entry(token, second.stampAt)];
    assert s3.marks[i + 1..j] == MarksIn(cfg, s1, between);
    InvHasDuplicateInv(cfg, s3);
    MarksAreSeparated(cfg.cache, s3.marks, s3.clock, i, j);
  }

  lemma InvHasDuplicateInv(cfg: Config, s: State)
    requires Inv(cfg, s)
    ensures DuplicateInv(cfg, s)
  {
  }

  /** The state that a run from the start has reached; the start itself for what is no run. */
  function StateAfter(cfg: Config, events: seq<Event>): State {
    Run(Steps(cfg), START, events).GetOr(START)
  }

  predicate IsCall(e: Event) {
    e.HandlerReturns? || e == HandlerRaises
  }

  /** Handler calls among the events. */
  function CallsIn(events: seq<Event>): nat {
    Count(events, IsCall)
  }

  lemma NextCounts(cfg: Config, s: State, e: Event)
    requires Next(cfg, s, e).Some? && !e.Fetch?
    ensures Next(cfg, s, e).value.calls == s.calls + if IsCall(e) then 1 else 0
  {
    hide Marked, Purged;
  }

  lemma RunCalls(cfg: Config, s: State, events: seq<Event>)
    requires Run(Steps(cfg), s, events).Some? && forall e :: e in events ==> !e.Fetch?
    ensures Run(Steps(cfg), s, events).value.calls == s.calls + CallsIn(events)
  {
    hide Next, IsCall, Run, Count;
    forall x: State, e: Event | Steps(cfg)(x, e).Some? && !e.Fetch?
      ensures Steps(cfg)(x, e).value.calls == x.calls + if IsCall(e) then 1 else 0
    {
      NextCounts(cfg, x, e);
    }
    RunCounts(Steps(cfg), IsCall, (x: State) => x.calls, (e: Event) => !e.Fetch?, s, events);
  }

  /** No delivery calls the handler more than `maxRetries + 1` times. */
  lemma HandlerCallsAreBounded(cfg: Config, before: seq<Event>, fetch: Event, since: seq<Event>)
    requires Run(Steps(cfg), START, before + [fetch] + since).Some?
    requires fetch.Fetch? && forall e :: e in since ==> !e.Fetch?
    ensures CallsIn(since) <= cfg.maxRetries + 1
  {
    hide Inv, Run, CallsIn;
    var steps, all := Steps(cfg), before + [fetch] + since;
    RunPrefix(steps, START, before + [fetch], since);
    RunPrefix(steps, START, before, [fetch]);
    RunSnoc(steps, START, before, fetch);
    RunCalls(cfg, StateAfter(cfg, before + [fetch]), since);
    StartHasInv(cfg);
    RunKeepsInv(cfg, START, all);
    InvHasDuplicateInv(cfg, StateAfter(cfg, all));
  }

  // ---------- the loop body as the program runs it ----------

  datatype DeadLetterResult = Stored | StoredUnconfirmed | NotStored

  /** Whether the broker acts on the acknowledgement, and whether the call returns. */
  datatype SettleResult = Settled | SettledUnconfirmed | NotSettled

  /** What the surroundings do during one pass: the clock readings, the outcome of each
      handler call, of the dead-letter publish, and of the final acknowledgement. */
  datatype Surroundings = Surroundings(
    fetchedAt: int,
    handlerReturns: seq<bool>,
    purgeAt: int,
    stampAt: int,
    deadLetter: DeadLetterResult,
    settles: SettleResult)

  class Consumer {
    const maxRetries: nat
    const processedCache: ProcessedMessageCache
    ghost const origin: State     // the world this process started in
    ghost var trace: seq<Event>   // every step taken since
    ghost var world: State

    /** The world is where the machine's run has led, and the cache is the machine's cache. */
    ghost predicate Valid()
      reads this, processedCache
    {
      && processedCache.Valid()
      && world.entries == processedCache.entries
      && world.marks == processedCache.history
      && world.clock == processedCache.clock
      && Run(Steps(Cfg()), origin, trace) == Some(world)
    }

    ghost function Cfg(): Config {
      Config.Config(processedCache.cfg, maxRetries)
    }

    /** A fresh process; a negative retry setting counts as zero. */
    constructor (maxRetriesSetting: int, ghost origin: State)
      requires origin.phase.Idle? && origin.entries == [] && origin.marks == []
      ensures Valid() && fresh(processedCache) && world == this.origin == origin
      ensures maxRetries == if maxRetriesSetting > 0 then maxRetriesSetting else 0
    {
      maxRetries := if maxRetriesSetting > 0 then maxRetriesSetting else 0;
      processedCache := new ProcessedMessageCache(3600, 10000, origin.clock);
      this.origin, trace, world := origin, [], origin;
    }

    /** The world takes one step of the machine. */
    ghost method Step(e: Event)
      requires Run(Steps(Cfg()), origin, trace) == Some(world) && Next(Cfg(), world, e).Some?
      modifies this
      ensures world == Next(Cfg(), old(world), e).value
      ensures trace == old(trace) + [e] && Run(Steps(Cfg()), origin, trace) == Some(world)
    {
      hide Run, Next;
      RunSnoc(Steps(Cfg()), origin, trace, e);
      world := Next(Cfg(), world, e).value;
      trace := trace + [e];
    }

    ghost predicate IsDuplicate(s: State, id: nat, now: int) {
      IdentityOf(s, id).Some? && Remembered(processedCache.cfg, s.marks, IdentityOf(s, id).value, now)
    }

    /** What is not among the marks is no duplicate, and a message with an event id in its
        envelope is looked up by that id alone. */
    lemma NewEventIsNoDuplicate(s: State, id: nat, now: int)
      requires id in s.bodies && s.bodies[id].WithPayload?
      requires Strip(s.bodies[id].payload.envelopeEventId.GetOr("")) != ""
      requires forall m :: m in s.marks ==> m.token != Strip(s.bodies[id].payload.envelopeEventId.GetOr(""))
      ensures !IsDuplicate(s, id, now)
    {
      hide Strip;
      IdentityByField(s.bodies[id].payload);
      NeverMarked(s.marks, Strip(s.bodies[id].payload.envelopeEventId.GetOr("")));
    }

    /** Takes message `id` in hand and says whether the handler is to be called. */
    method Receive(id: nat, body: Body, now: int) returns (identity: Option<string>, wanted: bool)
      requires Valid() && world.phase.Idle? && (id in world.ready || id in world.unacked)
      requires id in world.bodies && world.bodies[id] == body
      requires world.clock <= now
      modifies this, processedCache
      ensures Valid() && old(trace) < trace
      ensures wanted <==> body.WithPayload? && !IsDuplicate(old(world), id, now)
      ensures world.phase == if wanted then Handling(id, 0) else Acking(id)
      ensures world.clock <= now && identity == IdentityOf(world, id) && id in world.unacked
      ensures world.handled == old(world).handled && world.deadLettered == old(world).deadLettered
      ensures world.acked == old(world).acked
    {
      hide Strip, Run, Marked, LastMark, Carries;
      identity, wanted := None, false;
      if body.WithPayload? {
        identity := ExtractMessageIdentity(body.payload);
        if identity.Some? {
          IdentityIsToken(body.payload);
          PurgedHoldsExactly(processedCache.cfg, world.entries, world.marks, world.clock, now, identity.value);
        }
        var duplicate := processedCache.Contains(identity, now);
        wanted := !duplicate;
      }
      Step(Fetch(id, now));
    }

    /** `processed_cache.mark(identity)`, together with the step it belongs to. */
    method MarkProcessed(identity: Option<string>, e: Event)
      requires Valid()
      requires e.HandlerReturns? || e.DeadLetter?
      requires if e.HandlerReturns? then world.phase.Handling? else world.phase.Exhausted?
      requires identity == IdentityOf(world, world.phase.id)
      requires world.clock <= e.purgeAt <= e.stampAt
      modifies this, processedCache
      ensures Valid() && trace == old(trace) + [e] && world == Next(Cfg(), old(world), e).value
    {
      if identity.Some? {
        IdentityIsToken(world.bodies[world.phase.id].payload);
      }
      processedCache.Mark(identity, e.purgeAt, e.stampAt);
      Step(e);
    }

    /** Calls the handler until it returns, at most `maxRetries + 1` times. */
    method Handle(identity: Option<string>, returns_: seq<bool>, purgeAt: int, stampAt: int) returns (calls: nat, success: bool)
      requires Valid() && world.phase.Handling? && world.phase.attempts == 0
      requires identity == IdentityOf(world, world.phase.id)
      requires world.clock <= purgeAt <= stampAt && |returns_| == maxRetries + 1
      modifies this, processedCache
      ensures Valid() && old(trace) < trace
      ensures 0 < calls <= maxRetries + 1
      ensures forall k :: 0 <= k < calls - 1 ==> !returns_[k]
      ensures success == returns_[calls - 1] && (!success ==> calls == maxRetries + 1)
      ensures var id := old(world).phase.id;
        && world.phase == (if success then Acking(id) else Exhausted(id))
        && world.handled == old(world).handled + (if success then {id} else {})
        && world.bodies == old(world).bodies && world.unacked == old(world).unacked
        && world.deadLettered == old(world).deadLettered && world.acked == old(world).acked
        && (!success ==> world.clock == old(world).clock)
    {
      hide Refines, Marked, Purged, Run;
      var attempts := 0;
      calls, success := 0, false;
      ghost var id := world.phase.id;
      while attempts <= maxRetries
        invariant Valid() && old(trace) <= trace
        invariant calls == attempts <= maxRetries && !success
        invariant world == old(world).(phase := Handling(id, attempts), calls := world.calls)
        invariant forall k :: 0 <= k < calls ==> !returns_[k]
      {
        calls := calls + 1;
        if returns_[attempts] {
          success := true;
          MarkProcessed(identity, HandlerReturns(purgeAt, stampAt));
          break;
        }
        attempts := attempts + 1;
        Step(HandlerRaises);
        if attempts > maxRetries {
          break;
        }
      }
    }

    /** Publishes the message in hand to the dead-letter exchange; says whether to acknowledge. */
    method GiveUp(identity: Option<string>, result: DeadLetterResult, purgeAt: int, stampAt: int) returns (acks: bool)
      requires Valid() && world.phase.Exhausted? && identity == IdentityOf(world, world.phase.id)
      requires world.clock <= purgeAt <= stampAt
      modifies this, processedCache
      ensures Valid() && old(trace) < trace && acks == result.Stored?
      ensures var id := old(world).phase.id;
        && world.phase == (if acks then Acking(id) else Requeueing(id))
        && world.deadLettered == old(world).deadLettered + (if result.NotStored? then {} else {id})
        && world.handled == old(world).handled && world.unacked == old(world).unacked
        && world.acked == old(world).acked
    {
      hide Run, Marked, Purged, Refines;
      acks := result.Stored?;
      if acks {
        MarkProcessed(identity, DeadLetter(purgeAt, stampAt));
      } else {
        Step(if result.StoredUnconfirmed? then DeadLetterUnconfirmed else DeadLetterFails);
      }
    }

    /** Acknowledges or requeues the message in hand; a call that raises ends the connection,
        and the broker takes back whatever is not settled. */
    method Settle(acks: bool, result: SettleResult)
      requires Valid()
      requires if acks then world.phase.Acking? else world.phase.Requeueing?
      requires world.phase.id in world.unacked
      modifies this
      ensures Valid() && old(trace) < trace && world.phase.Idle?
      ensures world.handled == old(world).handled && world.deadLettered == old(world).deadLettered
      ensures world.acked == old(world).acked + if acks && !result.NotSettled? then {old(world).phase.id} else {}
      ensures !acks || result.NotSettled? ==> old(world).phase.id in world.ready
      ensures !result.Settled? ==> world.unacked == {}
    {
      hide Refines, Marked, Purged, MarkedIn, Fetched, IdentityOf, Run;
      if acks {
        Step(match result case Settled => Ack case SettledUnconfirmed => AckUnconfirmed case NotSettled => AckFails);
      } else {
        Step(if result.Settled? then Nack else NackFails);
      }
    }

    /** One pass of the loop over message `id`: a run of the machine that calls the handler
        until it returns, `maxRetries + 1` times at most, and settles the message unless
        both the handler and the dead-letter publish failed. */
    method ConsumeOne(id: nat, body: Body, around: Surroundings) returns (calls: nat, acks: bool)
      requires Valid() && world.phase.Idle? && (id in world.ready || id in world.unacked)
      requires id in world.bodies && world.bodies[id] == body
      requires world.clock <= around.fetchedAt <= around.purgeAt <= around.stampAt
      requires |around.handlerReturns| == maxRetries + 1
      modifies this, processedCache
      ensures Valid() && old(trace) < trace && world.phase.Idle?
      ensures calls <= maxRetries + 1
      ensures calls == 0 <==> !body.WithPayload? || IsDuplicate(old(world), id, around.fetchedAt)
      ensures
        (body.WithPayload? && Strip(body.payload.envelopeEventId.GetOr("")) != "" &&
         forall m :: m in old(world).marks ==> m.token != Strip(body.payload.envelopeEventId.GetOr("")))
        ==> calls > 0
      ensures forall k :: 0 <= k < calls - 1 ==> !around.handlerReturns[k]
      ensures 0 < calls <= maxRetries ==> around.handlerReturns[calls - 1]
      ensures acks <==> calls == 0 || around.handlerReturns[calls - 1] || around.deadLetter.Stored?
      ensures world.acked == old(world).acked + if acks && !around.settles.NotSettled? then {id} else {}
      ensures !acks || around.settles.NotSettled? ==> id in world.ready
      ensures world.handled == old(world).handled + if calls > 0 && around.handlerReturns[calls - 1] then {id} else {}
      ensures world.deadLettered == old(world).deadLettered +
        if calls > 0 && !around.handlerReturns[calls - 1] && !around.deadLetter.NotStored? then {id} else {}
    {
      hide Run, Marked, Purged, Remembered, Refines, Strip;
      if body.WithPayload? && Strip(body.payload.envelopeEventId.GetOr("")) != "" &&
        (forall m :: m in world.marks ==> m.token != Strip(body.payload.envelopeEventId.GetOr("")))
      {
        NewEventIsNoDuplicate(world, id, around.fetchedAt);
      }
      calls, acks := 0, true;
      var identity, wanted := Receive(id, body, around.fetchedAt);
      if wanted {
        var success;
        calls, success := Handle(identity, around.handlerReturns, around.purgeAt, around.stampAt);
        if !success {
          acks := GiveUp(identity, around.deadLetter, around.purgeAt, around.stampAt);
        }
      }
      Settle(acks, around.settles);
    }
  }
}
