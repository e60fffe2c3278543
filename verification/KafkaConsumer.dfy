/** The Kafka consumer loop: records are read in order, a commit moves the group's offset
    past everything read so far, and a restarted process reads on from that offset.

    A record whose handler and dead-letter publish both failed is left uncommitted, but the
    loop reads on, and the next commit passes it. `CommitPassesExactly` says which records
    that loses. */
module KafkaConsumer {
  import opened Machine
  import opened Wrappers
  import opened MessageCache
  import opened Identity
  import opened Text

  datatype Config = Config(cache: MessageCache.Config, maxRetries: nat)

  datatype Phase =
    | Idle
    | Handling(offset: nat, attempts: nat)
    | Failing(offset: nat)
    | Committing(offset: nat)
    | Stopped

  datatype State = State(
    // the broker; a record that is not a dictionary carries no payload
    log: seq<Option<Payload>>,
    committed: nat,
    // the consumer process
    position: nat,
    phase: Phase,
    entries: seq<Entry>,
    calls: nat,              // handler calls for the record in hand
    marks: seq<Entry>,       // marks made by this process
    clock: int,
    abandoned: set<nat>,     // read by this process, not settled, not committed past
    // what has happened
    handled: set<nat>,
    deadLettered: set<nat>,
    duplicates: set<nat>,
    lost: set<nat>)          // committed past while abandoned

  datatype Event =
    | Append(record: Option<Payload>)
    | Fetch(now: int)
    | HandlerReturns(purgeAt: int, stampAt: int)
    | HandlerRaises
    | DeadLetter(purgeAt: int, stampAt: int)
    | DeadLetterUnconfirmed    // the copy is stored, the publish call raises
    | DeadLetterFails          // no copy, or no producer to publish with
    | Commit
    | CommitUnconfirmed        // the offset is stored, the call raises and ends the loop
    | CommitFails
    | ProcessRestarts

  const START := State([], 0, 0, Idle, [], 0, [], 0, {}, {}, {}, {}, {})

  function IdentityOf(s: State, offset: nat): Option<string> {
    if offset < |s.log| && s.log[offset].Some? then s.log[offset].value.Identity() else None
  }

  function MarkedIn(cfg: Config, s: State, offset: nat, purgeAt: int, stampAt: int): State {
    match IdentityOf(s, offset)
    case None => s
    case Some(token) => s.(
      entries := Marked(cfg.cache, s.entries, token, purgeAt, stampAt),
      marks := s.marks + [Entry(token, stampAt)],
      clock := stampAt)
  }

  function Fetched(cfg: Config, s: State, now: int): State {
    var offset := s.position;
    var s := s.(position := offset + 1, calls := 0);
    match IdentityOf(s, offset)
    case None => s.(phase := Handling(offset, 0))
    case Some(token) =>
      var entries := Purged(s.entries, now - cfg.cache.ttl);
      var s := s.(entries := entries, clock := now);
      if token in Tokens(entries)
      then s.(duplicates := s.duplicates + {offset}, phase := Committing(offset))
      else s.(phase := Handling(offset, 0))
  }

  /** The record was handled or dead-lettered, or was recognised as a duplicate. */
  predicate Settled(s: State, offset: nat) {
    offset in s.handled || offset in s.deadLettered || offset in s.duplicates
  }

  /** `commit()` stores the position: every record read so far, settled or not. */
  function CommittedAll(s: State): State {
    s.(committed := s.position, lost := s.lost + s.abandoned, abandoned := {})
  }

  function Next(cfg: Config, s: State, e: Event): Option<State> {
    match e
    case Append(record) => Some(s.(log := s.log + [record]))
    case Fetch(now) =>
      if s.phase.Idle? && s.position < |s.log| && s.clock <= now then Some(Fetched(cfg, s, now)) else None
    case HandlerReturns(purgeAt, stampAt) =>
      if s.phase.Handling? && s.clock <= purgeAt <= stampAt
      then
        var s := s.(handled := s.handled + {s.phase.offset}, calls := s.calls + 1);
        Some(MarkedIn(cfg, s, s.phase.offset, purgeAt, stampAt).(phase := Committing(s.phase.offset)))
      else None
    case HandlerRaises =>
      if s.phase.Handling?
      then
        var attempts := s.phase.attempts + 1;
        var s := s.(calls := s.calls + 1);
        Some(s.(phase := if attempts > cfg.maxRetries then Failing(s.phase.offset) else Handling(s.phase.offset, attempts)))
      else None
    case DeadLetter(purgeAt, stampAt) =>
      if s.phase.Failing? && s.clock <= purgeAt <= stampAt
      then
        var s := s.(deadLettered := s.deadLettered + {s.phase.offset});
        Some(MarkedIn(cfg, s, s.phase.offset, purgeAt, stampAt).(phase := Committing(s.phase.offset)))
      else None
    case DeadLetterUnconfirmed =>
      if s.phase.Failing? then Some(s.(deadLettered := s.deadLettered + {s.phase.offset}, phase := Idle)) else None
    case DeadLetterFails =>
      if s.phase.Failing?
      then
        var left := if Settled(s, s.phase.offset) then {} else {s.phase.offset};
        Some(s.(abandoned := s.abandoned + left, phase := Idle))
      else None
    case Commit => if s.phase.Committing? then Some(CommittedAll(s).(phase := Idle)) else None
    case CommitUnconfirmed => if s.phase.Committing? then Some(CommittedAll(s).(phase := Stopped)) else None
    case CommitFails => if s.phase.Committing? then Some(s.(phase := Stopped)) else None
    case ProcessRestarts => Some(s.(position := s.committed, phase := Idle, entries := [], marks := [], abandoned := {}))
  }

  function Steps(cfg: Config): (State, Event) -> Option<State> {
    (s, e) => Next(cfg, s, e)
  }

  // ---------- the invariant ----------

  ghost predicate KnownIdentity(s: State, token: string) {
    exists o :: o in s.handled + s.deadLettered && IdentityOf(s, o) == Some(token)
  }

  predicate InHand(s: State, offset: nat) {
    (s.phase.Handling? || s.phase.Failing?) && s.phase.offset == offset
  }

  /** Every record read is settled, lost, abandoned, or in hand; these do not overlap. */
  ghost predicate ReadInv(s: State) {
    && s.committed <= s.position <= |s.log|
    && (forall o: nat :: o < s.committed ==> (Settled(s, o) <==> o !in s.lost))
    && (forall o: nat :: s.committed <= o < s.position ==> Settled(s, o) || o in s.abandoned || InHand(s, o))
    && (forall o :: o in s.abandoned ==> s.committed <= o < s.position && !Settled(s, o) && !InHand(s, o))
    && (forall o :: o in s.lost ==> o < s.committed)
    && (s.phase.Handling? || s.phase.Failing? ==> s.committed <= s.phase.offset == s.position - 1)
    && (s.phase.Committing? ==> Settled(s, s.phase.offset))
  }

  ghost predicate DuplicatesInv(s: State) {
    && (forall o :: o in s.handled + s.deadLettered ==> o < |s.log|)
    && (forall t :: t in Tokens(s.entries) ==> KnownIdentity(s, t))
    && (forall o :: o in s.duplicates ==> IdentityOf(s, o).Some? && KnownIdentity(s, IdentityOf(s, o).value))
    && (s.phase.Handling? || s.phase.Failing? ==> s.phase.offset < |s.log|)
    && s.position <= |s.log|
  }

  lemma FetchKeepsReadInv(cfg: Config, s: State, now: int)
    requires ReadInv(s) && s.phase.Idle? && s.position < |s.log|
    ensures ReadInv(Fetched(cfg, s, now))
  {
    var s' := Fetched(cfg, s, now);
    assert s'.phase.Committing? || InHand(s', s.position);
    assert forall o :: Settled(s', o) <==> Settled(s, o) || (s'.phase.Committing? && o == s.position);
  }

  /** The record in hand has been handled or dead-lettered. */
  lemma SettlingKeepsReadInv(s: State, s': State)
    requires ReadInv(s) && (s.phase.Handling? || s.phase.Failing?)
    requires s'.phase.Committing? || s'.phase.Idle?
    requires s'.phase.Committing? ==> s'.phase.offset == s.phase.offset
    requires forall o :: Settled(s', o) <==> Settled(s, o) || o == s.phase.offset
    requires s' == s.(phase := s'.phase, handled := s'.handled, deadLettered := s'.deadLettered,
                      entries := s'.entries, calls := s'.calls, marks := s'.marks, clock := s'.clock)
    ensures ReadInv(s')
  {
  }

  lemma NextKeepsReadInv(cfg: Config, s: State, e: Event)
    requires ReadInv(s) && Next(cfg, s, e).Some?
    ensures ReadInv(Next(cfg, s, e).value)
  {
    var s' := Next(cfg, s, e).value;
    match e {
      case Fetch(now) => FetchKeepsReadInv(cfg, s, now);
      case HandlerReturns(_, _) => SettlingKeepsReadInv(s, s');
      case DeadLetter(_, _) => SettlingKeepsReadInv(s, s');
      case DeadLetterUnconfirmed => SettlingKeepsReadInv(s, s');
      case HandlerRaises => HandlerRaisesKeepsReadInv(s, s');
      case DeadLetterFails => AbandoningKeepsReadInv(s, s');
      case _ => assert forall o :: Settled(s', o) <==> Settled(s, o);
    }
  }

  lemma HandlerRaisesKeepsReadInv(s: State, s': State)
    requires ReadInv(s) && s.phase.Handling?
    requires s'.phase.Handling? || s'.phase.Failing?
    requires s' == s.(phase := s'.phase, calls := s'.calls) && s'.phase.offset == s.phase.offset
    ensures ReadInv(s')
  {
    assert forall o :: Settled(s', o) <==> Settled(s, o);
    assert forall o :: InHand(s', o) <==> InHand(s, o);
  }

  lemma AbandoningKeepsReadInv(s: State, s': State)
    requires ReadInv(s) && s.phase.Failing?
    requires s' == s.(abandoned := s.abandoned + (if Settled(s, s.phase.offset) then {} else {s.phase.offset}), phase := Idle)
    ensures ReadInv(s')
  {
    assert forall o :: Settled(s', o) <==> Settled(s, o);
  }

  lemma KnownGrows(s: State, s': State, token: string)
    requires KnownIdentity(s, token) && s.log <= s'.log
    requires forall o :: o in s.handled + s.deadLettered ==> o < |s.log|
    requires s.handled <= s'.handled && s.deadLettered <= s'.deadLettered
    ensures KnownIdentity(s', token)
  {
    var o :| o in s.handled + s.deadLettered && IdentityOf(s, o) == Some(token);
    assert IdentityOf(s', o) == Some(token);
  }

  lemma NextGrows(cfg: Config, s: State, e: Event)
    requires Next(cfg, s, e).Some?
    ensures var s' := Next(cfg, s, e).value;
      s.log <= s'.log && s.handled <= s'.handled && s.deadLettered <= s'.deadLettered
  {
  }

  function Singleton(identity: Option<string>): set<string> {
    if identity.Some? then {identity.value} else {}
  }

  /** A step caches no identity but that of the message in hand, when it is dealt with. */
  lemma NextTokens(cfg: Config, s: State, e: Event)
    requires Next(cfg, s, e).Some?
    ensures var s' := Next(cfg, s, e).value;
      if e.HandlerReturns? || e.DeadLetter? then
        && !s.phase.Idle? && !s.phase.Stopped? && s.phase.offset in s'.handled + s'.deadLettered
        && IdentityOf(s', s.phase.offset) == IdentityOf(s, s.phase.offset)
        && Tokens(s'.entries) <= Tokens(s.entries) + Singleton(IdentityOf(s, s.phase.offset))
      else
        Tokens(s'.entries) <= Tokens(s.entries)
  {
    hide Marked, Purged;
    match e {
      case HandlerReturns(purgeAt, stampAt) =>
        MarkedTokens(cfg.cache, s.entries, IdentityOf(s, s.phase.offset).GetOr(""), purgeAt, stampAt);
      case DeadLetter(purgeAt, stampAt) =>
        MarkedTokens(cfg.cache, s.entries, IdentityOf(s, s.phase.offset).GetOr(""), purgeAt, stampAt);
      case Fetch(now) => PurgedTokens(s.entries, now - cfg.cache.ttl);
      case _ =>
    }
  }

  lemma NextKeepsTokens(cfg: Config, s: State, e: Event)
    requires DuplicatesInv(s) && Next(cfg, s, e).Some?
    ensures var s' := Next(cfg, s, e).value;
      forall t :: t in Tokens(s'.entries) ==> KnownIdentity(s', t)
  {
    hide Next, IdentityOf, Tokens;
    var s' := Next(cfg, s, e).value;
    NextGrows(cfg, s, e);
    NextTokens(cfg, s, e);
    forall t | t in Tokens(s'.entries) ensures KnownIdentity(s', t) {
      if t in Tokens(s.entries) {
        KnownGrows(s, s', t);
      }
    }
  }

  lemma NextKeepsDuplicates(cfg: Config, s: State, e: Event, o: nat)
    requires DuplicatesInv(s) && Next(cfg, s, e).Some? && o in Next(cfg, s, e).value.duplicates
    ensures var s' := Next(cfg, s, e).value;
      IdentityOf(s', o).Some? && KnownIdentity(s', IdentityOf(s', o).value)
  {
    var s' := Next(cfg, s, e).value;
    NextGrows(cfg, s, e);
    if o in s.duplicates {
      KnownGrows(s, s', IdentityOf(s, o).value);
    } else {
      PurgedTokens(s.entries, e.now - cfg.cache.ttl);
      KnownGrows(s, s', IdentityOf(s, o).value);
    }
  }

  lemma NextKeepsBounds(cfg: Config, s: State, e: Event)
    requires ReadInv(s) && DuplicatesInv(s) && Next(cfg, s, e).Some?
    ensures var s' := Next(cfg, s, e).value;
      && (forall o :: o in s'.handled + s'.deadLettered ==> o < |s'.log|)
      && (s'.phase.Handling? || s'.phase.Failing? ==> s'.phase.offset < |s'.log|)
      && s'.position <= |s'.log|
  {
    hide Marked, Purged, Tokens, KnownIdentity, Settled, InHand;
    var s' := Next(cfg, s, e).value;
    forall o | o in s'.handled + s'.deadLettered ensures o < |s'.log| {
      assert o in s.handled + s.deadLettered || ((s.phase.Handling? || s.phase.Failing?) && o == s.phase.offset);
    }
  }

  lemma NextKeepsDuplicatesInv(cfg: Config, s: State, e: Event)
    requires ReadInv(s) && DuplicatesInv(s) && Next(cfg, s, e).Some?
    ensures DuplicatesInv(Next(cfg, s, e).value)
  {
    hide Next, ReadInv, IdentityOf, KnownIdentity;
    var s' := Next(cfg, s, e).value;
    NextKeepsTokens(cfg, s, e);
    NextKeepsBounds(cfg, s, e);
    forall o | o in s'.duplicates ensures IdentityOf(s', o).Some? && KnownIdentity(s', IdentityOf(s', o).value) {
      NextKeepsDuplicates(cfg, s, e, o);
    }
  }

  ghost predicate Inv(s: State) {
    ReadInv(s) && DuplicatesInv(s)
  }

  lemma NextKeepsInv(cfg: Config, s: State, e: Event)
    requires Inv(s) && Next(cfg, s, e).Some?
    ensures Inv(Next(cfg, s, e).value)
  {
    hide ReadInv, DuplicatesInv, Next;
    NextKeepsReadInv(cfg, s, e);
    NextKeepsDuplicatesInv(cfg, s, e);
  }

  lemma {:induction false} RunKeepsInv(cfg: Config, events: seq<Event>)
    requires Run(Steps(cfg), START, events).Some?
    ensures Inv(Run(Steps(cfg), START, events).value)
  {
    hide Inv, Next;
    if events == [] {
      StartHasInv();
    } else {
      var init, last := events[..|events| - 1], events[|events| - 1];
      RunKeepsInv(cfg, init);
      NextKeepsInv(cfg, Run(Steps(cfg), START, init).value, last);
    }
  }

  lemma StartHasInv()
    ensures Inv(START)
  {
  }

  // ---------- which records a commit passes over ----------

  predicate IsCommit(e: Event) {
    e.Commit? || e.CommitUnconfirmed?
  }

  /** The event gives up on the record in hand, which nobody has dealt with. */
  predicate Abandons(s: State, e: Event, offset: nat) {
    e == DeadLetterFails && s.phase == Failing(offset) && !Settled(s, offset)
  }

  predicate AbandonsAt(cfg: Config, events: seq<Event>, p: nat, offset: nat)
    requires p < |events|
  {
    var s := Run(Steps(cfg), START, events[..p]);
    s.Some? && Abandons(s.value, events[p], offset)
  }

  /** The record was given up on, and the process has not restarted since. */
  ghost predicate LeftBehind(cfg: Config, events: seq<Event>, offset: nat) {
    exists p :: 0 <= p < |events| && AbandonsAt(cfg, events, p, offset) && ProcessRestarts !in events[p + 1..]
  }

  ghost predicate PassedAt(cfg: Config, events: seq<Event>, q: nat, offset: nat)
    requires q < |events|
  {
    IsCommit(events[q]) && LeftBehind(cfg, events[..q], offset)
  }

  /** A commit went past the record while it was left behind. */
  ghost predicate PassedOver(cfg: Config, events: seq<Event>, offset: nat) {
    exists q :: 0 <= q < |events| && PassedAt(cfg, events, q, offset)
  }

  lemma LeftBehindPush(cfg: Config, events: seq<Event>, e: Event, offset: nat)
    requires Run(Steps(cfg), START, events).Some?
    ensures LeftBehind(cfg, events + [e], offset) <==>
      (e != ProcessRestarts && LeftBehind(cfg, events, offset)) || Abandons(Run(Steps(cfg), START, events).value, e, offset)
  {
    hide Run, Abandons;
    var all, n := events + [e], |events|;
    assert all[..n] == events && all[n] == e && all[n + 1..] == [];
    assert AbandonsAt(cfg, all, n, offset) <==> Abandons(Run(Steps(cfg), START, events).value, e, offset);
    forall p: nat | p < n
      ensures AbandonsAt(cfg, all, p, offset) <==> AbandonsAt(cfg, events, p, offset)
      ensures ProcessRestarts !in all[p + 1..] <==> ProcessRestarts !in events[p + 1..] && e != ProcessRestarts
    {
      assert all[..p] == events[..p] && all[p] == events[p];
      assert all[p + 1..] == events[p + 1..] + [e];
    }
    if LeftBehind(cfg, events, offset) && e != ProcessRestarts {
      var p :| 0 <= p < n && AbandonsAt(cfg, events, p, offset) && ProcessRestarts !in events[p + 1..];
      assert AbandonsAt(cfg, all, p, offset) && ProcessRestarts !in all[p + 1..];
    }
    if LeftBehind(cfg, all, offset) {
      var p :| 0 <= p < |all| && AbandonsAt(cfg, all, p, offset) && ProcessRestarts !in all[p + 1..];
      assert p < n ==> AbandonsAt(cfg, events, p, offset) && ProcessRestarts !in events[p + 1..];
      assert p == n ==> Abandons(Run(Steps(cfg), START, events).value, e, offset);
    }
    if Abandons(Run(Steps(cfg), START, events).value, e, offset) {
      assert AbandonsAt(cfg, all, n, offset) && ProcessRestarts !in all[n + 1..];
    }
  }

  lemma PassedOverPush(cfg: Config, events: seq<Event>, e: Event, offset: nat)
    ensures PassedOver(cfg, events + [e], offset) <==>
      PassedOver(cfg, events, offset) || (IsCommit(e) && LeftBehind(cfg, events, offset))
  {
    hide LeftBehind;
    var all, n := events + [e], |events|;
    assert all[..n] == events && all[n] == e;
    forall q: nat | q < n ensures PassedAt(cfg, all, q, offset) <==> PassedAt(cfg, events, q, offset) {
      assert all[..q] == events[..q] && all[q] == events[q];
    }
    assert PassedAt(cfg, all, n, offset) <==> IsCommit(e) && LeftBehind(cfg, events, offset);
    if PassedOver(cfg, events, offset) {
      var q :| 0 <= q < n && PassedAt(cfg, events, q, offset);
      assert PassedAt(cfg, all, q, offset);
    }
  }

  /** What one step does to the history of abandoned and lost records. */
  lemma NextAbandons(cfg: Config, s: State, e: Event, offset: nat)
    requires Next(cfg, s, e).Some?
    ensures var s' := Next(cfg, s, e).value;
      && (offset in s'.lost <==> offset in s.lost || (IsCommit(e) && offset in s.abandoned))
      && (offset in s'.abandoned <==>
            Abandons(s, e, offset) || (offset in s.abandoned && !IsCommit(e) && e != ProcessRestarts))
  {
    hide Marked, Purged, Settled;
  }

  lemma {:induction false} LostIsPassedOver(cfg: Config, events: seq<Event>, offset: nat)
    requires Run(Steps(cfg), START, events).Some?
    ensures var s := Run(Steps(cfg), START, events).value;
      && (offset in s.lost <==> PassedOver(cfg, events, offset))
      && (offset in s.abandoned ==> LeftBehind(cfg, events, offset))
      && (LeftBehind(cfg, events, offset) ==> offset in s.abandoned + s.lost)
  {
    hide Next, LeftBehind, PassedOver, IsCommit, Abandons;
    if events == [] {
      NothingPassed(cfg, offset);
    } else {
      var init, last := events[..|events| - 1], events[|events| - 1];
      var s := Run(Steps(cfg), START, init).value;
      assert events == init + [last];
      LostIsPassedOver(cfg, init, offset);
      LeftBehindPush(cfg, init, last, offset);
      PassedOverPush(cfg, init, last, offset);
      NextAbandons(cfg, s, last, offset);
    }
  }

  lemma NothingPassed(cfg: Config, offset: nat)
    ensures !PassedOver(cfg, [], offset) && !LeftBehind(cfg, [], offset)
  {
  }

  // ---------- the theorems ----------

  /** After any run: a record below the committed offset has been handled, dead-lettered, or
      skipped as a duplicate of one that was, exactly when no commit went past it after its
      dead-letter publish had failed, in the same process. */
  lemma CommitPassesExactly(cfg: Config, events: seq<Event>, offset: nat)
    requires Run(Steps(cfg), START, events).Some?
    ensures var s := Run(Steps(cfg), START, events).value;
      && (offset < s.committed ==> (Settled(s, offset) <==> !PassedOver(cfg, events, offset)))
      && (offset in s.duplicates ==> IdentityOf(s, offset).Some? && KnownIdentity(s, IdentityOf(s, offset).value))
  {
    hide Run, PassedOver, Settled, IdentityOf, KnownIdentity;
    RunKeepsInv(cfg, events);
    LostIsPassedOver(cfg, events, offset);
  }

  /** No other record carries this text in any of its five fields. */
  ghost predicate OnlyCarrier(s: State, offset: nat, token: string) {
    forall o: nat :: o < |s.log| && o != offset && s.log[o].Some? ==> !Carries(s.log[o].value, token)
  }

  /** So a record below the committed offset whose envelope has an event id that no other
      record carries was handled or dead-lettered itself, unless a commit so passed it. */
  lemma OwnEventIsDealtWith(cfg: Config, events: seq<Event>, offset: nat)
    requires Run(Steps(cfg), START, events).Some? && !PassedOver(cfg, events, offset)
    requires var s := Run(Steps(cfg), START, events).value;
      && offset < s.committed && offset < |s.log| && s.log[offset].Some?
      && Strip(s.log[offset].value.envelopeEventId.GetOr("")) != ""
      && OnlyCarrier(s, offset, Strip(s.log[offset].value.envelopeEventId.GetOr("")))
    ensures var s := Run(Steps(cfg), START, events).value;
      offset in s.handled || offset in s.deadLettered
  {
    hide Run, PassedOver, Strip, Carries;
    var s := Run(Steps(cfg), START, events).value;
    CommitPassesExactly(cfg, events, offset);
    IdentityByField(s.log[offset].value);
    var token := IdentityOf(s, offset).value;
    if offset !in s.handled + s.deadLettered {
      var other :| other in s.handled + s.deadLettered && IdentityOf(s, other) == Some(token);
      IdentityIsCarried(s.log[other].value);
      assert false;
    }
  }

  /** As long as every dead-letter publish that is needed stores its copy, a commit never
      passes an unsettled record, whatever else fails. */
  lemma CommitIsSafe(cfg: Config, events: seq<Event>, offset: nat)
    requires Run(Steps(cfg), START, events).Some? && DeadLetterFails !in events
    ensures var s := Run(Steps(cfg), START, events).value; offset < s.committed ==> Settled(s, offset)
  {
    hide Run, Settled;
    CommitPassesExactly(cfg, events, offset);
    forall q: nat | q < |events| ensures !PassedAt(cfg, events, q, offset) {
      NothingLeftBehind(cfg, events[..q], offset);
    }
  }

  lemma NothingLeftBehind(cfg: Config, events: seq<Event>, offset: nat)
    requires DeadLetterFails !in events
    ensures !LeftBehind(cfg, events, offset)
  {
    hide Run, Settled;
  }

  /** The first record's handler and dead-letter publish fail. */
  lemma OneIsAbandoned(cfg: Config, s: State)
    requires s.phase == Handling(0, 0) && cfg.maxRetries == 0 && !Settled(s, 0)
    ensures Run(Steps(cfg), s, [HandlerRaises, DeadLetterFails]) == Some(s.(phase := Idle, calls := s.calls + 1, abandoned := s.abandoned + {0}))
  {
    hide Marked, Purged, Run;
    RunTwo(Steps(cfg), s, HandlerRaises, DeadLetterFails);
  }

  /** The second record's handler returns and the offset is committed. */
  lemma OneIsCommitted(cfg: Config, s: State)
    requires s.phase == Handling(1, 0) && s.clock <= 0 && IdentityOf(s, 1).None?
    ensures Run(Steps(cfg), s, [HandlerReturns(0, 0), Commit]) ==
      Some(CommittedAll(s.(handled := s.handled + {1}, calls := s.calls + 1)).(phase := Idle))
  {
    hide Marked, Purged, Run, Settled;
    RunTwo(Steps(cfg), s, HandlerReturns(0, 0), Commit);
  }

  /** Two records without a payload are written, and the first is read. */
  lemma OneIsRead(cfg: Config)
    ensures Run(Steps(cfg), START, [Append(None), Append(None), Fetch(0)]) ==
      Some(START.(log := [None, None], position := 1, phase := Handling(0, 0)))
  {
    hide Marked, Purged, Run, Settled;
    var s2 := START.(log := [None, None]);
    assert START.log + [None] + [None] == s2.log;
    RunTwo(Steps(cfg), START, Append(None), Append(None));
    RunSnoc(Steps(cfg), START, [Append(None), Append(None)], Fetch(0));
    assert [Append(None), Append(None)] + [Fetch(0)] == [Append(None), Append(None), Fetch(0)];
  }

  /** The hypothesis is needed: one failed dead-letter publish and the next record's commit
      leave a record that nobody has dealt with below the committed offset. */
  lemma CommitCanLose(cache: MessageCache.Config)
    ensures var events := [Append(None), Append(None), Fetch(0)] + [HandlerRaises, DeadLetterFails]
                          + [Fetch(0)] + [HandlerReturns(0, 0), Commit];
      var r := Run(Steps(Config.Config(cache, 0)), START, events);
      r.Some? && 0 < r.value.committed && !Settled(r.value, 0)
  {
    hide Marked, Purged, Run;
    var cfg := Config.Config(cache, 0);
    var read := [Append(None), Append(None), Fetch(0)];
    OneIsRead(cfg);
    var s3 := Run(Steps(cfg), START, read).value;
    OneIsAbandoned(cfg, s3);
    RunConcat(Steps(cfg), START, read, [HandlerRaises, DeadLetterFails]);
    RunSnoc(Steps(cfg), START, read + [HandlerRaises, DeadLetterFails], Fetch(0));
    var s6 := Next(cfg, s3.(phase := Idle, calls := s3.calls + 1, abandoned := s3.abandoned + {0}), Fetch(0)).value;
    OneIsCommitted(cfg, s6);
    RunConcat(Steps(cfg), START, read + [HandlerRaises, DeadLetterFails] + [Fetch(0)], [HandlerReturns(0, 0), Commit]);
  }

  // ---------- no record is handled twice too soon ----------

  ghost predicate FilterInv(cfg: Config, s: State) {
    && Refines(cfg.cache, s.entries, s.marks, s.clock)
    && Separated(cfg.cache, s.marks)
    && (s.phase.Handling? ==> s.calls == s.phase.attempts <= cfg.maxRetries)
    && s.calls <= cfg.maxRetries + 1
    && (s.phase.Handling? || s.phase.Failing? ==>
          && s.phase.offset < |s.log|
          && (IdentityOf(s, s.phase.offset).Some? ==>
                !Remembered(cfg.cache, s.marks, IdentityOf(s, s.phase.offset).value, s.clock)))
  }

  lemma FetchKeepsFilterInv(cfg: Config, s: State, now: int)
    requires FilterInv(cfg, s) && s.position < |s.log| && s.clock <= now
    ensures FilterInv(cfg, Fetched(cfg, s, now))
  {
    hide Refines, Separated, Remembered, Purged;
    if IdentityOf(s, s.position).Some? {
      PurgeKeeps(cfg.cache, s.entries, s.marks, s.clock, now);
      PurgedHoldsExactly(cfg.cache, s.entries, s.marks, s.clock, now, IdentityOf(s, s.position).value);
    }
  }

  lemma MarkingKeepsFilter(cfg: Config, s: State, offset: nat, purgeAt: int, stampAt: int)
    requires Refines(cfg.cache, s.entries, s.marks, s.clock) && Separated(cfg.cache, s.marks)
    requires s.clock <= purgeAt <= stampAt
    requires IdentityOf(s, offset).Some? ==> !Remembered(cfg.cache, s.marks, IdentityOf(s, offset).value, s.clock)
    ensures var s' := MarkedIn(cfg, s, offset, purgeAt, stampAt);
      Refines(cfg.cache, s'.entries, s'.marks, s'.clock) && Separated(cfg.cache, s'.marks)
  {
    hide Refines, Separated, Remembered, Marked;
    if IdentityOf(s, offset).Some? {
      var token := IdentityOf(s, offset).value;
      MarkKeeps(cfg.cache, s.entries, s.marks, s.clock, token, purgeAt, stampAt);
      MarkKeepsSeparated(cfg.cache, s.marks, token, s.clock, stampAt);
    }
  }

  lemma NextKeepsFilterInv(cfg: Config, s: State, e: Event)
    requires FilterInv(cfg, s) && Next(cfg, s, e).Some?
    ensures FilterInv(cfg, Next(cfg, s, e).value)
  {
    hide Refines, Separated, Remembered, Marked, Purged, Fetched, Settled;
    match e {
      case HandlerReturns(purgeAt, stampAt) => MarkingKeepsFilter(cfg, s, s.phase.offset, purgeAt, stampAt);
      case DeadLetter(purgeAt, stampAt) => MarkingKeepsFilter(cfg, s, s.phase.offset, purgeAt, stampAt);
      case Fetch(now) => FetchKeepsFilterInv(cfg, s, now);
      case ProcessRestarts => NothingMarked(cfg.cache, s.clock);
      case _ =>
    }
  }

  lemma {:induction false} RunKeepsFilterInv(cfg: Config, events: seq<Event>)
    requires Run(Steps(cfg), START, events).Some?
    ensures FilterInv(cfg, Run(Steps(cfg), START, events).value)
  {
    hide FilterInv, Next;
    if events == [] {
      StartHasFilterInv(cfg);
    } else {
      var init, last := events[..|events| - 1], events[|events| - 1];
      RunKeepsFilterInv(cfg, init);
      NextKeepsFilterInv(cfg, Run(Steps(cfg), START, init).value, last);
    }
  }

  lemma StartHasFilterInv(cfg: Config)
    ensures FilterInv(cfg, START)
  {
    NothingMarked(cfg.cache, 0);
  }

  /** The mark that an event makes in a state, if any. */
  function MarkOf(s: State, e: Event): seq<Entry> {
    if (e.HandlerReturns? && s.phase.Handling?) || (e.DeadLetter? && s.phase.Failing?)
    then match IdentityOf(s, s.phase.offset)
      case None => []
      case Some(token) => [Entry(token, e.stampAt)]
    else []
  }

  /** The marks that a run makes. */
  function MarksIn(cfg: Config, s: State, events: seq<Event>): seq<Entry> {
    Collected(Steps(cfg), MarkOf, s, events)
  }

  lemma NextMarks(cfg: Config, s: State, e: Event)
    requires Next(cfg, s, e).Some? && e != ProcessRestarts
    ensures Next(cfg, s, e).value.marks == s.marks + MarkOf(s, e)
  {
    hide Marked, Purged, Settled;
  }

  lemma RunMarks(cfg: Config, s: State, events: seq<Event>)
    requires Run(Steps(cfg), s, events).Some? && ProcessRestarts !in events
    ensures Run(Steps(cfg), s, events).value.marks == s.marks + MarksIn(cfg, s, events)
  {
    hide Next, MarkOf, Run, Collected;
    forall x: State, e: Event | Steps(cfg)(x, e).Some? && e != ProcessRestarts
      ensures Steps(cfg)(x, e).value.marks == x.marks + MarkOf(x, e)
    {
      NextMarks(cfg, x, e);
    }
    RunCollects(Steps(cfg), MarkOf, (x: State) => x.marks, (e: Event) => e != ProcessRestarts, s, events);
  }

  /** The handler has returned for the record in hand, which has this identity. */
  predicate Handles(s: State, e: Event, token: string) {
    e.HandlerReturns? && s.phase.Handling? && IdentityOf(s, s.phase.offset) == Some(token)
  }

  /** The state that a run from the start has reached; the start itself for what is no run. */
  function StateAfter(cfg: Config, events: seq<Event>): State {
    Run(Steps(cfg), START, events).GetOr(START)
  }

  /** In one process, two runs of the handler that return for one identity are more than the
      time-to-live apart, or at least `maxEntries` other identities were handled or
      dead-lettered between them. */
  lemma NoEarlyDuplicate(cfg: Config, before: seq<Event>, first: Event, between: seq<Event>, second: Event, token: string)
    requires Run(Steps(cfg), START, before + [first] + between + [second]).Some? && ProcessRestarts !in between
    requires Handles(StateAfter(cfg, before), first, token)
    requires Handles(StateAfter(cfg, before + [first] + between), second, token)
    ensures var start := StateAfter(cfg, before + [first]);
      || first.stampAt < second.stampAt - cfg.cache.ttl
      || |OtherTokens(MarksIn(cfg, start, between), token)| >= cfg.cache.maxEntries
  {
    hide Next, OtherTokens, FilterInv, Run, MarksIn, IdentityOf;
    var steps := Steps(cfg);
    var upTo, all := before + [first] + between, before + [first] + between + [second];
    RunPrefix(steps, START, upTo, [second]);
    RunPrefix(steps, START, before + [first], between);
    RunPrefix(steps, START, before, [first]);
    var s, s1 := StateAfter(cfg, before), StateAfter(cfg, before + [first]);
    var s2, s3 := StateAfter(cfg, upTo), StateAfter(cfg, all);
    RunSnoc(steps, START, before, first);
    RunSnoc(steps, START, upTo, second);
    NextMarks(cfg, s, first);
    RunMarks(cfg, s1, between);
    NextMarks(cfg, s2, second);
    RunKeepsFilterInv(cfg, all);
    var i, j := |s.marks|, |s2.marks|;
    assert s3.marks == s.marks + [Entry(token, first.stampAt)] + MarksIn(cfg, s1, between) + [Entry(token, second.stampAt)];
    assert s3.marks[i + 1..j] == MarksIn(cfg, s1, between);
    FilterInvHasMarks(cfg, s3);
    MarksAreSeparated(cfg.cache, s3.marks, s3.clock, i, j);
  }

  lemma FilterInvHasMarks(cfg: Config, s: State)
    requires FilterInv(cfg, s)
    ensures Chronological(s.marks, s.clock) && Separated(cfg.cache, s.marks) && s.calls <= cfg.maxRetries + 1
  {
  }

  predicate IsCall(e: Event) {
    e.HandlerReturns? || e == HandlerRaises
  }

  /** Handler calls among the events. */
  function CallsIn(events: seq<Event>): nat {
    Count(events, IsCall)
  }

  lemma NextCounts(cfg: Config, s: State, e: Event)
    requires Next(cfg, s, e).Some? && !e.Fetch?
    ensures Next(cfg, s, e).value.calls == s.calls + if IsCall(e) then 1 else 0
  {
    hide Marked, Purged, Settled;
  }

  lemma RunCalls(cfg: Config, s: State, events: seq<Event>)
    requires Run(Steps(cfg), s, events).Some? && forall e :: e in events ==> !e.Fetch?
    ensures Run(Steps(cfg), s, events).value.calls == s.calls + CallsIn(events)
  {
    hide Next, IsCall, Run, Count;
    forall x: State, e: Event | Steps(cfg)(x, e).Some? && !e.Fetch?
      ensures Steps(cfg)(x, e).value.calls == x.calls + if IsCall(e) then 1 else 0
    {
      NextCounts(cfg, x, e);
    }
    RunCounts(Steps(cfg), IsCall, (x: State) => x.calls, (e: Event) => !e.Fetch?, s, events);
  }

  /** No record calls the handler more than `maxRetries + 1` times each time it is read. */
  lemma HandlerCallsAreBounded(cfg: Config, before: seq<Event>, fetch: Event, since: seq<Event>)
    requires Run(Steps(cfg), START, before + [fetch] + since).Some?
    requires fetch.Fetch? && forall e :: e in since ==> !e.Fetch?
    ensures CallsIn(since) <= cfg.maxRetries + 1
  {
    hide FilterInv, Run, CallsIn;
    var steps, all := Steps(cfg), before + [fetch] + since;
    RunPrefix(steps, START, before + [fetch], since);
    RunCalls(cfg, StateAfter(cfg, before + [fetch]), since);
    RunKeepsFilterInv(cfg, all);
    FilterInvHasMarks(cfg, StateAfter(cfg, all));
  }

  // ---------- the loop body as the program runs it ----------

  datatype DeadLetterResult = Stored | StoredUnconfirmed | NotStored

  /** Whether the broker stores the offset, and whether the call returns. */
  datatype CommitResult = Committed | CommittedUnconfirmed | NotCommitted

  datatype Surroundings = Surroundings(
    fetchedAt: int,
    handlerReturns: seq<bool>,
    purgeAt: int,
    stampAt: int,
    deadLetter: DeadLetterResult,
    commits: CommitResult)

  class Consumer {
    const maxRetries: nat
    const processedCache: ProcessedMessageCache
    ghost const origin: State
    ghost var trace: seq<Event>
    ghost var world: State

    ghost predicate Valid()
      reads this, processedCache
    {
      && processedCache.Valid()
      && world.entries == processedCache.entries
      && world.marks == processedCache.history
      && world.clock == processedCache.clock
      && Run(Steps(Cfg()), origin, trace) == Some(world)
    }

    ghost function Cfg(): Config {
      Config.Config(processedCache.cfg, maxRetries)
    }

    constructor (maxRetriesSetting: int, ghost origin: State)
      requires origin.phase.Idle? && origin.entries == [] && origin.marks == []
      ensures Valid() && fresh(processedCache) && world == this.origin == origin
      ensures maxRetries == if maxRetriesSetting > 0 then maxRetriesSetting else 0
    {
      maxRetries := if maxRetriesSetting > 0 then maxRetriesSetting else 0;
      processedCache := new ProcessedMessageCache(3600, 10000, origin.clock);
      this.origin, trace, world := origin, [], origin;
    }

    ghost method Step(e: Event)
      requires Run(Steps(Cfg()), origin, trace) == Some(world) && Next(Cfg(), world, e).Some?
      modifies this
      ensures world == Next(Cfg(), old(world), e).value
      ensures trace == old(trace) + [e] && Run(Steps(Cfg()), origin, trace) == Some(world)
    {
      hide Run, Next;
      RunSnoc(Steps(Cfg()), origin, trace, e);
      world := Next(Cfg(), world, e).value;
      trace := trace + [e];
    }

    ghost predicate IsDuplicate(offset: nat, now: int)
      reads this, processedCache
    {
      IdentityOf(world, offset).Some? &&
      Remembered(processedCache.cfg, world.marks, IdentityOf(world, offset).value, now)
    }

    /** What is not among the marks is no duplicate, and a record with an event id in its
        envelope is looked up by that id alone. */
    lemma NewEventIsNoDuplicate(offset: nat, now: int)
      requires offset < |world.log| && world.log[offset].Some?
      requires Strip(world.log[offset].value.envelopeEventId.GetOr("")) != ""
      requires forall m :: m in world.marks ==> m.token != Strip(world.log[offset].value.envelopeEventId.GetOr(""))
      ensures !IsDuplicate(offset, now)
    {
      hide Strip;
      IdentityByField(world.log[offset].value);
      NeverMarked(world.marks, Strip(world.log[offset].value.envelopeEventId.GetOr("")));
    }

    /** Reads the next record and says whether the handler is to be called. */
    method Receive(record: Option<Payload>, now: int) returns (identity: Option<string>, wanted: bool)
      requires Valid() && world.phase.Idle? && world.position < |world.log| && world.log[world.position] == record
      requires world.clock <= now
      modifies this, processedCache
      ensures Valid() && old(trace) < trace
      ensures wanted <==> !old(IsDuplicate(world.position, now))
      ensures world.phase == if wanted then Handling(old(world).position, 0) else Committing(old(world).position)
      ensures world.position == old(world).position + 1
      ensures world.clock <= now && identity == IdentityOf(world, old(world).position)
      ensures world.handled == old(world).handled && world.committed == old(world).committed
      ensures world.deadLettered == old(world).deadLettered
    {
      hide Strip, Run, Marked, LastMark, Carries;
      identity := None;
      if record.Some? {
        identity := ExtractMessageIdentity(record.value);
        if identity.Some? {
          IdentityIsToken(record.value);
          PurgedHoldsExactly(processedCache.cfg, world.entries, world.marks, world.clock, now, identity.value);
        }
      }
      var duplicate := processedCache.Contains(identity, now);
      wanted := !duplicate;
      Step(Fetch(now));
    }

    method MarkProcessed(identity: Option<string>, e: Event)
      requires Valid()
      requires e.HandlerReturns? || e.DeadLetter?
      requires if e.HandlerReturns? then world.phase.Handling? else world.phase.Failing?
      requires identity == IdentityOf(world, world.phase.offset)
      requires world.clock <= e.purgeAt <= e.stampAt
      modifies this, processedCache
      ensures Valid() && trace == old(trace) + [e] && world == Next(Cfg(), old(world), e).value
    {
      if identity.Some? {
        IdentityIsToken(world.log[world.phase.offset].value);
      }
      processedCache.Mark(identity, e.purgeAt, e.stampAt);
      Step(e);
    }

    /** Calls the handler until it returns; raises (returns false) after `maxRetries + 1` failures. */
    method Handle(identity: Option<string>, returns_: seq<bool>, purgeAt: int, stampAt: int) returns (calls: nat, success: bool)
      requires Valid() && world.phase.Handling? && world.phase.attempts == 0
      requires identity == IdentityOf(world, world.phase.offset)
      requires world.clock <= purgeAt <= stampAt && |returns_| == maxRetries + 1
      modifies this, processedCache
      ensures Valid() && old(trace) < trace
      ensures 0 < calls <= maxRetries + 1
      ensures forall k :: 0 <= k < calls - 1 ==> !returns_[k]
      ensures success == returns_[calls - 1] && (!success ==> calls == maxRetries + 1)
      ensures var offset := old(world).phase.offset;
        && world.phase == (if success then Committing(offset) else Failing(offset))
        && world.handled == old(world).handled + (if success then {offset} else {})
        && world.log == old(world).log && world.position == old(world).position
        && world.committed == old(world).committed && world.deadLettered == old(world).deadLettered
        && (!success ==> world.clock == old(world).clock)
    {
      hide Run, Marked, Purged, Refines;
      var attempts := 0;
      calls, success := 0, false;
      ghost var offset := world.phase.offset;
      while attempts <= maxRetries
        invariant Valid() && old(trace) <= trace
        invariant calls == attempts <= maxRetries && !success
        invariant world == old(world).(phase := Handling(offset, attempts), calls := world.calls)
        invariant forall k :: 0 <= k < calls ==> !returns_[k]
      {
        calls := calls + 1;
        if returns_[attempts] {
          success := true;
          MarkProcessed(identity, HandlerReturns(purgeAt, stampAt));
          break;
        }
        attempts := attempts + 1;
        Step(HandlerRaises);
        if attempts > maxRetries {
          break;
        }
      }
    }

    method GiveUp(identity: Option<string>, result: DeadLetterResult, purgeAt: int, stampAt: int) returns (shouldCommit: bool)
      requires Valid() && world.phase.Failing? && identity == IdentityOf(world, world.phase.offset)
      requires world.clock <= purgeAt <= stampAt
      modifies this, processedCache
      ensures Valid() && old(trace) < trace && shouldCommit == result.Stored?
      ensures world.phase == if shouldCommit then Committing(old(world).phase.offset) else Idle
      ensures world.position == old(world).position && world.committed == old(world).committed
      ensures world.handled == old(world).handled
      ensures world.deadLettered == old(world).deadLettered + if result.NotStored? then {} else {old(world).phase.offset}
    {
      hide Run, Marked, Purged, Refines;
      shouldCommit := result.Stored?;
      if shouldCommit {
        MarkProcessed(identity, DeadLetter(purgeAt, stampAt));
      } else {
        Step(if result.StoredUnconfirmed? then DeadLetterUnconfirmed else DeadLetterFails);
      }
    }

    /** One pass of the loop: the next record is handled, dead-lettered or recognised as a
        duplicate and everything read is committed, or nothing is; the position moves on
        either way. */
    method ConsumeRecord(record: Option<Payload>, around: Surroundings) returns (calls: nat, shouldCommit: bool)
      requires Valid() && world.phase.Idle? && world.position < |world.log| && world.log[world.position] == record
      requires world.clock <= around.fetchedAt <= around.purgeAt <= around.stampAt
      requires |around.handlerReturns| == maxRetries + 1
      modifies this, processedCache
      ensures Valid() && old(trace) < trace && world.position == old(world).position + 1
      ensures calls <= maxRetries + 1 && forall k :: 0 <= k < calls - 1 ==> !around.handlerReturns[k]
      ensures 0 < calls <= maxRetries ==> around.handlerReturns[calls - 1]
      ensures calls == 0 <==> old(IsDuplicate(world.position, around.fetchedAt))
      ensures
        (record.Some? && Strip(record.value.envelopeEventId.GetOr("")) != "" &&
         forall m :: m in old(world).marks ==> m.token != Strip(record.value.envelopeEventId.GetOr("")))
        ==> calls > 0
      ensures shouldCommit <==> calls == 0 || around.handlerReturns[calls - 1] || around.deadLetter.Stored?
      ensures world.committed == if shouldCommit && !around.commits.NotCommitted? then world.position else old(world).committed
      ensures world.phase == if shouldCommit && !around.commits.Committed? then Stopped else Idle
      ensures world.handled == old(world).handled +
        if calls > 0 && around.handlerReturns[calls - 1] then {old(world).position} else {}
      ensures world.deadLettered == old(world).deadLettered +
        if calls > 0 && !around.handlerReturns[calls - 1] && !around.deadLetter.NotStored? then {old(world).position} else {}
    {
      hide Run, Marked, Purged, Remembered, Refines, Strip;
      if record.Some? && Strip(record.value.envelopeEventId.GetOr("")) != "" &&
        (forall m :: m in world.marks ==> m.token != Strip(record.value.envelopeEventId.GetOr("")))
      {
        NewEventIsNoDuplicate(world.position, around.fetchedAt);
      }
      calls, shouldCommit := 0, true;
      var identity, wanted := Receive(record, around.fetchedAt);
      if wanted {
        var success;
        calls, success := Handle(identity, around.handlerReturns, around.purgeAt, around.stampAt);
        if !success {
          shouldCommit := GiveUp(identity, around.deadLetter, around.purgeAt, around.stampAt);
        }
      }
      if shouldCommit {
        Step(match around.commits
          case Committed => Commit case CommittedUnconfirmed => CommitUnconfirmed case NotCommitted => CommitFails);
      }
    }
  }
}
