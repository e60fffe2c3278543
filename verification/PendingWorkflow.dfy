/** A workflow that waits for a person: saved once, continued by any number of calls. The
    stored row remembers the first outcome and later calls return it. */
module PendingWorkflow {
  import opened Wrappers
  import opened Text

  type Id = nat

  /** The saved payload; an empty one is stored as `None`. */
  datatype Payload = Payload(flowId: string, recommendationId: string, details: string)

  datatype Status = Waiting | Completed

  datatype Decision = Approve | Reject | Modify

  /** The payload a finished workflow leaves. */
  datatype Final = Final(decision: Decision, executed: bool, details: string)

  datatype Record = Record(flowId: string, status: Status, payload: Option<Payload>, completed: Option<Final>)

  type Table = map<Id, Record>

  // ---------- the repository ----------

  function Saved(table: Table, incident: Id, flowId: string, payload: Option<Payload>): Table {
    table[incident := Record(flowId, Waiting, payload, None)]
  }

  function MarkedCompleted(table: Table, incident: Id, final: Final): Table {
    if incident in table
    then table[incident := table[incident].(status := Completed, completed := Some(final))]
    else table
  }

  // ---------- one call ----------

  /** How far a call gets before something raises, if anything does. */
  datatype Progress = RaisesBeforeExecuting | RaisesAfterExecuting | RunsToCompletion

  datatype Request = Request(flowId: string, recommendationId: string, token: string, details: string, progress: Progress)

  function ParseDecision(token: string): Option<Decision> {
    var t := Lower(Strip(token));
    if t == "approve" || t == "approved" then Some(Approve)
    else if t == "reject" || t == "rejected" then Some(Reject)
    else if t == "modify" || t == "modified" then Some(Modify)
    else None
  }

  datatype Reply = NotFound | BadRequest | Raised | Returned(final: Final)

  /** What a call answers without acting, if it does not act. */
  function Immediate(table: Table, incident: Id, r: Request): Option<Reply> {
    if incident in table && table[incident].status == Completed && table[incident].completed.Some?
    then Some(Returned(table[incident].completed.value))
    else if incident !in table || table[incident].payload.None? then Some(NotFound)
    else
      var pending := table[incident].payload.value;
      if pending.flowId != r.flowId || pending.recommendationId != r.recommendationId || ParseDecision(r.token).None?
      then Some(BadRequest)
      else None
  }

  /** A call that acts runs the remediation, unless the decision is a rejection. */
  function Executes(r: Request): bool {
    && ParseDecision(r.token).Some? && ParseDecision(r.token).value != Reject
    && r.progress != RaisesBeforeExecuting
  }

  function Outcome(r: Request): Final
    requires ParseDecision(r.token).Some?
  {
    var d := ParseDecision(r.token).value;
    Final(d, d != Reject, r.details)
  }

  // ---------- any sequence of saves and calls ----------

  /** Since the last save: remediations run, and calls that ran one and then raised. */
  datatype Tally = Tally(executed: nat, interrupted: nat)

  datatype State = State(table: Table, tallies: map<Id, Tally>)

  datatype Step =
    | Save(incident: Id, flowId: string, payload: Option<Payload>)
    | Continue(incident: Id, request: Request)

  const START := State(map[], map[])

  function TallyOf(s: State, incident: Id): Tally {
    if incident in s.tallies then s.tallies[incident] else Tally(0, 0)
  }

  function Next(s: State, step: Step): State {
    match step
    case Save(i, flowId, payload) =>
      State(Saved(s.table, i, flowId, payload), s.tallies[i := Tally(0, 0)])
    case Continue(i, r) =>
      if Immediate(s.table, i, r).Some? then s
      else
        var t := TallyOf(s, i);
        var t' := Tally(t.executed + (if Executes(r) then 1 else 0),
                        t.interrupted + (if Executes(r) && r.progress == RaisesAfterExecuting then 1 else 0));
        State(if r.progress == RunsToCompletion && ParseDecision(r.token).Some?
              then MarkedCompleted(s.table, i, Outcome(r)) else s.table,
              s.tallies[i := t'])
  }

  function ReplyTo(s: State, incident: Id, r: Request): Reply {
    var immediate := Immediate(s.table, incident, r);
    if immediate.Some? then immediate.value
    else if r.progress == RunsToCompletion && ParseDecision(r.token).Some? then Returned(Outcome(r))
    else Raised
  }

  function Run(s: State, steps: seq<Step>): State {
    if steps == [] then s else Next(Run(s, steps[..|steps| - 1]), steps[|steps| - 1])
  }

  ghost predicate Finished(table: Table, incident: Id) {
    incident in table && table[incident].status == Completed && table[incident].completed.Some?
  }

  /** Every remediation run since the last save was interrupted, but for the one of the
      call that finished the workflow. */
  ghost predicate AccountedFor(s: State, i: Id) {
    && (i in s.table && s.table[i].status == Completed ==> s.table[i].completed.Some?)
    && TallyOf(s, i).executed ==
         TallyOf(s, i).interrupted + (if Finished(s.table, i) && s.table[i].completed.value.executed then 1 else 0)
  }

  lemma NextKeepsAccounted(s: State, step: Step, i: Id)
    requires AccountedFor(s, i)
    ensures AccountedFor(Next(s, step), i)
  {
  }

  lemma {:induction false} RunKeepsAccounted(s: State, steps: seq<Step>, i: Id)
    requires AccountedFor(s, i)
    ensures AccountedFor(Run(s, steps), i)
  {
    hide Next, AccountedFor;
    if steps != [] {
      RunKeepsAccounted(s, steps[..|steps| - 1], i);
      NextKeepsAccounted(Run(s, steps[..|steps| - 1]), steps[|steps| - 1], i);
    }
  }

  /** After any saves and calls, the number of remediations run since the incident's last
      save is the number of calls that raised after running one, plus one exactly when the
      workflow has finished by running one. */
  lemma ExecutionsAreAccounted(steps: seq<Step>, incident: Id)
    ensures var s := Run(START, steps);
      TallyOf(s, incident).executed ==
        TallyOf(s, incident).interrupted +
        (if Finished(s.table, incident) && s.table[incident].completed.value.executed then 1 else 0)
  {
    RunKeepsAccounted(START, steps, incident);
  }

  /** No call for the incident since its last save raised after running the remediation. */
  ghost predicate Uninterrupted(steps: seq<Step>, incident: Id) {
    forall k :: 0 <= k < |steps| && !SavedSince(steps[k + 1..], incident) ==> !Interrupts(steps[k], incident)
  }

  predicate Interrupts(step: Step, incident: Id) {
    step.Continue? && step.incident == incident && step.request.progress == RaisesAfterExecuting
  }

  predicate SavedSince(steps: seq<Step>, incident: Id) {
    exists k :: 0 <= k < |steps| && steps[k].Save? && steps[k].incident == incident
  }

  lemma SavedPush(steps: seq<Step>, step: Step, incident: Id)
    ensures SavedSince(steps + [step], incident) <==> SavedSince(steps, incident) || (step.Save? && step.incident == incident)
  {
    var all := steps + [step];
    assert all[|steps|] == step && forall k :: 0 <= k < |steps| ==> all[k] == steps[k];
  }

  lemma UninterruptedInit(steps: seq<Step>, step: Step, incident: Id)
    requires Uninterrupted(steps + [step], incident) && !(step.Save? && step.incident == incident)
    ensures Uninterrupted(steps, incident) && !Interrupts(step, incident)
  {
    hide Interrupts;
    var all, n := steps + [step], |steps|;
    assert all[n] == step && all[n + 1..] == [];
    assert !SavedSince(all[n + 1..], incident);
    forall k | 0 <= k < n && !SavedSince(steps[k + 1..], incident) ensures !Interrupts(steps[k], incident) {
      SavedPush(steps[k + 1..], step, incident);
      assert all[k + 1..] == steps[k + 1..] + [step] && all[k] == steps[k];
    }
  }

  lemma NextInterrupts(s: State, step: Step, incident: Id)
    ensures var before, after := TallyOf(s, incident).interrupted, TallyOf(Next(s, step), incident).interrupted;
      && (step.Save? && step.incident == incident ==> after == 0)
      && (!(step.Save? && step.incident == incident) && !Interrupts(step, incident) ==> after == before)
  {
  }

  lemma {:induction false} NothingInterrupted(steps: seq<Step>, incident: Id)
    requires Uninterrupted(steps, incident)
    ensures TallyOf(Run(START, steps), incident).interrupted == 0
  {
    hide Next, Uninterrupted, Interrupts;
    if steps != [] {
      var init, last := steps[..|steps| - 1], steps[|steps| - 1];
      assert steps == init + [last];
      NextInterrupts(Run(START, init), last, incident);
      if !(last.Save? && last.incident == incident) {
        UninterruptedInit(init, last, incident);
        NothingInterrupted(init, incident);
      }
    }
  }

  /** When no call for the incident since its last save raised after running the
      remediation, at most one has been run since, whatever the calls decided and whatever
      happened to other incidents or before. */
  lemma AtMostOneExecution(steps: seq<Step>, incident: Id)
    requires Uninterrupted(steps, incident)
    ensures TallyOf(Run(START, steps), incident).executed <= 1
  {
    NothingInterrupted(steps, incident);
    ExecutionsAreAccounted(steps, incident);
  }

  lemma RunThree(a: Step, b: Step, c: Step)
    ensures Run(START, [a, b, c]) == Next(Next(Next(START, a), b), c)
  {
    hide Next;
    assert [a, b, c][..2] == [a, b] && [a, b][..1] == [a] && [a][..0] == [];
    assert Run(START, [a]) == Next(START, a);
    assert Run(START, [a, b]) == Next(Next(START, a), b);
  }

  lemma InterruptedTwice(s: State, incident: Id, r: Request, again: Request)
    requires Immediate(s.table, incident, r).None? && Immediate(s.table, incident, again).None?
    requires Executes(r) && r.progress == RaisesAfterExecuting && Executes(again)
    ensures TallyOf(Next(Next(s, Continue(incident, r)), Continue(incident, again)), incident).executed == TallyOf(s, incident).executed + 2
  {
  }

  /** The hypothesis is needed: a call that raises after running the remediation leaves the
      workflow waiting, and the next call runs it again. */
  lemma InterruptedRunsAgain(i: Id, p: Payload, token: string)
    requires Lower(Strip(token)) == "approve"
    ensures var r := Request(p.flowId, p.recommendationId, token, "", RaisesAfterExecuting);
      var steps := [Save(i, p.flowId, Some(p)), Continue(i, r), Continue(i, r.(progress := RunsToCompletion))];
      TallyOf(Run(START, steps), i).executed == 2
  {
    var r := Request(p.flowId, p.recommendationId, token, "", RaisesAfterExecuting);
    var save := Save(i, p.flowId, Some(p));
    var again := r.(progress := RunsToCompletion);
    RunThree(save, Continue(i, r), Continue(i, again));
    InterruptedTwice(Next(START, save), i, r, again);
  }

  /** Once finished, and until saved again, the row stays as it is and every call, whatever
      it asks for, returns the stored payload and runs nothing. */
  lemma {:induction false} FinishedStays(s: State, steps: seq<Step>, incident: Id)
    requires Finished(s.table, incident)
    requires forall i :: 0 <= i < |steps| && steps[i].Save? ==> steps[i].incident != incident
    ensures var s' := Run(s, steps);
      && Finished(s'.table, incident) && s'.table[incident] == s.table[incident]
      && TallyOf(s', incident) == TallyOf(s, incident)
      && forall r :: ReplyTo(s', incident, r) == Returned(s.table[incident].completed.value)
  {
    if steps != [] {
      var init := steps[..|steps| - 1];
      assert forall i :: 0 <= i < |init| ==> init[i] == steps[i];
      FinishedStays(s, init, incident);
    }
  }

  /** The workflow waits, and the call names its flow and its recommendation. */
  ghost predicate Awaits(table: Table, incident: Id, r: Request) {
    && incident in table && table[incident].payload.Some? && !Finished(table, incident)
    && table[incident].payload.value.flowId == r.flowId
    && table[incident].payload.value.recommendationId == r.recommendationId
  }

  /** What such a call answers and runs, by the text of its token alone. */
  ghost predicate AnswersByToken(r: Request, reply: Reply, before: Tally, after: Tally) {
    var token, completes := Lower(Strip(r.token)), r.progress == RunsToCompletion;
    var runs := if r.progress == RaisesBeforeExecuting then 0 else 1;
    && (token in {"reject", "rejected"} ==>
          && after == before
          && reply == if completes then Returned(Final(Reject, false, r.details)) else Raised)
    && (token in {"approve", "approved"} ==>
          && after.executed == before.executed + runs
          && reply == if completes then Returned(Final(Approve, true, r.details)) else Raised)
    && (token in {"modify", "modified"} ==>
          && after.executed == before.executed + runs
          && reply == if completes then Returned(Final(Modify, true, r.details)) else Raised)
    && (token !in {"reject", "rejected", "approve", "approved", "modify", "modified"} ==>
          after == before && reply == BadRequest)
  }

  lemma TokensDiffer(token: string)
    ensures token in {"reject", "rejected"} ==> token !in {"approve", "approved", "modify", "modified"}
    ensures token in {"approve", "approved"} ==> token !in {"modify", "modified"}
  {
    assert "reject"[0] == 'r' && "rejected"[0] == 'r' && "approve"[0] == 'a' && "approved"[0] == 'a';
    assert "modify"[0] == 'm' && "modified"[0] == 'm';
  }

  /** A call to a waiting workflow does what its token says: a rejection never runs the
      remediation, an approval or modification runs it unless something raises before, and
      any other token is a bad request that changes nothing. */
  lemma TokenDecides(s: State, incident: Id, r: Request)
    requires Awaits(s.table, incident, r)
    ensures var s' := Next(s, Continue(incident, r));
      && AnswersByToken(r, ReplyTo(s, incident, r), TallyOf(s, incident), TallyOf(s', incident))
      && (ReplyTo(s, incident, r) == BadRequest ==> s' == s)
      && (!ReplyTo(s, incident, r).Returned? ==> s'.table == s.table)
  {
    hide Strip, Lower;
    TokensDiffer(Lower(Strip(r.token)));
  }

  /** A call that answers with a payload has left the workflow finished with that payload;
      if it found the workflow waiting, the payload is what its token says. */
  lemma ReturnedIsStored(s: State, incident: Id, r: Request)
    requires ReplyTo(s, incident, r).Returned?
    ensures var s' := Next(s, Continue(incident, r));
      && Finished(s'.table, incident)
      && ReplyTo(s, incident, r) == Returned(s'.table[incident].completed.value)
    ensures
      !Finished(s.table, incident) ==>
        var s', token := Next(s, Continue(incident, r)), Lower(Strip(r.token));
        && Awaits(s.table, incident, r)
        && s'.table[incident].completed.value.details == r.details
        && s'.table[incident].completed.value.executed == (token !in {"reject", "rejected"})
        && TallyOf(s', incident).executed == TallyOf(s, incident).executed + (if token in {"reject", "rejected"} then 0 else 1)
        && (s'.table[incident].completed.value.decision == Reject <==> token in {"reject", "rejected"})
        && (s'.table[incident].completed.value.decision == Approve <==> token in {"approve", "approved"})
        && (s'.table[incident].completed.value.decision == Modify <==> token in {"modify", "modified"})
  {
    hide Strip, Lower;
    TokensDiffer(Lower(Strip(r.token)));
    if !Finished(s.table, incident) {
      TokenDecides(s, incident, r);
    }
  }

  // ---------- the class ----------

  class WorkflowService {
    var table: Table
    ghost var tallies: map<Id, Tally>

    ghost function World(): State
      reads this
    {
      State(table, tallies)
    }

    constructor ()
      ensures World() == START
    {
      table, tallies := map[], map[];
    }

    method SavePendingWorkflow(incident: Id, flowId: string, payload: Option<Payload>)
      modifies this
      ensures World() == Next(old(World()), Save(incident, flowId, payload))
    {
      table := table[incident := Record(flowId, Waiting, payload, None)];
      tallies := tallies[incident := Tally(0, 0)];
    }

    method MarkCompleted(incident: Id, final: Final)
      modifies this`table
      ensures table == MarkedCompleted(old(table), incident, final)
    {
      if incident !in table {
        return;
      }
      var record := table[incident];
      table := table[incident := record.(status := Completed, completed := Some(final))];
    }

    /** A finished workflow answers what it stored and one that was never saved is not found;
        wrong identifiers are a bad request, and otherwise the text of the token decides. */
    method ContinuePendingWorkflow(incident: Id, r: Request) returns (reply: Reply)
      modifies this
      ensures World() == Next(old(World()), Continue(incident, r))
      ensures reply == ReplyTo(old(World()), incident, r)
      ensures Finished(old(table), incident) ==>
        World() == old(World()) && reply == Returned(old(table)[incident].completed.value)
      ensures !Finished(old(table), incident) && (incident !in old(table) || old(table)[incident].payload.None?) ==>
        World() == old(World()) && reply == NotFound
      ensures
        (!Finished(old(table), incident) && incident in old(table) && old(table)[incident].payload.Some?
         && !Awaits(old(table), incident, r))
        ==> World() == old(World()) && reply == BadRequest
      ensures Awaits(old(table), incident, r) ==>
        && AnswersByToken(r, reply, TallyOf(old(World()), incident), TallyOf(World(), incident))
        && (reply == BadRequest ==> World() == old(World()))
        && (if reply.Returned? then table == old(table)[incident := old(table)[incident].(status := Completed, completed := Some(reply.final))]
            else table == old(table))
    {
      hide Strip, Lower, AnswersByToken, ParseDecision;
      if Awaits(table, incident, r) {
        TokenDecides(World(), incident, r);
      }
      var pending: Option<Payload> := None;
      if incident in table {
        var persisted := table[incident];
        if persisted.status == Completed && persisted.completed.Some? {
          return Returned(persisted.completed.value);
        }
        pending := persisted.payload;
      }
      if pending.None? {
        return NotFound;
      }
      if pending.value.flowId != r.flowId {
        return BadRequest;
      }
      if pending.value.recommendationId != r.recommendationId {
        return BadRequest;
      }
      var decision := ParseDecision(r.token);
      if decision.None? {
        return BadRequest;
      }
      ghost var t := TallyOf(World(), incident);
      tallies := tallies[incident := Tally(
        t.executed + (if Executes(r) then 1 else 0),
        t.interrupted + (if Executes(r) && r.progress == RaisesAfterExecuting then 1 else 0))];
      if r.progress != RunsToCompletion {
        return Raised;
      }
      var final := Final(decision.value, decision.value != Reject, r.details);
      MarkCompleted(incident, final);
      return Returned(final);
    }
  }
}
