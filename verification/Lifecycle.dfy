/** From a recommendation to a closed incident: the approval service's human gate, the
    remediation engine's two handlers, and the closure service, joined by topics that may
    deliver any message any number of times in any order. */
module Lifecycle {
  import opened Machine
  import opened Wrappers
  import opened Text

  type Id = nat

  // ---------- messages ----------

  /** A dictionary of orchestration choices; a missing key is `None`. */
  datatype Decision = Decision(requiresApproval: Option<bool>, riskTier: Option<string>)

  datatype Metadata = Metadata(evidenceIds: seq<Id>, reasoning: string, orchestration: Option<Decision>)

  datatype Recommendation = Recommendation(
    id: Option<Id>, incidentId: Option<Id>, confidence: real, severity: string, metadata: Option<Metadata>)

  datatype Resolution = Resolution(
    decision: Option<Decision>, recommendation: Option<Recommendation>, incidentSeverity: string)
  {
    function IncidentId(): Option<Id> {
      if recommendation.Some? then recommendation.value.incidentId else None
    }

    function Meta(): Option<Metadata> {
      if recommendation.Some? then recommendation.value.metadata else None
    }

    function Orchestration(): Option<Decision> {
      if Meta().Some? then Meta().value.orchestration else None
    }

    function Confidence(): real {
      if recommendation.Some? then recommendation.value.confidence else 0.0
    }
  }

  datatype Verdict = Pending | Approved | Rejected | Modified

  datatype Approval = Approval(id: Id, incidentId: Id, recommendationId: Id, decision: Verdict, approver: string)

  datatype ActionStatus = Waiting | Running | Succeeded | Failed | Skipped

  datatype Action = Action(id: Id, incidentId: Id, approvalId: Option<Id>, actionType: string, status: ActionStatus)

  /** What the remediation plugins do with one approval. */
  datatype Engine = Engine(actionId: Id, actionType: string, allowed: bool, result: ActionStatus)

  // ---------- remediation engine ----------

  function ExecuteApproval(approval: Approval, engine: Engine): Action {
    if approval.decision == Rejected
    then Action(engine.actionId, approval.incidentId, Some(approval.id), "rejected", Skipped)
    else Action(engine.actionId, approval.incidentId, Some(approval.id), engine.actionType,
                if engine.allowed then engine.result else Skipped)
  }

  /** The first place that says whether approval is required decides; nowhere means yes. */
  function RequiresApproval(r: Resolution): bool {
    if r.decision.Some? && r.decision.value.requiresApproval.Some? then r.decision.value.requiresApproval.value
    else if r.Orchestration().Some? && r.Orchestration().value.requiresApproval.Some?
    then r.Orchestration().value.requiresApproval.value
    else true
  }

  /** The event's decision says that no approval is required, or says nothing about it and the
      orchestration of its recommendation says so. */
  ghost predicate MayActAlone(r: Resolution) {
    || (r.decision.Some? && r.decision.value.requiresApproval == Some(false))
    || ((r.decision.None? || r.decision.value.requiresApproval == None)
        && r.recommendation.Some? && r.recommendation.value.metadata.Some?
        && r.recommendation.value.metadata.value.orchestration.Some?
        && r.recommendation.value.metadata.value.orchestration.value.requiresApproval == Some(false))
  }

  lemma RequiresApprovalExactly(r: Resolution)
    ensures RequiresApproval(r) <==> !MayActAlone(r)
  {
  }

  /** A decision that is there but names no tier reads as the text "none". */
  function DecisionTier(r: Resolution): string {
    if r.decision.None? then ""
    else if r.decision.value.riskTier.None? then "none"
    else Lower(Strip(r.decision.value.riskTier.value))
  }

  function OrchestrationTier(r: Resolution): string {
    if r.Orchestration().None? then "" else Lower(Strip(r.Orchestration().value.riskTier.GetOr("")))
  }

  function RiskTier(r: Resolution): string {
    if DecisionTier(r) != "" then DecisionTier(r) else OrchestrationTier(r)
  }

  datatype Violation = LowConfidence | MissingEvidence | MissingReasoning | HighRisk

  /** `getattr(settings, "auto_execute_min_confidence", 0.8) or 0.8` */
  function MinConfidence(setting: real): real {
    if setting == 0.0 then 0.8 else setting
  }

  function PolicyViolation(r: Resolution, setting: real): Option<Violation> {
    if r.Confidence() < MinConfidence(setting) then Some(LowConfidence)
    else if r.Meta().None? || r.Meta().value.evidenceIds == [] then Some(MissingEvidence)
    else if Strip(r.Meta().value.reasoning) == "" then Some(MissingReasoning)
    else if RiskTier(r) == "high" && r.Confidence() < 0.95 then Some(HighRisk)
    else None
  }

  /** The action a resolution event leads to; none when it is left to people or names no
      incident. */
  function ResolutionAction(r: Resolution, setting: real, approvalId: Id, engine: Engine): Option<Action> {
    if RequiresApproval(r) || r.IncidentId().None? then None
    else if PolicyViolation(r, setting).Some?
    then Some(Action(engine.actionId, r.IncidentId().value, None, "policy-blocked", Skipped))
    else if r.recommendation.value.id.None? then None
    else Some(ExecuteApproval(
      Approval(approvalId, r.IncidentId().value, r.recommendation.value.id.value, Approved, "system-auto-approval"),
      engine))
  }

  /** The tier is "high" in the decision, or the decision leaves a blank where the
      orchestration says "high"; one that names no tier at all hides the orchestration's. */
  ghost predicate SaysHighRisk(r: Resolution) {
    || (r.decision.Some? && r.decision.value.riskTier.Some? && Lower(Strip(r.decision.value.riskTier.value)) == "high")
    || ((r.decision.None? || (r.decision.value.riskTier.Some? && Strip(r.decision.value.riskTier.value) == ""))
        && r.recommendation.Some? && r.recommendation.value.metadata.Some?
        && r.recommendation.value.metadata.value.orchestration.Some?
        && r.recommendation.value.metadata.value.orchestration.value.riskTier.Some?
        && Lower(Strip(r.recommendation.value.metadata.value.orchestration.value.riskTier.value)) == "high")
  }

  /** The four conditions for acting without a person. */
  ghost predicate MeetsPolicy(r: Resolution, setting: real) {
    && r.recommendation.Some? && r.recommendation.value.metadata.Some?
    && r.recommendation.value.confidence >= (if setting == 0.0 then 0.8 else setting)
    && r.recommendation.value.metadata.value.evidenceIds != []
    && Strip(r.recommendation.value.metadata.value.reasoning) != ""
    && (SaysHighRisk(r) ==> r.recommendation.value.confidence >= 0.95)
  }

  lemma RiskTierExactly(r: Resolution)
    ensures RiskTier(r) == "high" <==> SaysHighRisk(r)
  {
    hide Strip;
    assert "none"[0] != "high"[0];
    assert forall s: string :: |Lower(s)| == |s|;
    assert Lower(Strip("")) == "" by { StripOfTrimmed(""); }
  }

  lemma NoViolationIsPolicy(r: Resolution, setting: real)
    ensures PolicyViolation(r, setting).None? <==> MeetsPolicy(r, setting)
  {
    hide Strip, Lower, RiskTier, SaysHighRisk;
    RiskTierExactly(r);
  }

  /** The higher floor for high risk is meant for the orchestration's tier too. For an
      event that passes the other three conditions with a confidence below 0.95, a tier of
      "high" in the orchestration blocks it exactly when the event carries no decision, or
      one whose own tier is blank or "high". */
  lemma OrchestrationTierBlocksExactly(r: Resolution, setting: real)
    requires r.Confidence() >= MinConfidence(setting) && r.Confidence() < 0.95
    requires r.Meta().Some? && r.Meta().value.evidenceIds != [] && Strip(r.Meta().value.reasoning) != ""
    requires OrchestrationTier(r) == "high"
    ensures PolicyViolation(r, setting) == Some(HighRisk) <==>
      (r.decision.None? || (r.decision.value.riskTier.Some? && Lower(Strip(r.decision.value.riskTier.value)) in ["", "high"]))
  {
    assert "none" != "high" by { assert "none"[0] != "high"[0]; }
  }

  // ---------- approval service ----------

  /** What the service remembers about an incident: the last resolution event, until a
      decision overwrites it. */
  datatype Remembered = FromResolution(resolution: Resolution) | FromDecision

  function SeverityOf(m: Remembered): string {
    match m
    case FromDecision => ""
    case FromResolution(r) =>
      var own := if r.recommendation.Some? then Lower(Strip(r.recommendation.value.severity)) else "";
      if own != "" then own else Lower(Strip(r.incidentSeverity))
  }

  predicate HighSeverity(severity: string) {
    severity == "high" || severity == "critical"
  }

  predicate EndsWith(s: string, tail: string) {
    |tail| <= |s| && s[|s| - |tail|..] == tail
  }

  predicate NonHuman(approver: string) {
    var a := Lower(Strip(approver));
    a in ["", "system", "rca-agent", "automation-agent", "orchestrator"] || EndsWith(a, "-agent")
  }

  /** The recommendation's severity is high or critical, or is blank where the incident's is. */
  ghost predicate SaysHighSeverity(r: Resolution) {
    || (r.recommendation.Some? && Lower(Strip(r.recommendation.value.severity)) in {"high", "critical"})
    || ((r.recommendation.None? || Strip(r.recommendation.value.severity) == "")
        && Lower(Strip(r.incidentSeverity)) in {"high", "critical"})
  }

  /** The name is blank, one of four known ones, or ends in "-agent". */
  ghost predicate NamesMachine(approver: string) {
    var name := Lower(Strip(approver));
    || name == "" || name == "system" || name == "rca-agent" || name == "automation-agent" || name == "orchestrator"
    || exists n :: 0 <= n <= |name| && name == name[..n] + "-agent"
  }

  lemma HighSeverityExactly(r: Resolution)
    ensures HighSeverity(SeverityOf(FromResolution(r))) <==> SaysHighSeverity(r)
  {
    hide Strip;
    assert forall s: string :: |Lower(s)| == |s|;
  }

  lemma NonHumanExactly(approver: string)
    ensures NonHuman(approver) <==> NamesMachine(approver)
  {
    hide Strip, Lower;
    var name := Lower(Strip(approver));
    if EndsWith(name, "-agent") {
      assert name == name[..|name| - 6] + "-agent";
    }
    if n :| 0 <= n <= |name| && name == name[..n] + "-agent" {
      assert name[|name| - 6..] == "-agent";
    }
  }

  predicate GateOpens(pending: map<Id, Remembered>, approval: Approval) {
    var severity := if approval.incidentId in pending then SeverityOf(pending[approval.incidentId]) else "";
    !(HighSeverity(severity) && NonHuman(approval.approver))
  }

  // ---------- closure service ----------

  /** Health counts as restored, and the incident as closed, when the action succeeded. */
  function HealthRestored(action: Action): bool {
    var validation := [action.status == Succeeded, action.status == Succeeded,
                       action.status == Succeeded, action.status == Succeeded];
    forall v :: v in validation ==> v
  }

  // ---------- the three services together ----------

  datatype Cause = ByApproval(approval: Approval) | ByResolution(resolution: Resolution)

  datatype Execution = Execution(action: Action, cause: Cause)

  datatype Outcome = Outcome(incidentId: Id, actionId: Id, closed: bool)

  /** Topics keep every message ever sent: delivering one again, or late, is always possible. */
  datatype State = State(
    resolutions: set<Resolution>,
    approvals: set<Approval>,
    remediations: set<Action>,
    pending: map<Id, Remembered>,   // the approval service's memory, which a restart empties
    executions: set<Execution>,     // every action made, with what it was made for
    outcomes: set<Outcome>)         // statuses written by the closure service

  datatype Step =
    | Recommend(resolution: Resolution)
    | Remember(resolution: Resolution)
    | Decide(approval: Approval)
    | DecideUnpublished(approval: Approval)   // storing or publishing it raises
    | ApprovalServiceRestarts
    | RemediateApproval(approval: Approval, engine: Engine, sends: bool)   // sending it may raise
    | RemediateResolution(resolution: Resolution, approvalId: Id, engine: Engine, sends: bool)
    | ExecuteDirectly(approval: Approval, engine: Engine)
    | Close(action: Action)

  const START := State({}, {}, {}, map[], {}, {})

  function Executed(s: State, action: Action, cause: Cause, sends: bool): State {
    s.(executions := s.executions + {Execution(action, cause)},
       remediations := s.remediations + if sends then {action} else {})
  }

  function Next(setting: real, s: State, step: Step): Option<State> {
    match step
    case Recommend(r) => Some(s.(resolutions := s.resolutions + {r}))
    case Remember(r) =>
      if r in s.resolutions && r.IncidentId().Some?
      then Some(s.(pending := s.pending[r.IncidentId().value := FromResolution(r)]))
      else None
    case Decide(a) =>
      if GateOpens(s.pending, a) && a.decision != Pending
      then Some(s.(pending := s.pending[a.incidentId := FromDecision], approvals := s.approvals + {a}))
      else None
    case DecideUnpublished(a) =>
      if GateOpens(s.pending, a) && a.decision != Pending
      then Some(s.(pending := s.pending[a.incidentId := FromDecision]))
      else None
    case ApprovalServiceRestarts => Some(s.(pending := map[]))
    case RemediateApproval(a, engine, sends) =>
      if a in s.approvals then Some(Executed(s, ExecuteApproval(a, engine), ByApproval(a), sends)) else None
    case RemediateResolution(r, approvalId, engine, sends) =>
      if r in s.resolutions && ResolutionAction(r, setting, approvalId, engine).Some?
      then Some(Executed(s, ResolutionAction(r, setting, approvalId, engine).value, ByResolution(r), sends))
      else None
    case ExecuteDirectly(a, engine) =>
      // the endpoint stores the action and sends no event
      Some(Executed(s, ExecuteApproval(a, engine), ByApproval(a), false))
    case Close(action) =>
      if action in s.remediations
      then Some(s.(outcomes := s.outcomes + {Outcome(action.incidentId, action.id, HealthRestored(action))}))
      else None
  }

  function Steps(setting: real): (State, Step) -> Option<State> {
    (s, step) => Next(setting, s, step)
  }

  // ---------- closing traces back ----------

  /** What entitles an execution to count as a remediation. */
  ghost predicate Entitled(setting: real, s: State, e: Execution) {
    match e.cause
    case ByApproval(a) => a in s.approvals && a.incidentId == e.action.incidentId && a.decision != Rejected
    case ByResolution(r) =>
      && r in s.resolutions && r.IncidentId() == Some(e.action.incidentId)
      && MayActAlone(r) && MeetsPolicy(r, setting)
  }

  /** A sent action was executed for an approval or event on record; if it did anything,
      it was entitled to. */
  ghost predicate Traced(setting: real, s: State, action: Action) {
    exists e :: e in s.executions && e.action == action && (action.status != Skipped ==> Entitled(setting, s, e))
  }

  ghost predicate ClosedRightly(setting: real, s: State, incidentId: Id, actionId: Id) {
    exists e :: e in s.executions && e.action.id == actionId && e.action.incidentId == incidentId
             && e.action.status == Succeeded && Entitled(setting, s, e)
  }

  ghost predicate TraceInv(setting: real, s: State) {
    && (forall a :: a in s.remediations ==> Traced(setting, s, a))
    && (forall o :: o in s.outcomes && o.closed ==> ClosedRightly(setting, s, o.incidentId, o.actionId))
  }

  ghost predicate Grows(s: State, s': State) {
    s.executions <= s'.executions && s.approvals <= s'.approvals && s.resolutions <= s'.resolutions
  }

  lemma TracedGrows(setting: real, s: State, s': State, action: Action)
    requires Grows(s, s') && Traced(setting, s, action)
    ensures Traced(setting, s', action)
  {
    var e :| e in s.executions && e.action == action && (action.status != Skipped ==> Entitled(setting, s, e));
    assert e in s'.executions && (action.status != Skipped ==> Entitled(setting, s', e));
  }

  lemma ClosedGrows(setting: real, s: State, s': State, incidentId: Id, actionId: Id)
    requires Grows(s, s') && ClosedRightly(setting, s, incidentId, actionId)
    ensures ClosedRightly(setting, s', incidentId, actionId)
  {
    var e :| e in s.executions && e.action.id == actionId && e.action.incidentId == incidentId
          && e.action.status == Succeeded && Entitled(setting, s, e);
    assert e in s'.executions && Entitled(setting, s', e);
  }

  lemma ResolutionIsEntitled(setting: real, r: Resolution, approvalId: Id, engine: Engine)
    requires ResolutionAction(r, setting, approvalId, engine).Some?
    ensures var a := ResolutionAction(r, setting, approvalId, engine).value;
      && r.recommendation.Some? && r.recommendation.value.incidentId == Some(a.incidentId) && MayActAlone(r)
      && (a.status != Skipped ==> MeetsPolicy(r, setting))
  {
    hide RequiresApproval, MayActAlone;
    RequiresApprovalExactly(r);
    NoViolationIsPolicy(r, setting);
  }

  lemma ClosingIsRight(setting: real, s: State, action: Action)
    requires Traced(setting, s, action) && HealthRestored(action)
    ensures ClosedRightly(setting, s, action.incidentId, action.id)
  {
    assert action.status == Succeeded by {
      assert (action.status == Succeeded) in [action.status == Succeeded, action.status == Succeeded,
        action.status == Succeeded, action.status == Succeeded];
    }
  }

  lemma NextGrows(setting: real, s: State, step: Step)
    requires Next(setting, s, step).Some?
    ensures Grows(s, Next(setting, s, step).value)
  {
  }

  lemma SentIsTraced(setting: real, s: State, step: Step, a: Action)
    requires TraceInv(setting, s) && Next(setting, s, step).Some? && a in Next(setting, s, step).value.remediations
    ensures Traced(setting, Next(setting, s, step).value, a)
  {
    var s' := Next(setting, s, step).value;
    NextGrows(setting, s, step);
    if a in s.remediations {
      TracedGrows(setting, s, s', a);
    } else if step.RemediateApproval? {
      assert Execution(a, ByApproval(step.approval)) in s'.executions;
    } else {
      ResolutionIsEntitled(setting, step.resolution, step.approvalId, step.engine);
      assert Execution(a, ByResolution(step.resolution)) in s'.executions;
    }
  }

  lemma NextKeepsTraceInv(setting: real, s: State, step: Step)
    requires TraceInv(setting, s) && Next(setting, s, step).Some?
    ensures TraceInv(setting, Next(setting, s, step).value)
  {
    hide Traced, ClosedRightly, HealthRestored;
    var s' := Next(setting, s, step).value;
    NextGrows(setting, s, step);
    forall a | a in s'.remediations ensures Traced(setting, s', a) {
      SentIsTraced(setting, s, step, a);
    }
    forall o | o in s'.outcomes && o.closed ensures ClosedRightly(setting, s', o.incidentId, o.actionId) {
      if o in s.outcomes {
        ClosedGrows(setting, s, s', o.incidentId, o.actionId);
      } else {
        TracedGrows(setting, s, s', step.action);
        ClosingIsRight(setting, s', step.action);
      }
    }
  }

  // ---------- the human gate ----------

  /** The approval service receives an event about the incident. */
  predicate RemembersFor(step: Step, incident: Id) {
    step.Remember? && step.resolution.IncidentId() == Some(incident)
  }

  predicate DecidesFor(step: Step, incident: Id) {
    (step.Decide? || step.DecideUnpublished?) && step.approval.incidentId == incident
  }

  /** After such a step the service no longer knows what it last received about the incident. */
  predicate Overwrites(step: Step, incident: Id) {
    RemembersFor(step, incident) || DecidesFor(step, incident) || step.ApprovalServiceRestarts?
  }

  ghost predicate StandsSince(steps: seq<Step>, incident: Id) {
    forall step :: step in steps ==> !Overwrites(step, incident)
  }

  /** What the service remembers about the incident. */
  function Memory(s: State, incident: Id): Option<Remembered> {
    if incident in s.pending then Some(s.pending[incident]) else None
  }

  lemma NextMemory(setting: real, s: State, step: Step, incident: Id)
    requires Next(setting, s, step).Some?
    ensures Memory(Next(setting, s, step).value, incident) ==
      if RemembersFor(step, incident) then Some(FromResolution(step.resolution))
      else if DecidesFor(step, incident) then Some(FromDecision)
      else if step.ApprovalServiceRestarts? then None
      else Memory(s, incident)
  {
    hide RequiresApproval, PolicyViolation, ExecuteApproval, GateOpens, HealthRestored;
  }

  /** The service received this event about the incident, and nothing has overwritten it. */
  ghost predicate LastReceived(steps: seq<Step>, incident: Id, r: Resolution) {
    exists p :: 0 <= p < |steps| && ReceivedAt(steps, p, incident, r)
  }

  ghost predicate ReceivedAt(steps: seq<Step>, p: nat, incident: Id, r: Resolution)
    requires p < |steps|
  {
    RemembersFor(steps[p], incident) && steps[p].resolution == r && StandsSince(steps[p + 1..], incident)
  }

  lemma StandsPush(steps: seq<Step>, step: Step, incident: Id)
    ensures StandsSince(steps + [step], incident) <==> StandsSince(steps, incident) && !Overwrites(step, incident)
  {
    hide Overwrites;
    assert forall x :: x in steps + [step] <==> x in steps || x == step;
  }

  lemma NothingSince(incident: Id)
    ensures StandsSince([], incident)
  {
  }

  lemma LastReceivedPush(steps: seq<Step>, step: Step, incident: Id, r: Resolution)
    ensures LastReceived(steps + [step], incident, r) <==>
      (RemembersFor(step, incident) && step.resolution == r) ||
      (!Overwrites(step, incident) && LastReceived(steps, incident, r))
  {
    hide StandsSince, Overwrites;
    var all, n := steps + [step], |steps|;
    NothingSince(incident);
    assert all[n] == step && all[n + 1..] == [];
    forall p: nat | p < n
      ensures ReceivedAt(all, p, incident, r) <==> ReceivedAt(steps, p, incident, r) && !Overwrites(step, incident)
    {
      assert all[p] == steps[p] && all[p + 1..] == steps[p + 1..] + [step];
      StandsPush(steps[p + 1..], step, incident);
    }
    assert ReceivedAt(all, n, incident, r) <==> RemembersFor(step, incident) && step.resolution == r;
    if LastReceived(steps, incident, r) && !Overwrites(step, incident) {
      var p :| 0 <= p < n && ReceivedAt(steps, p, incident, r);
      assert ReceivedAt(all, p, incident, r);
    }
  }

  /** The memory holds an event exactly when that event was the last received and nothing has
      overwritten it. */
  lemma {:induction false} MemoryExactly(setting: real, steps: seq<Step>, incident: Id, r: Resolution)
    requires Run(Steps(setting), START, steps).Some?
    ensures Memory(Run(Steps(setting), START, steps).value, incident) == Some(FromResolution(r)) <==>
      LastReceived(steps, incident, r)
  {
    hide Next, LastReceived, Memory;
    if steps == [] {
      NothingReceived(incident, r);
    } else {
      var init, last := steps[..|steps| - 1], steps[|steps| - 1];
      assert steps == init + [last];
      MemoryExactly(setting, init, incident, r);
      NextMemory(setting, Run(Steps(setting), START, init).value, last, incident);
      LastReceivedPush(init, last, incident, r);
    }
  }

  lemma NothingReceived(incident: Id, r: Resolution)
    ensures Memory(START, incident).None? && !LastReceived([], incident, r)
  {
  }

  // ---------- the theorems ----------

  lemma {:induction false} RunKeepsInv(setting: real, steps: seq<Step>)
    requires Run(Steps(setting), START, steps).Some?
    ensures TraceInv(setting, Run(Steps(setting), START, steps).value)
  {
    hide Next, TraceInv;
    if steps == [] {
      StartHasInv(setting);
    } else {
      var init, last := steps[..|steps| - 1], steps[|steps| - 1];
      RunKeepsInv(setting, init);
      NextKeepsTraceInv(setting, Run(Steps(setting), START, init).value, last);
    }
  }

  lemma StartHasInv(setting: real)
    ensures TraceInv(setting, START)
  {
  }

  /** Over every run, each closed status traces to a succeeded action for that incident,
      executed for an approval that was not a rejection, or for a resolution event that
      required no approval and met the four conditions. */
  lemma ClosedOnlyByEntitledSuccess(setting: real, steps: seq<Step>, outcome: Outcome)
    requires Run(Steps(setting), START, steps).Some?
    requires outcome in Run(Steps(setting), START, steps).value.outcomes && outcome.closed
    ensures ClosedRightly(setting, Run(Steps(setting), START, steps).value, outcome.incidentId, outcome.actionId)
  {
    RunKeepsInv(setting, steps);
  }

  /** The service received an event of high or critical severity about the incident, and
      since then no other event about it, no accepted decision on it, and no restart. */
  ghost predicate Guarded(steps: seq<Step>, incident: Id) {
    exists r :: LastReceived(steps, incident, r) && SaysHighSeverity(r)
  }

  lemma GateIsMemory(pending: map<Id, Remembered>, approval: Approval)
    ensures GateOpens(pending, approval) <==>
      !(NamesMachine(approval.approver) && approval.incidentId in pending &&
        pending[approval.incidentId].FromResolution? && SaysHighSeverity(pending[approval.incidentId].resolution))
  {
    hide NonHuman, NamesMachine, SaysHighSeverity;
    NonHumanExactly(approval.approver);
    if approval.incidentId in pending && pending[approval.incidentId].FromResolution? {
      HighSeverityExactly(pending[approval.incidentId].resolution);
    }
    assert !HighSeverity("");
  }

  /** After any run, a decision is accepted exactly when a human makes it or the incident is
      not guarded. */
  lemma GateOpensExactly(setting: real, steps: seq<Step>, approval: Approval)
    requires Run(Steps(setting), START, steps).Some? && approval.decision != Pending
    ensures Next(setting, Run(Steps(setting), START, steps).value, Decide(approval)).Some? <==>
      !(NamesMachine(approval.approver) && Guarded(steps, approval.incidentId))
  {
    hide Run, LastReceived, SaysHighSeverity, NamesMachine, GateOpens;
    var s, i := Run(Steps(setting), START, steps).value, approval.incidentId;
    GateIsMemory(s.pending, approval);
    if i in s.pending && s.pending[i].FromResolution? {
      MemoryExactly(setting, steps, i, s.pending[i].resolution);
    }
    if Guarded(steps, i) {
      var r :| LastReceived(steps, i, r) && SaysHighSeverity(r);
      MemoryExactly(setting, steps, i, r);
    }
  }

  /** So a decision by a non-human on an incident whose last event, received at step `p`, was
      of high or critical severity is accepted exactly when some later step decided on that
      incident or restarted the service. */
  lemma NonHumanPassesExactly(setting: real, steps: seq<Step>, p: nat, approval: Approval)
    requires Run(Steps(setting), START, steps).Some?
    requires p < |steps| && RemembersFor(steps[p], approval.incidentId)
    requires SaysHighSeverity(steps[p].resolution)
    requires forall step :: step in steps[p + 1..] ==> !RemembersFor(step, approval.incidentId)
    requires NamesMachine(approval.approver) && approval.decision != Pending
    ensures Next(setting, Run(Steps(setting), START, steps).value, Decide(approval)).Some? <==>
      exists step :: step in steps[p + 1..] && (DecidesFor(step, approval.incidentId) || step.ApprovalServiceRestarts?)
  {
    hide Run, Next, SaysHighSeverity, NamesMachine;
    var i, r := approval.incidentId, steps[p].resolution;
    GateOpensExactly(setting, steps, approval);
    if StandsSince(steps[p + 1..], i) {
      assert ReceivedAt(steps, p, i, r) && LastReceived(steps, i, r);
    } else if Guarded(steps, i) {
      var q, other := LastReceivedWhere(steps, i);
      SinceEarlier(steps, p, q, i, other);
      assert false;
    }
  }

  lemma LastReceivedWhere(steps: seq<Step>, incident: Id) returns (q: nat, r: Resolution)
    requires Guarded(steps, incident)
    ensures q < |steps| && ReceivedAt(steps, q, incident, r)
  {
    r :| LastReceived(steps, incident, r) && SaysHighSeverity(r);
    q :| 0 <= q < |steps| && ReceivedAt(steps, q, incident, r);
  }

  /** Two places at which the last event was received are one. */
  lemma SinceEarlier(steps: seq<Step>, p: nat, q: nat, incident: Id, r: Resolution)
    requires p < |steps| && RemembersFor(steps[p], incident)
    requires forall step :: step in steps[p + 1..] ==> !RemembersFor(step, incident)
    requires q < |steps| && ReceivedAt(steps, q, incident, r)
    ensures StandsSince(steps[p + 1..], incident)
  {
    if p < q {
      assert false;
    }
  }

  // ---------- where the promises fail ----------

  lemma WordsStay(word: string)
    requires forall k :: 0 <= k < |word| ==> 'a' <= word[k] <= 'z'
    ensures Strip(word) == word && Lower(Strip(word)) == word
  {
    StripOfTrimmed(word);
  }

  /** An event about a critical incident. */
  function CriticalEvent(incident: Id): Resolution {
    Resolution(None, Some(Recommendation(Some(0), Some(incident), 0.9, "critical", None)), "")
  }

  /** A person rejects the remediation of a critical incident; a decision by the system to
      approve it, refused before, then passes the gate. */
  lemma GateOpensAfterRejection(setting: real, incident: Id)
    ensures var r := CriticalEvent(incident);
      var rejected := Approval(1, incident, 0, Rejected, "alice");
      var approved := Approval(2, incident, 0, Approved, "system");
      var seen := Run(Steps(setting), START, [Recommend(r), Remember(r)]);
      var run := Run(Steps(setting), START, [Recommend(r), Remember(r)] + [Decide(rejected), Decide(approved)]);
      && seen.Some? && Next(setting, seen.value, Decide(approved)).None?
      && run.Some? && approved in run.value.approvals
  {
    hide Strip, Lower, NonHuman, Run;
    var r := CriticalEvent(incident);
    var rejected := Approval(1, incident, 0, Rejected, "alice");
    var approved := Approval(2, incident, 0, Approved, "system");
    WordsStay("critical");
    WhoIsHuman();
    RunTwo(Steps(setting), START, Recommend(r), Remember(r));
    var seen := Run(Steps(setting), START, [Recommend(r), Remember(r)]).value;
    RunTwo(Steps(setting), seen, Decide(rejected), Decide(approved));
    RunConcat(Steps(setting), START, [Recommend(r), Remember(r)], [Decide(rejected), Decide(approved)]);
  }

  /** A restart of the approval service has the same effect. */
  lemma GateOpensAfterRestart(setting: real, incident: Id)
    ensures var r := CriticalEvent(incident);
      var approved := Approval(2, incident, 0, Approved, "system");
      var seen := Run(Steps(setting), START, [Recommend(r), Remember(r)]);
      var run := Run(Steps(setting), START, [Recommend(r), Remember(r)] + [ApprovalServiceRestarts, Decide(approved)]);
      && seen.Some? && Next(setting, seen.value, Decide(approved)).None?
      && run.Some? && approved in run.value.approvals
  {
    hide Strip, Lower, NonHuman, Run;
    var r := CriticalEvent(incident);
    var approved := Approval(2, incident, 0, Approved, "system");
    WordsStay("critical");
    WhoIsHuman();
    RunTwo(Steps(setting), START, Recommend(r), Remember(r));
    var seen := Run(Steps(setting), START, [Recommend(r), Remember(r)]).value;
    RunTwo(Steps(setting), seen, ApprovalServiceRestarts, Decide(approved));
    RunConcat(Steps(setting), START, [Recommend(r), Remember(r)], [ApprovalServiceRestarts, Decide(approved)]);
  }

  lemma WhoIsHuman()
    ensures NonHuman("system") && !NonHuman("alice")
  {
    hide Strip, Lower;
    WordsStay("alice");
    WordsStay("system");
    assert "alice"[0] == 'a' && "system"[0] == 's' && "rca-agent"[0] == 'r' && "orchestrator"[0] == 'o';
    assert "alice"[1] == 'l' && "automation-agent"[1] == 'u';
    assert |"alice"| < |"-agent"|;
  }

  /** An event of high risk according to its orchestration, with a decision that only says
      that no approval is required. */
  function HighRiskEvent(incident: Id): Resolution {
    Resolution(Some(Decision(Some(false), None)),
      Some(Recommendation(Some(0), Some(incident), 0.9, "critical",
        Some(Metadata([1], "because", Some(Decision(None, Some("high"))))))), "")
  }

  /** It is acted on with a confidence of 0.9, below the floor for high risk; without the
      decision's silence about the tier it would have been blocked. */
  lemma HighRiskPasses(incident: Id, approvalId: Id, engine: Engine)
    requires engine.allowed
    ensures var r := HighRiskEvent(incident);
      && OrchestrationTier(r) == "high" && PolicyViolation(r, 0.8).None?
      && ResolutionAction(r, 0.8, approvalId, engine).Some?
      && ResolutionAction(r, 0.8, approvalId, engine).value.status == engine.result
      && PolicyViolation(r.(decision := Some(Decision(Some(false), Some("high")))), 0.8) == Some(HighRisk)
  {
    hide Strip, Lower;
    WordsStay("high");
    WordsStay("because");
    assert "none"[0] != "high"[0];
  }

  // ---------- the handlers as the programs run them ----------

  /** A decision that requires approval wins over the orchestration, and silence means that
      approval is required. */
  lemma NothingSaysSo(r: Resolution)
    ensures r.decision.Some? && r.decision.value.requiresApproval == Some(true) ==> !MayActAlone(r)
    ensures
      ((r.decision.None? || r.decision.value.requiresApproval.None?) &&
       (r.Orchestration().None? || r.Orchestration().value.requiresApproval.None?))
      ==> !MayActAlone(r)
  {
  }

  /** How far a handler gets with an action it has executed. */
  datatype Delivery = NotStored | Stored | StoredAndSent

  class RemediationService {
    const minConfidenceSetting: real
    var published: seq<Action>
    var persisted: seq<Action>

    constructor (setting: real)
      ensures minConfidenceSetting == setting && published == [] && persisted == []
    {
      minConfidenceSetting := setting;
      published, persisted := [], [];
    }

    /** The action is executed first; storing it may then raise. */
    method Execute(approval: Approval, engine: Engine, stores: bool) returns (action: Action)
      modifies this`persisted
      ensures action == ExecuteApproval(approval, engine)
      ensures action.incidentId == approval.incidentId && action.approvalId == Some(approval.id) && action.id == engine.actionId
      ensures action.status == if approval.decision == Rejected || !engine.allowed then Skipped else engine.result
      ensures action.actionType == if approval.decision == Rejected then "rejected" else engine.actionType
      ensures persisted == old(persisted) + if stores then [action] else []
    {
      if approval.decision == Rejected {
        action := Action(engine.actionId, approval.incidentId, Some(approval.id), "rejected", Skipped);
      } else {
        action := Action(engine.actionId, approval.incidentId, Some(approval.id), engine.actionType, Waiting);
        if !engine.allowed {
          action := action.(status := Skipped);
        } else {
          action := action.(status := engine.result);
        }
      }
      if stores {
        persisted := persisted + [action];
      }
    }

    method HandleApproval(approval: Approval, engine: Engine, delivery: Delivery)
      modifies this
      ensures persisted == old(persisted) + if delivery.NotStored? then [] else [ExecuteApproval(approval, engine)]
      ensures published == old(published) + if delivery.StoredAndSent? then [ExecuteApproval(approval, engine)] else []
    {
      var action := Execute(approval, engine, !delivery.NotStored?);
      if delivery.StoredAndSent? {
        published := published + [action];
      }
    }

    /** Stores and sends the one action the event leads to, or nothing. Nothing happens unless
        the decision says that no approval is required, or says nothing and the orchestration
        says so; an event that names an incident and breaks the policy is blocked, and one
        that meets it and names its recommendation is acted on. */
    method HandleResolution(r: Resolution, approvalId: Id, engine: Engine, delivery: Delivery)
      modifies this
      ensures var a := ResolutionAction(r, minConfidenceSetting, approvalId, engine);
        var more := if a.Some? then [a.value] else [];
        && persisted == old(persisted) + (if delivery.NotStored? then [] else more)
        && published == old(published) + (if delivery.StoredAndSent? then more else [])
      ensures !MayActAlone(r) ==> persisted == old(persisted) && published == old(published)
      ensures r.decision.Some? && r.decision.value.requiresApproval == Some(true) ==>
        persisted == old(persisted) && published == old(published)
      ensures
        ((r.decision.None? || r.decision.value.requiresApproval.None?) &&
         (r.Orchestration().None? || r.Orchestration().value.requiresApproval.None?))
        ==> persisted == old(persisted) && published == old(published)
      ensures
        (MayActAlone(r) && r.recommendation.Some? && r.recommendation.value.incidentId.Some? && delivery.StoredAndSent?) ==>
          var incident := r.recommendation.value.incidentId.value;
          && (!MeetsPolicy(r, minConfidenceSetting) ==>
                var blocked := Action(engine.actionId, incident, None, "policy-blocked", Skipped);
                persisted == old(persisted) + [blocked] && published == old(published) + [blocked])
          && (MeetsPolicy(r, minConfidenceSetting) && r.recommendation.value.id.Some? ==>
                var done := Action(engine.actionId, incident, Some(approvalId), engine.actionType,
                                   if engine.allowed then engine.result else Skipped);
                persisted == old(persisted) + [done] && published == old(published) + [done])
    {
      hide RequiresApproval, MayActAlone, MeetsPolicy, PolicyViolation;
      RequiresApprovalExactly(r);
      NoViolationIsPolicy(r, minConfidenceSetting);
      NothingSaysSo(r);
      if RequiresApproval(r) {
        return;
      }
      var violation := PolicyViolation(r, minConfidenceSetting);
      if violation.Some? {
        if r.IncidentId().None? {
          return;
        }
        var blocked := Action(engine.actionId, r.IncidentId().value, None, "policy-blocked", Skipped);
        if delivery.NotStored? {
          return;
        }
        persisted := persisted + [blocked];
        if delivery.StoredAndSent? {
          published := published + [blocked];
        }
        return;
      }
      if r.IncidentId().None? || r.recommendation.value.id.None? {
        return;
      }
      var approval := Approval(approvalId, r.IncidentId().value, r.recommendation.value.id.value, Approved, "system-auto-approval");
      var action := Execute(approval, engine, !delivery.NotStored?);
      if delivery.StoredAndSent? {
        published := published + [action];
      }
    }
  }

  class ApprovalService {
    var pendingIncidents: map<Id, Remembered>
    var published: seq<Approval>

    /** A new process remembers nothing: the machine's `ApprovalServiceRestarts` step. */
    constructor ()
      ensures pendingIncidents == map[] && published == []
    {
      pendingIncidents, published := map[], [];
    }

    /** The machine's `Remember` step, in any state that remembers what the service does; an
        event that names no incident makes the handler raise and the step impossible. */
    method Receive(r: Resolution) returns (stored: bool)
      modifies this`pendingIncidents
      ensures stored <==> r.IncidentId().Some?
      ensures forall setting: real, s: State ::
        s.pending == old(pendingIncidents) && r in s.resolutions ==>
          (Next(setting, s, Remember(r)).Some? <==> stored) &&
          (stored ==> Next(setting, s, Remember(r)).value.pending == pendingIncidents)
      ensures !stored ==> pendingIncidents == old(pendingIncidents)
    {
      if r.IncidentId().None? {
        return false;
      }
      pendingIncidents := pendingIncidents[r.IncidentId().value := FromResolution(r)];
      stored := true;
    }

    /** A refused decision leaves no trace; an accepted one replaces what was remembered,
        even when storing or publishing it then raises. In any state that remembers what the
        service does this is the machine's `Decide` or `DecideUnpublished` step. */
    method StoreAndPublish(approval: Approval, publishes: bool) returns (accepted: bool)
      modifies this
      ensures accepted == GateOpens(old(pendingIncidents), approval)
      ensures !accepted <==>
        && NamesMachine(approval.approver) && approval.incidentId in old(pendingIncidents)
        && old(pendingIncidents)[approval.incidentId].FromResolution?
        && SaysHighSeverity(old(pendingIncidents)[approval.incidentId].resolution)
      ensures published == old(published) + if accepted && publishes then [approval] else []
      ensures pendingIncidents == if accepted then old(pendingIncidents)[approval.incidentId := FromDecision] else old(pendingIncidents)
      ensures approval.decision != Pending ==>
        var step := if publishes then Decide(approval) else DecideUnpublished(approval);
        forall setting: real, s: State :: s.pending == old(pendingIncidents) ==>
          (Next(setting, s, step).Some? <==> accepted) &&
          (accepted ==> Next(setting, s, step).value.pending == pendingIncidents)
    {
      hide NamesMachine, SaysHighSeverity, NonHuman, HighSeverity, SeverityOf;
      GateIsMemory(pendingIncidents, approval);
      var severity := "";
      if approval.incidentId in pendingIncidents {
        severity := SeverityOf(pendingIncidents[approval.incidentId]);
      }
      if HighSeverity(severity) && NonHuman(approval.approver) {
        return false;
      }
      pendingIncidents := pendingIncidents[approval.incidentId := FromDecision];
      if publishes {
        published := published + [approval];
      }
      accepted := true;
    }
  }

  class ClosureService {
    var written: seq<Outcome>

    constructor ()
      ensures written == []
    {
      written := [];
    }

    method Handle(action: Action)
      modifies this
      ensures written == old(written) + [Outcome(action.incidentId, action.id, action.status == Succeeded)]
    {
      var succeeded := action.status == Succeeded;
      var restored := HealthRestored(action);
      assert restored == succeeded by {
        assert succeeded in [succeeded, succeeded, succeeded, succeeded];
      }
      written := written + [Outcome(action.incidentId, action.id, restored)];
    }
  }
}
