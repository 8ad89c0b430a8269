/**
 One Observe, Plan, Approve, Execute, Verify cycle (agent/cycle.go) as a function of what the
 surrounding world answers. The world is unconstrained: every answer may be anything, and every Save
 may fail. The function yields the calls the runner makes, in order.
 */
module Cycle {
  import opened Wrappers
  import opened Sanitize
  import opened Policy
  import opened Trace
  import opened Sorting

  const HARD_MAX_PROPOSALS := 1

  datatype RunnerConfig = RunnerConfig(
    policy: PolicyConfig,
    registry: Registry,
    hasObserver: bool,
    hasAudit: bool,
    hasPlanner: bool,
    hasRetriever: bool,
    hasExecutor: bool,
    delegatesApproval: bool,   // the executor reports an authoritative approval chain
    hasApprovals: bool,
    hasVerifier: bool,
    maxProposals: int)

  datatype CycleRequest = CycleRequest(trigger: string, target: string)

  datatype RetrieveAnswer = QueryFailed | RetrieveError | Citations(list: seq<Citation>)

  datatype VerifyAnswer = VerifyAnswer(verified: bool, failed: bool)

  /** What happens around one proposal: None stands for an error return. */
  datatype ProposalAnswers = ProposalAnswers(
    interrupted: bool,
    approve: Option<bool>,
    execute: Option<JsonMap>,
    verify: VerifyAnswer,
    savedDecision: bool,
    savedDelegation: bool,
    savedIntent: bool,
    savedOutcome: bool)

  datatype CycleAnswers = CycleAnswers(
    newID: Option<string>,
    startedAt: int,
    finishedAt: int,
    observe: Option<JsonMap>,
    retrieve: RetrieveAnswer,
    plan: Option<seq<Proposal>>,
    proposal: nat -> ProposalAnswers,
    savedInitial: bool,
    savedObservations: bool,
    savedKnowledge: bool,
    savedPlan: bool,
    savedFinal: bool)

  datatype Event =
    | Saved(snapshot: CycleTrace, ok: bool)
    | ObserveCalled
    | RetrieveCalled
    | PlanCalled(shown: seq<string>)
    | ApproveCalled(proposal: Proposal, reply: Option<bool>)
    | ExecuteCalled(operation: string, args: Args, ok: bool)
    | VerifyCalled(proposal: Proposal, answer: VerifyAnswer)

  datatype Progress = Progress(log: seq<Event>, trace: CycleTrace)

  /** How a stage ends: go on with this proposal, turn to the next one, or return from the cycle. */
  datatype Flow =
    | Go(p: Progress)
    | Next(p: Progress)
    | Stop(log: seq<Event>, trace: CycleTrace, failed: bool)

  const EMPTY_TRACE := CycleTrace("", 0, None, "", "", map[], [], [], false, [], [], Running)

  /** The trace a cycle starts with. */
  function StartTrace(req: CycleRequest, a: CycleAnswers): CycleTrace
    requires a.newID.Some?
  {
    EMPTY_TRACE.(id := a.newID.value, startedAt := a.startedAt, trigger := req.trigger, target := req.target)
  }

  function Called(p: Progress, e: Event): Progress {
    p.(log := p.log + [e])
  }

  function Checkpoint(p: Progress, ok: bool): Flow {
    var log := p.log + [Saved(p.trace, ok)];
    if ok then Go(p.(log := log)) else Stop(log, p.trace, true)
  }

  function Finish(a: CycleAnswers, p: Progress, status: Status, cause: bool): Flow {
    var t := p.trace.(finishedAt := Some(a.finishedAt), result := status);
    Stop(p.log + [Saved(t, a.savedFinal)], t, cause || !a.savedFinal)
  }

  /** The enabled scopes in order. */
  ghost function ScopeList(policy: PolicyConfig): seq<Scope> {
    var enabled := set s | s in policy.scopes && policy.scopes[s];
    StringsAreComparable(enabled);
    SortedSet(StringLess, enabled)
  }

  /** Names of the operations the planner is shown, in order. */
  ghost function ShownNames(cfg: RunnerConfig): seq<string> {
    StringsAreComparable(ShownSet(cfg));
    SortedSet(StringLess, ShownSet(cfg))
  }

  ghost function ShownSet(cfg: RunnerConfig): set<string> {
    set name | name in cfg.registry && OperationScopesEnabled(cfg.policy, cfg.registry[name])
  }

  lemma ShownNamesAreRegistered(cfg: RunnerConfig)
    ensures forall name :: name in ShownNames(cfg) <==> name in ShownSet(cfg)
  {
    StringsAreComparable(ShownSet(cfg));
    assert forall name :: name in ShownNames(cfg) <==> name in Elements(ShownNames(cfg));
  }

  ghost function Snapshots(registry: Registry, names: seq<string>): seq<OperationSnapshot>
    requires forall n :: n in names ==> n in registry
  {
    seq(|names|, i requires 0 <= i < |names| =>
      OperationSnapshot(registry[names[i]].name, registry[names[i]].description, registry[names[i]].argsSchema))
  }

  ghost function RunCycle(cfg: RunnerConfig, req: CycleRequest, a: CycleAnswers): Flow {
    if !cfg.hasObserver || !cfg.hasAudit || req.trigger == "" || !RegistryValid(cfg.registry) || a.newID.None? then
      Stop([], EMPTY_TRACE, true)
    else
      var t := StartTrace(req, a);
      match Checkpoint(Progress([], t), a.savedInitial)
      case Go(p) => ObserveStage(cfg, a, p)
      case stopped => stopped
  }

  ghost function ObserveStage(cfg: RunnerConfig, a: CycleAnswers, p: Progress): Flow {
    var q := Called(p, ObserveCalled);
    if a.observe.None? then Finish(a, q, ObservationFailed, true)
    else
      var t := q.trace.(observations := SanitizeMapSpec(a.observe.value, []), scopes := ScopeList(cfg.policy));
      match Checkpoint(q.(trace := t), a.savedObservations)
      case Go(p) => AfterObservation(cfg, a, p)
      case stopped => stopped
  }

  ghost function AfterObservation(cfg: RunnerConfig, a: CycleAnswers, p: Progress): Flow {
    if cfg.policy.level == Observe then Finish(a, p, Observed, false)
    else if !cfg.hasPlanner then Finish(a, p, PlannerUnavailable, true)
    else if !cfg.hasExecutor && cfg.policy.level in {Maintain, Autonomous} then Finish(a, p, NoExecutor, true)
    else
      match RetrieveStage(cfg, a, p)
      case Go(p) => PlanStage(cfg, a, p)
      case stopped => stopped
  }

  function RetrieveStage(cfg: RunnerConfig, a: CycleAnswers, p: Progress): Flow {
    if !cfg.hasRetriever then Go(p)
    else
      match a.retrieve
      case QueryFailed => Finish(a, p, RetrievalFailed, true)
      case RetrieveError => Finish(a, Called(p, RetrieveCalled), RetrievalFailed, true)
      case Citations(list) =>
        var q := Called(p, RetrieveCalled);
        Checkpoint(q.(trace := q.trace.(knowledge := q.trace.knowledge + list)), a.savedKnowledge)
  }

  ghost function PlanStage(cfg: RunnerConfig, a: CycleAnswers, p: Progress): Flow {
    ShownNamesAreRegistered(cfg);
    var shown := ShownNames(cfg);
    var t := p.trace.(availableOperations := Snapshots(cfg.registry, shown));
    var q := Called(p.(trace := t), PlanCalled(shown));
    if a.plan.None? then Finish(a, q, PlanningFailed, true)
    else
      match Checkpoint(q.(trace := t.(planningCompleted := true)), a.savedPlan)
      case Go(p) => ProposalStage(cfg, a, p, a.plan.value)
      case stopped => stopped
  }

  function Limit(cfg: RunnerConfig): nat {
    if cfg.maxProposals <= 0 || cfg.maxProposals > HARD_MAX_PROPOSALS then HARD_MAX_PROPOSALS else cfg.maxProposals
  }

  function Kept(cfg: RunnerConfig, plan: seq<Proposal>): seq<Proposal> {
    if |plan| > Limit(cfg) then plan[..Limit(cfg)] else plan
  }

  function ProposalStage(cfg: RunnerConfig, a: CycleAnswers, p: Progress, plan: seq<Proposal>): Flow {
    var q := if |plan| > Limit(cfg) then p.(trace := p.trace.(result := ProposalLimitReached)) else p;
    match HandleFrom(cfg, a, q, Kept(cfg, plan), 0)
    case Stop(log, trace, failed) => Stop(log, trace, failed)
    case other => Finish(a, other.p, FinalStatus(other.p.trace), false)
  }

  function HandleFrom(cfg: RunnerConfig, a: CycleAnswers, p: Progress, proposals: seq<Proposal>, i: nat): (f: Flow)
    requires i <= |proposals|
    decreases |proposals| - i
  {
    if i == |proposals| then Next(p)
    else
      match HandleOne(cfg, a, a.proposal(i), p, proposals[i])
      case Stop(log, trace, failed) => Stop(log, trace, failed)
      case other => HandleFrom(cfg, a, other.p, proposals, i + 1)
  }

  /** The copy of a proposal that is fit for the audit record. */
  function SafeProposal(proposal: Proposal, registry: Registry): Proposal {
    if proposal.operation !in registry then proposal.(args := None)
    else
      match proposal.args
      case None => proposal
      case Some(m) => proposal.(args := Some(SanitizeMapSpec(m, registry[proposal.operation].sensitiveArgs)))
  }

  /** The record a proposal starts with: policy first, then the argument check. */
  function DecisionRecord(cfg: RunnerConfig, proposal: Proposal): ProposalRecord {
    var result := EvaluateProposal(cfg.policy, cfg.registry, proposal);
    var safe := SafeProposal(proposal, cfg.registry);
    if proposal.operation in cfg.registry && result.decision != Deny
      && !cfg.registry[proposal.operation].ValidArgs(proposal.args)
    then ProposalRecord(safe.(args := None), PolicyResult(Deny, ArgumentsDoNotMatch), InvalidArguments, map[], None)
    else ProposalRecord(safe, result, Decided(result.decision), map[], None)
  }

  function HandleOne(cfg: RunnerConfig, a: CycleAnswers, pa: ProposalAnswers, p: Progress, proposal: Proposal): Flow {
    if pa.interrupted then Finish(a, p, Interrupted, true)
    else
      var record := DecisionRecord(cfg, proposal);
      match Checkpoint(p.(trace := p.trace.(proposals := p.trace.proposals + [record])), pa.savedDecision)
      case Go(q) => AfterDecision(cfg, pa, q, proposal, record)
      case other => other
  }

  function AfterDecision(cfg: RunnerConfig, pa: ProposalAnswers, p: Progress, proposal: Proposal,
                         record: ProposalRecord): Flow
  {
    if record.policy.decision in {Deny, ObserveOnly, ProposalOnly} then Next(p)
    else
      match ApprovalStage(cfg, pa, p, proposal, record)
      case Go(q) => ExecuteStage(cfg, pa, q, proposal)
      case other => other
  }

  /** The trace with the last proposal record replaced. */
  function WithLast(t: CycleTrace, record: ProposalRecord): CycleTrace
    requires t.proposals != []
  {
    t.(proposals := t.proposals[|t.proposals| - 1 := record])
  }

  function LastRecord(t: CycleTrace): ProposalRecord
    requires t.proposals != []
  {
    t.proposals[|t.proposals| - 1]
  }

  function WithOutcome(p: Progress, outcome: Outcome): Progress {
    if p.trace.proposals == [] then p
    else p.(trace := WithLast(p.trace, LastRecord(p.trace).(outcome := outcome)))
  }

  /** recordOutcome followed by the continue every caller performs. */
  function RecordOutcome(p: Progress, outcome: Outcome, ok: bool): Flow {
    match Checkpoint(WithOutcome(p, outcome), ok)
    case Go(q) => Next(q)
    case other => other
  }

  function ApprovalStage(cfg: RunnerConfig, pa: ProposalAnswers, p: Progress, proposal: Proposal,
                         record: ProposalRecord): Flow
  {
    if record.policy.decision != ApprovalRequired then Go(p)
    else if !cfg.hasApprovals then
      if !cfg.hasExecutor || !cfg.delegatesApproval then RecordOutcome(p, ApprovalUnavailable, pa.savedOutcome)
      else Checkpoint(WithOutcome(p, ApprovalDelegated), pa.savedDelegation)
    else GateStage(pa, Called(p, ApproveCalled(proposal, pa.approve)))
  }

  /** What the gate's reply leads to. */
  function GateStage(pa: ProposalAnswers, p: Progress): Flow {
    match pa.approve
    case None => RecordOutcome(p, ApprovalCheckFailed, pa.savedOutcome)
    case Some(granted) => if granted then Go(p) else RecordOutcome(p, ApprovalDenied, pa.savedOutcome)
  }

  function ExecuteStage(cfg: RunnerConfig, pa: ProposalAnswers, p: Progress, proposal: Proposal): Flow {
    if proposal.operation !in cfg.registry || !cfg.hasExecutor then
      RecordOutcome(p, ExecutorUnavailable, pa.savedOutcome)
    else
      match Checkpoint(WithOutcome(p, Executing), pa.savedIntent)
      case Go(q) =>
        var name := cfg.registry[proposal.operation].name;
        AfterExecution(cfg, pa, Called(q, ExecuteCalled(name, proposal.args, pa.execute.Some?)), proposal)
      case other => other
  }

  function AfterExecution(cfg: RunnerConfig, pa: ProposalAnswers, p: Progress, proposal: Proposal): Flow {
    match pa.execute
    case None => RecordOutcome(p, ExecutionFailed, pa.savedOutcome)
    case Some(result) => VerifyStage(cfg, pa, WithResult(p, SanitizeMapSpec(result, [])), proposal)
  }

  function WithResult(p: Progress, result: JsonMap): Progress {
    if p.trace.proposals == [] then p
    else p.(trace := WithLast(p.trace, LastRecord(p.trace).(result := result)))
  }

  function VerifiedOutcome(answer: VerifyAnswer): Outcome {
    if answer.failed then VerificationFailed else if answer.verified then Verified else NotVerified
  }

  function VerifyStage(cfg: RunnerConfig, pa: ProposalAnswers, p: Progress, proposal: Proposal): Flow {
    if !cfg.hasVerifier then RecordOutcome(p, VerificationUnavailable, pa.savedOutcome)
    else
      var q := WithOutcome(Called(p, VerifyCalled(proposal, pa.verify)), VerifiedOutcome(pa.verify));
      match Checkpoint(WithVerified(q, pa.verify.verified), pa.savedOutcome)
      case Go(q) => Next(q)
      case other => other
  }

  function WithVerified(p: Progress, verified: bool): Progress {
    if p.trace.proposals == [] then p
    else p.(trace := WithLast(p.trace, LastRecord(p.trace).(verified := Some(verified))))
  }

  predicate AnyOutcome(t: CycleTrace, outcomes: set<Outcome>) {
    exists i | 0 <= i < |t.proposals| :: t.proposals[i].outcome in outcomes
  }

  const ATTENTION: set<Outcome> := {
    InvalidArguments, ExecutionFailed, VerificationFailed, NotVerified, VerificationUnavailable,
    ExecutorUnavailable, Decided(Deny), ApprovalDenied
  }

  const AWAITING_APPROVAL: set<Outcome> := { ApprovalUnavailable, ApprovalCheckFailed }

  /** The status the cycle closes with, read off the outcomes. */
  function FinalStatus(t: CycleTrace): Status {
    if t.result == ProposalLimitReached then ProposalLimitReached
    else if AnyOutcome(t, ATTENTION) then NeedsAttention
    else if AnyOutcome(t, AWAITING_APPROVAL) then OwnerApprovalRequired
    else if AnyOutcome(t, {Decided(ProposalOnly)}) then ProposalReady
    else if AnyOutcome(t, {Verified}) then CycleVerified
    else Completed
  }
}
