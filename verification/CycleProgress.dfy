/**
 What a cycle brings about when nothing stands in its way: the approved operation is executed and
 verified, every proposal ends with the outcome its answers call for, and the last snapshot tells the
 whole cycle.
 */
module CycleProgress {
  import opened Wrappers
  import opened Sorting
  import opened Sanitize
  import opened Policy
  import opened Trace
  import opened Cycle
  import opened CycleHistory
  import opened CycleTheorems

  // ---------- the conditions, in terms of configuration and answers ----------

  /** Everything the level asks for is configured. */
  predicate Complete(cfg: RunnerConfig) {
    cfg.hasObserver && cfg.hasAudit && cfg.hasPlanner && RegistryValid(cfg.registry)
    && cfg.policy.level in {Assist, Maintain, Autonomous}
    && (cfg.policy.level != Assist ==> cfg.hasExecutor)
  }

  /** Observation, retrieval and planning answer, and every Save of the cycle itself succeeds. */
  predicate PlanArrives(cfg: RunnerConfig, req: CycleRequest, a: CycleAnswers) {
    req.trigger != "" && a.newID.Some? && a.observe.Some? && a.plan.Some?
    && (cfg.hasRetriever ==> a.retrieve.Citations?)
    && a.savedInitial && a.savedObservations && a.savedKnowledge && a.savedPlan && a.savedFinal
  }

  /** Nor is the first proposal cut short. */
  predicate Undisturbed(cfg: RunnerConfig, req: CycleRequest, a: CycleAnswers) {
    PlanArrives(cfg, req, a) && SavesAll(a.proposal(0))
  }

  predicate SavesAll(pa: ProposalAnswers) {
    !pa.interrupted && pa.savedDecision && pa.savedDelegation && pa.savedIntent && pa.savedOutcome
  }

  /** The host is given the operation: its arguments fit, and policy allows it, the owner approved it, or
      approval is left to the host. */
  predicate Released(cfg: RunnerConfig, pa: ProposalAnswers, p: Proposal) {
    var decision := EvaluateProposal(cfg.policy, cfg.registry, p).decision;
    p.operation in cfg.registry && cfg.registry[p.operation].ValidArgs(p.args)
    && (decision == Allow
        || (decision == ApprovalRequired
          && if cfg.hasApprovals then pa.approve == Some(true) else cfg.delegatesApproval))
  }

  /** The outcome an executed operation ends with. */
  function ExecutedOutcome(cfg: RunnerConfig, pa: ProposalAnswers): Outcome {
    if pa.execute.None? then ExecutionFailed
    else if !cfg.hasVerifier then VerificationUnavailable
    else if pa.verify.failed then VerificationFailed
    else if pa.verify == VerifyAnswer(true, false) then Verified
    else NotVerified
  }

  /** The outcome a proposal ends with that is not executed. */
  function KeptBackOutcome(cfg: RunnerConfig, pa: ProposalAnswers, p: Proposal): Outcome {
    var decision := EvaluateProposal(cfg.policy, cfg.registry, p).decision;
    if decision != Deny && p.operation in cfg.registry && !cfg.registry[p.operation].ValidArgs(p.args) then
      InvalidArguments
    else if decision != ApprovalRequired then Decided(decision)
    else if !cfg.hasApprovals then ApprovalUnavailable
    else if pa.approve.None? then ApprovalCheckFailed
    else ApprovalDenied
  }

  function FinalOutcome(cfg: RunnerConfig, pa: ProposalAnswers, p: Proposal): Outcome {
    if Released(cfg, pa, p) then ExecutedOutcome(cfg, pa) else KeptBackOutcome(cfg, pa, p)
  }

  /** The status of a cycle whose one proposal ended so; more: the plan held further proposals. */
  function StatusFor(o: Outcome, more: bool): Status {
    if more then ProposalLimitReached
    else
      match o
      case Verified => CycleVerified
      case Decided(ProposalOnly) => ProposalReady
      case ApprovalUnavailable => OwnerApprovalRequired
      case ApprovalCheckFailed => OwnerApprovalRequired
      case _ => NeedsAttention
  }

  /** The execution stands in the log at e, and when it succeeded the verification directly behind it. */
  predicate ExecutedAt(cfg: RunnerConfig, pa: ProposalAnswers, p: Proposal, log: seq<Event>, e: nat) {
    e < |log| && log[e] == ExecuteCalled(p.operation, p.args, pa.execute.Some?)
    && (pa.execute.Some? && cfg.hasVerifier ==> e + 1 < |log| && log[e + 1] == VerifyCalled(p, pa.verify))
  }

  lemma StillExecutedAt(cfg: RunnerConfig, pa: ProposalAnswers, p: Proposal, log: seq<Event>, e: nat, more: seq<Event>)
    requires ExecutedAt(cfg, pa, p, log, e)
    ensures ExecutedAt(cfg, pa, p, log + more, e)
  {
  }

  // ---------- up to the proposals ----------

  /** What the trace knows before the plan. */
  ghost predicate KnowsTheCycle(cfg: RunnerConfig, req: CycleRequest, a: CycleAnswers, t: CycleTrace)
    requires a.newID.Some? && a.observe.Some?
  {
    t.id == a.newID.value && t.startedAt == a.startedAt
    && t.trigger == req.trigger && t.target == req.target
    && RedactedCopy(JObject(a.observe.value), JObject(t.observations), [])
    && forall s :: s in t.scopes <==> cfg.policy.Enabled(s)
  }

  /** The trace once the plan is in: everything but the proposals, the status and the finish time. */
  ghost predicate TellsTheCycle(cfg: RunnerConfig, req: CycleRequest, a: CycleAnswers, t: CycleTrace)
    requires a.newID.Some? && a.observe.Some?
  {
    KnowsTheCycle(cfg, req, a, t)
    && t.knowledge == (if cfg.hasRetriever && a.retrieve.Citations? then a.retrieve.list else [])
    && t.planningCompleted
    && ShowsOperations(cfg, t.availableOperations)
  }

  /** The fully granted operations, each as it is registered. */
  ghost predicate ShowsOperations(cfg: RunnerConfig, shown: seq<OperationSnapshot>) {
    (forall x :: x in shown ==>
       exists name :: name in cfg.registry && OperationScopesEnabled(cfg.policy, cfg.registry[name])
                      && x == SnapshotOf(cfg.registry[name]))
    && forall name | name in cfg.registry && OperationScopesEnabled(cfg.policy, cfg.registry[name]) ::
         SnapshotOf(cfg.registry[name]) in shown
  }

  function SnapshotOf(spec: OperationSpec): OperationSnapshot {
    OperationSnapshot(spec.name, spec.description, spec.argsSchema)
  }

  lemma ShownAreGranted(cfg: RunnerConfig)
    ensures forall name :: name in ShownNames(cfg) ==> name in cfg.registry
    ensures ShowsOperations(cfg, Snapshots(cfg.registry, ShownNames(cfg)))
  {
    ShownNamesAreRegistered(cfg);
    var names := ShownNames(cfg);
    var shown := Snapshots(cfg.registry, names);
    forall x | x in shown
      ensures exists name :: name in cfg.registry && OperationScopesEnabled(cfg.policy, cfg.registry[name])
                             && x == SnapshotOf(cfg.registry[name])
    {
      var i :| 0 <= i < |shown| && shown[i] == x;
      assert names[i] in names && x == SnapshotOf(cfg.registry[names[i]]);
    }
    forall name | name in cfg.registry && OperationScopesEnabled(cfg.policy, cfg.registry[name])
      ensures SnapshotOf(cfg.registry[name]) in shown
    {
      assert name in ShownSet(cfg);
      var i :| 0 <= i < |names| && names[i] == name;
      assert shown[i] == SnapshotOf(cfg.registry[name]);
    }
  }

  lemma ScopesAreEnabled(policy: PolicyConfig)
    ensures forall s :: s in ScopeList(policy) <==> policy.Enabled(s)
  {
    var enabled := set s | s in policy.scopes && policy.scopes[s];
    StringsAreComparable(enabled);
    assert forall s :: s in ScopeList(policy) <==> s in Elements(ScopeList(policy));
  }

  /** No proposal yet, and nothing executed. */
  predicate Unproposed(p: Progress) {
    p.trace.proposals == [] && p.trace.finishedAt.None? && CountExecutions(p.log) == 0
  }

  predicate Planning(p: Progress) {
    Unproposed(p) && p.trace.result == Running
  }

  lemma CheckpointGoes(p: Progress)
    ensures Checkpoint(p, true) == Go(Progress(p.log + [Saved(p.trace, true)], p.trace))
    ensures CountExecutions(p.log + [Saved(p.trace, true)]) == CountExecutions(p.log)
  {
    LastSaveOfSnoc(p.log, Saved(p.trace, true));
  }

  lemma CycleStarts(cfg: RunnerConfig, req: CycleRequest, a: CycleAnswers) returns (r: Progress)
    requires Complete(cfg) && PlanArrives(cfg, req, a)
    ensures Planning(r) && r.trace == StartTrace(req, a)
    ensures RunCycle(cfg, req, a) == ObserveStage(cfg, a, r)
  {
    CheckpointGoes(Progress([], StartTrace(req, a)));
    r := Checkpoint(Progress([], StartTrace(req, a)), true).p;
  }

  lemma CycleObserves(cfg: RunnerConfig, req: CycleRequest, a: CycleAnswers, p: Progress) returns (r: Progress)
    requires Complete(cfg) && PlanArrives(cfg, req, a) && Planning(p) && p.trace == StartTrace(req, a)
    ensures Planning(r) && KnowsTheCycle(cfg, req, a, r.trace) && r.trace.knowledge == []
    ensures ObserveStage(cfg, a, p) == AfterObservation(cfg, a, r)
  {
    var q := Called(p, ObserveCalled);
    LastSaveOfSnoc(p.log, ObserveCalled);
    ScopesAreEnabled(cfg.policy);
    SanitizedMapIsRedactedCopy(a.observe.value, []);
    var t := q.trace.(observations := SanitizeMapSpec(a.observe.value, []), scopes := ScopeList(cfg.policy));
    CheckpointGoes(q.(trace := t));
    r := Checkpoint(q.(trace := t), true).p;
  }

  lemma CycleRetrieves(cfg: RunnerConfig, req: CycleRequest, a: CycleAnswers, p: Progress) returns (r: Progress)
    requires Complete(cfg) && PlanArrives(cfg, req, a)
    requires Planning(p) && KnowsTheCycle(cfg, req, a, p.trace) && p.trace.knowledge == []
    ensures Planning(r) && KnowsTheCycle(cfg, req, a, r.trace)
    ensures r.trace.knowledge == if cfg.hasRetriever && a.retrieve.Citations? then a.retrieve.list else []
    ensures AfterObservation(cfg, a, p) == PlanStage(cfg, a, r)
  {
    r := p;
    if cfg.hasRetriever {
      var q := Called(p, RetrieveCalled);
      LastSaveOfSnoc(p.log, RetrieveCalled);
      var s := q.(trace := q.trace.(knowledge := q.trace.knowledge + a.retrieve.list));
      CheckpointGoes(s);
      r := Checkpoint(s, true).p;
    }
  }

  lemma PlanStageGoes(cfg: RunnerConfig, a: CycleAnswers, p: Progress) returns (r: Progress)
    requires a.plan.Some? && a.savedPlan
    ensures PlanStage(cfg, a, p) == ProposalStage(cfg, a, r, a.plan.value)
    ensures forall name :: name in ShownNames(cfg) ==> name in cfg.registry
    ensures r.trace == p.trace.(
      availableOperations := Snapshots(cfg.registry, ShownNames(cfg)), planningCompleted := true)
    ensures CountExecutions(r.log) == CountExecutions(p.log)
  {
    ShownNamesAreRegistered(cfg);
    var shown := ShownNames(cfg);
    var t := p.trace.(availableOperations := Snapshots(cfg.registry, shown));
    var q := Called(p.(trace := t), PlanCalled(shown));
    LastSaveOfSnoc(p.log, PlanCalled(shown));
    var s := q.(trace := t.(planningCompleted := true));
    CheckpointGoes(s);
    r := Checkpoint(s, true).p;
  }

  lemma CyclePlans(cfg: RunnerConfig, req: CycleRequest, a: CycleAnswers, p: Progress) returns (r: Progress)
    requires PlanArrives(cfg, req, a) && Planning(p) && KnowsTheCycle(cfg, req, a, p.trace)
    requires p.trace.knowledge == if cfg.hasRetriever && a.retrieve.Citations? then a.retrieve.list else []
    ensures Planning(r) && TellsTheCycle(cfg, req, a, r.trace)
    ensures PlanStage(cfg, a, p) == ProposalStage(cfg, a, r, a.plan.value)
  {
    ShownAreGranted(cfg);
    r := PlanStageGoes(cfg, a, p);
  }

  lemma ProposalsAreReached(cfg: RunnerConfig, req: CycleRequest, a: CycleAnswers) returns (r: Progress)
    requires Complete(cfg) && PlanArrives(cfg, req, a)
    ensures Planning(r) && TellsTheCycle(cfg, req, a, r.trace)
    ensures RunCycle(cfg, req, a) == ProposalStage(cfg, a, r, a.plan.value)
  {
    r := CycleStarts(cfg, req, a);
    r := CycleObserves(cfg, req, a, r);
    r := CycleRetrieves(cfg, req, a, r);
    r := CyclePlans(cfg, req, a, r);
  }

  // ---------- one proposal ----------

  /** The trace with this one record. */
  function WithRecord(t: CycleTrace, record: ProposalRecord): CycleTrace {
    t.(proposals := [record])
  }

  lemma OutcomeIsRecorded(log: seq<Event>, t: CycleTrace, record: ProposalRecord, o: Outcome)
    ensures var after := WithRecord(t, record.(outcome := o));
      var more := log + [Saved(after, true)];
      RecordOutcome(Progress(log, WithRecord(t, record)), o, true) == Next(Progress(more, after))
      && WithOutcome(Progress(log, WithRecord(t, record)), o) == Progress(log, after)
      && CountExecutions(more) == CountExecutions(log)
  {
    var after := WithRecord(t, record.(outcome := o));
    assert [record][0 := record.(outcome := o)] == [record.(outcome := o)];
    CheckpointGoes(Progress(log, after));
  }

  lemma VerdictIsRecorded(cfg: RunnerConfig, pa: ProposalAnswers, log: seq<Event>, t: CycleTrace,
                          record: ProposalRecord, p: Proposal)
    requires SavesAll(pa) && cfg.hasVerifier && pa.execute.Some?
    ensures
      var judged := record.(outcome := ExecutedOutcome(cfg, pa), verified := Some(pa.verify.verified));
      var after := WithRecord(t, judged);
      var more := log + [VerifyCalled(p, pa.verify)] + [Saved(after, true)];
      VerifyStage(cfg, pa, Progress(log, WithRecord(t, record)), p) == Next(Progress(more, after))
      && CountExecutions(more) == CountExecutions(log)
  {
    var e := VerifyCalled(p, pa.verify);
    var o := ExecutedOutcome(cfg, pa);
    assert VerifiedOutcome(pa.verify) == o;
    OutcomeIsRecorded(log + [e], t, record, o);
    var judged := record.(outcome := o);
    var after := WithRecord(t, judged.(verified := Some(pa.verify.verified)));
    assert [judged][0 := judged.(verified := Some(pa.verify.verified))] == after.proposals;
    LastSaveOfSnoc(log, e);
    CheckpointGoes(Progress(log + [e], after));
  }

  /** The record an executed operation ends with. */
  function ExecutedRecord(cfg: RunnerConfig, pa: ProposalAnswers, record: ProposalRecord): ProposalRecord {
    record.(
      outcome := ExecutedOutcome(cfg, pa),
      result := if pa.execute.Some? then SanitizeMapSpec(pa.execute.value, []) else record.result,
      verified := if pa.execute.Some? && cfg.hasVerifier then Some(pa.verify.verified) else record.verified)
  }

  lemma OperationIsExecuted(cfg: RunnerConfig, pa: ProposalAnswers, log: seq<Event>, t: CycleTrace,
                            record: ProposalRecord, p: Proposal) returns (q: Progress, e: nat)
    requires RegistryValid(cfg.registry) && cfg.hasExecutor && SavesAll(pa) && p.operation in cfg.registry
    ensures ExecuteStage(cfg, pa, Progress(log, WithRecord(t, record)), p) == Next(q)
    ensures q.trace == WithRecord(t, ExecutedRecord(cfg, pa, record))
    ensures ExecutedAt(cfg, pa, p, q.log, e)
  {
    assert SpecValid(p.operation, cfg.registry[p.operation]);
    var executing := record.(outcome := Executing);
    OutcomeIsRecorded(log, t, record, Executing);
    CheckpointGoes(Progress(log, WithRecord(t, executing)));
    var saved := log + [Saved(WithRecord(t, executing), true)];
    var call := ExecuteCalled(p.operation, p.args, pa.execute.Some?);
    var called := saved + [call];
    e := |saved|;
    if pa.execute.None? {
      OutcomeIsRecorded(called, t, executing, ExecutionFailed);
      q := RecordOutcome(Progress(called, WithRecord(t, executing)), ExecutionFailed, true).p;
    } else {
      var result := SanitizeMapSpec(pa.execute.value, []);
      var executed := executing.(result := result);
      assert [executing][0 := executed] == [executed];
      assert WithResult(Progress(called, WithRecord(t, executing)), result) ==
        Progress(called, WithRecord(t, executed));
      q := AfterTheExecution(cfg, pa, called, t, executed, p, e);
    }
  }

  /** The verdict, or the note that nobody can give one. */
  lemma AfterTheExecution(cfg: RunnerConfig, pa: ProposalAnswers, log: seq<Event>, t: CycleTrace,
                          record: ProposalRecord, p: Proposal, e: nat) returns (q: Progress)
    requires SavesAll(pa) && pa.execute.Some?
    requires |log| == e + 1 && log[e] == ExecuteCalled(p.operation, p.args, true)
    ensures VerifyStage(cfg, pa, Progress(log, WithRecord(t, record)), p) == Next(q)
    ensures q.trace == WithRecord(t, record.(
      outcome := ExecutedOutcome(cfg, pa),
      verified := if cfg.hasVerifier then Some(pa.verify.verified) else record.verified))
    ensures ExecutedAt(cfg, pa, p, q.log, e)
  {
    if cfg.hasVerifier {
      VerdictIsRecorded(cfg, pa, log, t, record, p);
    } else {
      OutcomeIsRecorded(log, t, record, VerificationUnavailable);
    }
    q := VerifyStage(cfg, pa, Progress(log, WithRecord(t, record)), p).p;
  }

  /** Released proposals pass the approval stage; the record may say "delegated" by then. */
  lemma ReleasedPasses(cfg: RunnerConfig, pa: ProposalAnswers, log: seq<Event>, t: CycleTrace, record: ProposalRecord,
                      p: Proposal) returns (more: seq<Event>, o: Outcome)
    requires Released(cfg, pa, p) && SavesAll(pa) && cfg.hasExecutor
    requires record.policy == EvaluateProposal(cfg.policy, cfg.registry, p)
    ensures ApprovalStage(cfg, pa, Progress(log, WithRecord(t, record)), p, record)
         == Go(Progress(log + more, WithRecord(t, record.(outcome := o))))
  {
    more, o := [], record.outcome;
    assert log + [] == log && record.(outcome := o) == record;
    if record.policy.decision == ApprovalRequired {
      if cfg.hasApprovals {
        more := [ApproveCalled(p, pa.approve)];
      } else {
        o := ApprovalDelegated;
        OutcomeIsRecorded(log, t, record, o);
        more := [Saved(WithRecord(t, record.(outcome := o)), true)];
      }
    }
  }

  /** What policy allows or wants approved, and the approval stage keeps back. */
  lemma KeptBack(cfg: RunnerConfig, pa: ProposalAnswers, log: seq<Event>, t: CycleTrace, record: ProposalRecord,
                 p: Proposal) returns (q: Progress)
    requires SavesAll(pa) && !Released(cfg, pa, p) && cfg.hasExecutor
    requires p.operation in cfg.registry && cfg.registry[p.operation].ValidArgs(p.args)
    requires record.policy == EvaluateProposal(cfg.policy, cfg.registry, p)
    requires record.policy.decision == ApprovalRequired
    ensures ApprovalStage(cfg, pa, Progress(log, WithRecord(t, record)), p, record) == Next(q)
    ensures q.trace == WithRecord(t, record.(outcome := KeptBackOutcome(cfg, pa, p)))
    ensures CountExecutions(q.log) == CountExecutions(log)
  {
    var o := KeptBackOutcome(cfg, pa, p);
    if cfg.hasApprovals {
      LastSaveOfSnoc(log, ApproveCalled(p, pa.approve));
      OutcomeIsRecorded(log + [ApproveCalled(p, pa.approve)], t, record, o);
    } else {
      OutcomeIsRecorded(log, t, record, o);
    }
    q := ApprovalStage(cfg, pa, Progress(log, WithRecord(t, record)), p, record).p;
  }

  /** The record the proposal ends with. */
  function FinalRecord(cfg: RunnerConfig, pa: ProposalAnswers, p: Proposal): ProposalRecord {
    var start := DecisionRecord(cfg, p);
    if Released(cfg, pa, p) then ExecutedRecord(cfg, pa, start) else start.(outcome := KeptBackOutcome(cfg, pa, p))
  }

  lemma LevelDecides(cfg: RunnerConfig, p: Proposal)
    requires Complete(cfg)
    ensures var decision := EvaluateProposal(cfg.policy, cfg.registry, p).decision;
      (decision != Deny ==> p.operation in cfg.registry)
      && decision != ObserveOnly
      && (decision == ProposalOnly <==> decision != Deny && cfg.policy.level == Assist)
  {
    DecisionsAreDetermined(cfg.policy, cfg.registry, p);
    ShownExactlyWhenNotDenied(cfg.policy, cfg.registry, p);
  }

  lemma ReleasedIsHandled(cfg: RunnerConfig, a: CycleAnswers, pa: ProposalAnswers, p0: Progress, p: Proposal)
    returns (q: Progress, e: nat)
    requires Complete(cfg) && SavesAll(pa) && Unproposed(p0) && Released(cfg, pa, p)
    ensures HandleOne(cfg, a, pa, p0, p) == Next(q)
    ensures q.trace == WithRecord(p0.trace, FinalRecord(cfg, pa, p)) && ExecutedAt(cfg, pa, p, q.log, e)
  {
    LevelDecides(cfg, p);
    var record := DecisionRecord(cfg, p);
    var t := p0.trace;
    assert [] + [record] == [record];
    CheckpointGoes(Progress(p0.log, WithRecord(t, record)));
    var log := p0.log + [Saved(WithRecord(t, record), true)];
    var more, o := ReleasedPasses(cfg, pa, log, t, record, p);
    q, e := OperationIsExecuted(cfg, pa, log + more, t, record.(outcome := o), p);
    assert ExecutedRecord(cfg, pa, record.(outcome := o)) == ExecutedRecord(cfg, pa, record);
  }

  lemma OthersAreKeptBack(cfg: RunnerConfig, a: CycleAnswers, pa: ProposalAnswers, p0: Progress, p: Proposal)
    returns (q: Progress)
    requires Complete(cfg) && SavesAll(pa) && Unproposed(p0) && !Released(cfg, pa, p)
    ensures HandleOne(cfg, a, pa, p0, p) == Next(q)
    ensures q.trace == WithRecord(p0.trace, FinalRecord(cfg, pa, p)) && CountExecutions(q.log) == 0
  {
    LevelDecides(cfg, p);
    var record := DecisionRecord(cfg, p);
    var t := p0.trace;
    assert [] + [record] == [record];
    CheckpointGoes(Progress(p0.log, WithRecord(t, record)));
    var log := p0.log + [Saved(WithRecord(t, record), true)];
    q := Progress(log, WithRecord(t, record));
    if record.policy.decision == ApprovalRequired {
      q := KeptBack(cfg, pa, log, t, record, p);
    } else {
      assert record.(outcome := KeptBackOutcome(cfg, pa, p)) == record;
    }
  }

  // ---------- the end ----------

  lemma StatusOfOne(t: CycleTrace, record: ProposalRecord, more: bool)
    requires record.outcome
      !in {Decided(Allow), Decided(ApprovalRequired), Decided(ObserveOnly), ApprovalDelegated, Executing}
    requires t.result == if more then ProposalLimitReached else Running
    ensures FinalStatus(WithRecord(t, record)) == StatusFor(record.outcome, more)
  {
    var s := WithRecord(t, record);
    assert s.proposals[0] == record;
    assert forall outcomes :: AnyOutcome(s, outcomes) <==> record.outcome in outcomes;
  }

  lemma FinalOutcomeIsFinal(cfg: RunnerConfig, pa: ProposalAnswers, p: Proposal)
    requires Complete(cfg)
    ensures FinalRecord(cfg, pa, p).outcome == FinalOutcome(cfg, pa, p)
    ensures FinalOutcome(cfg, pa, p)
      !in {Decided(Allow), Decided(ApprovalRequired), Decided(ObserveOnly), ApprovalDelegated, Executing}
  {
    LevelDecides(cfg, p);
  }

  /** The trace of a finished cycle with one proposal. */
  function FinishedTrace(a: CycleAnswers, t: CycleTrace, record: ProposalRecord, status: Status): CycleTrace {
    t.(proposals := [record], finishedAt := Some(a.finishedAt), result := status)
  }

  /** What the record says about the proposal and what became of it. */
  ghost predicate TellsTheProposal(cfg: RunnerConfig, pa: ProposalAnswers, p: Proposal, r: ProposalRecord) {
    var outcome := FinalOutcome(cfg, pa, p);
    var executed := Released(cfg, pa, p) && pa.execute.Some?;
    r.outcome == outcome
    && r.proposal.operation == p.operation
    && r.policy == (if outcome == InvalidArguments then PolicyResult(Deny, ArgumentsDoNotMatch)
                    else EvaluateProposal(cfg.policy, cfg.registry, p))
    && (r.proposal.args.Some? <==> p.args.Some? && p.operation in cfg.registry && outcome != InvalidArguments)
    && (r.proposal.args.Some? ==>
          RedactedCopy(JObject(p.args.value), JObject(r.proposal.args.value), cfg.registry[p.operation].sensitiveArgs))
    && RedactedCopy(JObject(if executed then pa.execute.value else map[]), JObject(r.result), [])
    && r.verified == (if executed && cfg.hasVerifier then Some(pa.verify.verified) else None)
  }

  lemma FinalRecordTells(cfg: RunnerConfig, pa: ProposalAnswers, p: Proposal)
    requires Complete(cfg)
    ensures TellsTheProposal(cfg, pa, p, FinalRecord(cfg, pa, p))
  {
    FinalOutcomeIsFinal(cfg, pa, p);
    LevelDecides(cfg, p);
    SafeProposalTells(cfg, p);
    ResultTells(pa.execute);
  }

  lemma SafeProposalTells(cfg: RunnerConfig, p: Proposal)
    ensures var safe := SafeProposal(p, cfg.registry);
      safe.operation == p.operation
      && (safe.args.Some? <==> p.args.Some? && p.operation in cfg.registry)
      && (safe.args.Some? ==>
            RedactedCopy(JObject(p.args.value), JObject(safe.args.value), cfg.registry[p.operation].sensitiveArgs))
  {
    if p.args.Some? && p.operation in cfg.registry {
      SanitizedMapIsRedactedCopy(p.args.value, cfg.registry[p.operation].sensitiveArgs);
    }
  }

  lemma ResultTells(result: Option<JsonMap>)
    ensures result.Some? ==> RedactedCopy(JObject(result.value), JObject(SanitizeMapSpec(result.value, [])), [])
    ensures RedactedCopy(JObject(map[]), JObject(map[]), [])
  {
    NothingIsItsOwnCopy();
    if result.Some? {
      SanitizedMapIsRedactedCopy(result.value, []);
    }
  }

  lemma NothingIsItsOwnCopy()
    ensures RedactedCopy(JObject(map[]), JObject(map[]), [])
  {
  }

  lemma NoneExecuted(log: seq<Event>)
    requires CountExecutions(log) == 0
    ensures forall n | 0 <= n < |log| :: !log[n].ExecuteCalled?
  {
    if |log| > 0 {
      NoneExecuted(log[..|log| - 1]);
      assert forall n | 0 <= n < |log| - 1 :: log[n] == log[..|log| - 1][n];
    }
  }

  lemma FinishSucceeds(a: CycleAnswers, q: Progress, status: Status)
    requires a.savedFinal
    ensures var t := q.trace.(finishedAt := Some(a.finishedAt), result := status);
      Finish(a, q, status, false) == Stop(q.log + [Saved(t, true)], t, false)
      && CountExecutions(q.log + [Saved(t, true)]) == CountExecutions(q.log)
  {
    LastSaveOfSnoc(q.log, Saved(q.trace.(finishedAt := Some(a.finishedAt), result := status), true));
  }

  lemma HandledInTheEnd(cfg: RunnerConfig, a: CycleAnswers, p0: Progress, p: Proposal) returns (q: Progress, e: nat)
    requires Complete(cfg) && SavesAll(a.proposal(0)) && Unproposed(p0)
    ensures HandleOne(cfg, a, a.proposal(0), p0, p) == Next(q)
    ensures q.trace == WithRecord(p0.trace, FinalRecord(cfg, a.proposal(0), p))
    ensures if Released(cfg, a.proposal(0), p) then ExecutedAt(cfg, a.proposal(0), p, q.log, e)
            else CountExecutions(q.log) == 0
  {
    e := 0;
    if Released(cfg, a.proposal(0), p) {
      q, e := ReleasedIsHandled(cfg, a, a.proposal(0), p0, p);
    } else {
      q := OthersAreKeptBack(cfg, a, a.proposal(0), p0, p);
    }
  }

  /** From the plan to the finishing Save. */
  lemma ProposalStageEnds(cfg: RunnerConfig, a: CycleAnswers, p0: Progress) returns (q: Progress, e: nat)
    requires Complete(cfg) && SavesAll(a.proposal(0)) && Planning(p0)
    requires a.plan.Some? && a.plan.value != []
    ensures var p, pa, more := a.plan.value[0], a.proposal(0), |a.plan.value| > 1;
      ProposalStage(cfg, a, p0, a.plan.value) == Finish(a, q, StatusFor(FinalOutcome(cfg, pa, p), more), false)
      && q.trace == WithRecord(p0.trace, FinalRecord(cfg, pa, p)).(result := q.trace.result)
      && if Released(cfg, pa, p) then ExecutedAt(cfg, pa, p, q.log, e) else CountExecutions(q.log) == 0
  {
    var plan, p, pa := a.plan.value, a.plan.value[0], a.proposal(0);
    var more := |plan| > 1;
    assert Limit(cfg) == 1;
    assert Kept(cfg, plan) == [p];
    var start := if more then p0.(trace := p0.trace.(result := ProposalLimitReached)) else p0;
    q, e := HandledInTheEnd(cfg, a, start, p);
    FinalOutcomeIsFinal(cfg, pa, p);
    StatusOfOne(start.trace, FinalRecord(cfg, pa, p), more);
    assert HandleFrom(cfg, a, start, Kept(cfg, plan), 0) == Next(q);
  }

  /** A complete, undisturbed cycle with a plan succeeds. Its executor is called exactly when the first
      proposal is released, with that operation and those arguments, and the verifier directly after a
      successful call; and the last snapshot holds the whole cycle, the proposal with its outcome and the
      status that belongs to it. */
  lemma UndisturbedCycle(cfg: RunnerConfig, req: CycleRequest, a: CycleAnswers)
    returns (t: CycleTrace, r: ProposalRecord, e: nat)
    requires Complete(cfg) && Undisturbed(cfg, req, a) && a.plan.value != []
    ensures RunCycle(cfg, req, a).Stop? && !RunCycle(cfg, req, a).failed
    ensures var p, pa, log := a.plan.value[0], a.proposal(0), LogOf(RunCycle(cfg, req, a));
      if Released(cfg, pa, p) then ExecutedAt(cfg, pa, p, log, e)
      else forall n | 0 <= n < |log| :: !log[n].ExecuteCalled?
    ensures TellsTheCycle(cfg, req, a, t) && TellsTheProposal(cfg, a.proposal(0), a.plan.value[0], r)
    ensures EndsIn(LogOf(RunCycle(cfg, req, a)), FinishedTrace(a, t, r, StatusFor(r.outcome, |a.plan.value| > 1)))
  {
    var p, pa := a.plan.value[0], a.proposal(0);
    var p0 := ProposalsAreReached(cfg, req, a);
    var q;
    q, e := ProposalStageEnds(cfg, a, p0);
    t, r := p0.trace, FinalRecord(cfg, pa, p);
    FinalRecordTells(cfg, pa, p);
    FinishSucceeds(a, q, StatusFor(r.outcome, |a.plan.value| > 1));
    var last := Saved(FinishedTrace(a, t, r, StatusFor(r.outcome, |a.plan.value| > 1)), true);
    if Released(cfg, pa, p) {
      StillExecutedAt(cfg, pa, p, q.log, e, [last]);
    } else {
      NoneExecuted(q.log + [last]);
    }
  }

  // ---------- cycles that end before a proposal ----------

  /** The log ends with the finishing Save of a cycle that executed nothing. */
  ghost predicate EndsWith(cfg: RunnerConfig, req: CycleRequest, a: CycleAnswers, status: Status, failed: bool) {
    var f := RunCycle(cfg, req, a);
    f.Stop? && f.failed == failed
    && f.log != [] && f.log[|f.log| - 1].Saved? && f.log[|f.log| - 1].ok
    && f.log[|f.log| - 1].snapshot.result == status
    && f.log[|f.log| - 1].snapshot.finishedAt == Some(a.finishedAt)
    && f.log[|f.log| - 1].snapshot.proposals == []
    && forall n | 0 <= n < |f.log| :: !f.log[n].ExecuteCalled?
  }

  lemma FinishedEarly(cfg: RunnerConfig, req: CycleRequest, a: CycleAnswers, p: Progress, status: Status, cause: bool)
    requires a.savedFinal && Unproposed(p) && RunCycle(cfg, req, a) == Finish(a, p, status, cause)
    ensures EndsWith(cfg, req, a, status, cause)
  {
    var last := Saved(p.trace.(finishedAt := Some(a.finishedAt), result := status), true);
    LastSaveOfSnoc(p.log, last);
    NoneExecuted(p.log + [last]);
  }

  /** The first part of a cycle: started and observed. */
  predicate Observing(cfg: RunnerConfig, req: CycleRequest, a: CycleAnswers) {
    cfg.hasObserver && cfg.hasAudit && RegistryValid(cfg.registry)
    && req.trigger != "" && a.newID.Some? && a.savedInitial && a.savedFinal
  }

  lemma StartsObserving(cfg: RunnerConfig, req: CycleRequest, a: CycleAnswers) returns (r: Progress)
    requires Observing(cfg, req, a)
    ensures Planning(r) && r.trace == StartTrace(req, a) && RunCycle(cfg, req, a) == ObserveStage(cfg, a, r)
  {
    CheckpointGoes(Progress([], StartTrace(req, a)));
    r := Checkpoint(Progress([], StartTrace(req, a)), true).p;
  }

  lemma FailedObservationEnds(cfg: RunnerConfig, req: CycleRequest, a: CycleAnswers)
    requires Observing(cfg, req, a) && a.observe.None?
    ensures EndsWith(cfg, req, a, ObservationFailed, true)
  {
    var p := StartsObserving(cfg, req, a);
    LastSaveOfSnoc(p.log, ObserveCalled);
    FinishedEarly(cfg, req, a, Called(p, ObserveCalled), ObservationFailed, true);
  }

  lemma HasObserved(cfg: RunnerConfig, req: CycleRequest, a: CycleAnswers) returns (r: Progress)
    requires Observing(cfg, req, a) && a.observe.Some? && a.savedObservations
    ensures Planning(r) && RunCycle(cfg, req, a) == AfterObservation(cfg, a, r)
  {
    var p := StartsObserving(cfg, req, a);
    LastSaveOfSnoc(p.log, ObserveCalled);
    var q := Called(p, ObserveCalled);
    var t := q.trace.(observations := SanitizeMapSpec(a.observe.value, []), scopes := ScopeList(cfg.policy));
    CheckpointGoes(q.(trace := t));
    r := Checkpoint(q.(trace := t), true).p;
  }

  /** At level observe a cycle ends well with what it saw; without a planner, or without an executor at
      maintain or autonomous, it fails; and so it does when retrieval or planning fails. None of these
      executes anything. */
  lemma CyclesWithoutProposals(cfg: RunnerConfig, req: CycleRequest, a: CycleAnswers)
    requires Observing(cfg, req, a) && a.observe.Some? && a.savedObservations
    ensures cfg.policy.level == Observe ==> EndsWith(cfg, req, a, Observed, false)
    ensures cfg.policy.level != Observe && !cfg.hasPlanner ==> EndsWith(cfg, req, a, PlannerUnavailable, true)
    ensures cfg.policy.level in {Maintain, Autonomous} && cfg.hasPlanner && !cfg.hasExecutor ==>
      EndsWith(cfg, req, a, NoExecutor, true)
    ensures Plans(cfg) && cfg.hasRetriever && !a.retrieve.Citations? ==> EndsWith(cfg, req, a, RetrievalFailed, true)
    ensures Plans(cfg) && (cfg.hasRetriever ==> a.retrieve.Citations? && a.savedKnowledge) && a.plan.None? ==>
      EndsWith(cfg, req, a, PlanningFailed, true)
  {
    var p := HasObserved(cfg, req, a);
    if cfg.policy.level == Observe {
      FinishedEarly(cfg, req, a, p, Observed, false);
    } else if !cfg.hasPlanner {
      FinishedEarly(cfg, req, a, p, PlannerUnavailable, true);
    } else if !cfg.hasExecutor && cfg.policy.level in {Maintain, Autonomous} {
      FinishedEarly(cfg, req, a, p, NoExecutor, true);
    } else if cfg.hasRetriever && !a.retrieve.Citations? {
      LastSaveOfSnoc(p.log, RetrieveCalled);
      var asked := if a.retrieve.QueryFailed? then p else Called(p, RetrieveCalled);
      FinishedEarly(cfg, req, a, asked, RetrievalFailed, true);
    } else if a.plan.None? && (cfg.hasRetriever ==> a.savedKnowledge) {
      FailedPlanEnds(cfg, req, a, p);
    }
  }

  predicate Plans(cfg: RunnerConfig) {
    cfg.policy.level != Observe && cfg.hasPlanner && (cfg.policy.level in {Maintain, Autonomous} ==> cfg.hasExecutor)
  }

  lemma FailedPlanEnds(cfg: RunnerConfig, req: CycleRequest, a: CycleAnswers, p: Progress)
    requires Plans(cfg) && a.savedFinal && Planning(p) && RunCycle(cfg, req, a) == AfterObservation(cfg, a, p)
    requires a.plan.None? && (cfg.hasRetriever ==> a.retrieve.Citations? && a.savedKnowledge)
    ensures EndsWith(cfg, req, a, PlanningFailed, true)
  {
    var r := p;
    if cfg.hasRetriever {
      LastSaveOfSnoc(p.log, RetrieveCalled);
      var q := Called(p, RetrieveCalled);
      var s := q.(trace := q.trace.(knowledge := q.trace.knowledge + a.retrieve.list));
      CheckpointGoes(s);
      r := Checkpoint(s, true).p;
    }
    ShownNamesAreRegistered(cfg);
    var shown := ShownNames(cfg);
    LastSaveOfSnoc(r.log, PlanCalled(shown));
    var planned := Called(r.(trace := r.trace.(availableOperations := Snapshots(cfg.registry, shown))),
      PlanCalled(shown));
    FinishedEarly(cfg, req, a, planned, PlanningFailed, true);
  }

  /** An empty plan completes the cycle. */
  lemma EmptyPlanCompletes(cfg: RunnerConfig, req: CycleRequest, a: CycleAnswers)
    requires Complete(cfg) && PlanArrives(cfg, req, a) && a.plan.value == []
    ensures EndsWith(cfg, req, a, Completed, false)
  {
    var r := ProposalsAreReached(cfg, req, a);
    NothingToHandle(cfg, a, r, a.plan.value);
    FinishedEarly(cfg, req, a, r, Completed, false);
  }

  lemma NothingToHandle(cfg: RunnerConfig, a: CycleAnswers, r: Progress, plan: seq<Proposal>)
    requires |plan| == 0 && r.trace.proposals == [] && r.trace.result == Running
    ensures ProposalStage(cfg, a, r, plan) == Finish(a, r, Completed, false)
  {
    assert forall outcomes :: !AnyOutcome(r.trace, outcomes);
    assert HandleFrom(cfg, a, r, Kept(cfg, plan), 0) == Next(r);
  }

  /** A context that ends before the first proposal interrupts the cycle. */
  lemma InterruptionEnds(cfg: RunnerConfig, req: CycleRequest, a: CycleAnswers)
    requires Complete(cfg) && PlanArrives(cfg, req, a) && a.plan.value != [] && a.proposal(0).interrupted
    ensures EndsWith(cfg, req, a, Interrupted, true)
  {
    var r := ProposalsAreReached(cfg, req, a);
    var start := if |a.plan.value| > 1 then r.(trace := r.trace.(result := ProposalLimitReached)) else r;
    assert Limit(cfg) == 1;
    assert HandleFrom(cfg, a, start, Kept(cfg, a.plan.value), 0) == Finish(a, start, Interrupted, true);
    FinishedEarly(cfg, req, a, start, Interrupted, true);
  }

  /** One proposal, executed and confirmed. */
  predicate Confirmed(cfg: RunnerConfig, a: CycleAnswers) {
    a.plan.Some? && |a.plan.value| == 1
    && Released(cfg, a.proposal(0), a.plan.value[0])
    && a.proposal(0).execute.Some? && cfg.hasVerifier && a.proposal(0).verify == VerifyAnswer(true, false)
  }

  lemma ConfirmedOutcome(cfg: RunnerConfig, a: CycleAnswers, r: ProposalRecord)
    requires Confirmed(cfg, a) && TellsTheProposal(cfg, a.proposal(0), a.plan.value[0], r)
    ensures r.outcome == Verified && r.verified == Some(true)
    ensures StatusFor(r.outcome, |a.plan.value| > 1) == CycleVerified
  {
  }

  /** A confirmed cycle ends verified. */
  lemma ConfirmedCycle(cfg: RunnerConfig, req: CycleRequest, a: CycleAnswers) returns (t: CycleTrace, r: ProposalRecord)
    requires Complete(cfg) && Undisturbed(cfg, req, a) && Confirmed(cfg, a)
    ensures EndsIn(LogOf(RunCycle(cfg, req, a)), FinishedTrace(a, t, r, CycleVerified))
    ensures TellsTheCycle(cfg, req, a, t) && TellsTheProposal(cfg, a.proposal(0), a.plan.value[0], r)
    ensures r.outcome == Verified && r.verified == Some(true)
  {
    var e;
    t, r, e := UndisturbedCycle(cfg, req, a);
    ConfirmedOutcome(cfg, a, r);
  }

  /** The last call is a successful Save of this trace. */
  predicate EndsIn(log: seq<Event>, t: CycleTrace) {
    log != [] && log[|log| - 1] == Saved(t, true)
  }

  lemma LogIsJustified(cfg: RunnerConfig, req: CycleRequest, a: CycleAnswers, log: seq<Event>)
    requires log == LogOf(RunCycle(cfg, req, a))
    ensures History(cfg, log)
  {
    EveryCycleIsJustified(cfg, req, a);
  }

  /** A cycle starts exactly with an observer, a journal, a trigger, a valid registry and an id; otherwise
      it fails without a call. */
  lemma CycleStartsExactlyWhen(cfg: RunnerConfig, req: CycleRequest, a: CycleAnswers)
    ensures LogOf(RunCycle(cfg, req, a)) != [] <==>
      cfg.hasObserver && cfg.hasAudit && req.trigger != "" && RegistryValid(cfg.registry) && a.newID.Some?
    ensures LogOf(RunCycle(cfg, req, a)) == [] ==> RunCycle(cfg, req, a).Stop? && RunCycle(cfg, req, a).failed
  {
    if cfg.hasObserver && cfg.hasAudit && req.trigger != "" && RegistryValid(cfg.registry) && a.newID.Some? {
      var p := Progress([], StartTrace(req, a));
      var f := Checkpoint(p, a.savedInitial);
      if f.Go? {
        ObserveStageCarries(cfg, a, f.p);
      }
    }
  }
}
