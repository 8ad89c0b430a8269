/**
 What every run of a cycle keeps: each call the runner makes is justified by the calls before it.
 The property is about prefixes, so it holds at every moment of a cycle, a crash included.
 */
module CycleHistory {
  import opened Wrappers
  import opened Sanitize
  import opened Policy
  import opened Trace
  import opened Cycle

  // ---------- how outcomes and snapshots move ----------

  function Phase(o: Outcome): nat {
    match o
    case Decided(_) => 0
    case InvalidArguments => 0
    case ApprovalUnavailable => 1
    case ApprovalDelegated => 1
    case ApprovalCheckFailed => 1
    case ApprovalDenied => 1
    case ExecutorUnavailable => 2
    case Executing => 2
    case _ => 3
  }

  /** Outcomes nothing follows. */
  predicate Terminal(o: Outcome) {
    o !in {Decided(Allow), Decided(ApprovalRequired), ApprovalDelegated, Executing}
  }

  /** Along the approval, executing, verification order, or no change. */
  predicate Forward(x: Outcome, y: Outcome) {
    x == y || (!Terminal(x) && Phase(x) < Phase(y))
  }

  lemma ForwardTransitive(x: Outcome, y: Outcome, z: Outcome)
    requires Forward(x, y) && Forward(y, z)
    ensures Forward(x, z)
  {
  }

  predicate RecordExtends(r: ProposalRecord, s: ProposalRecord) {
    s.proposal == r.proposal && s.policy == r.policy && Forward(r.outcome, s.outcome)
  }

  /** A later snapshot of the same cycle: nothing recorded is lost or rewritten. */
  predicate Extends(a: CycleTrace, b: CycleTrace) {
    a.finishedAt.None?
    && b.id == a.id && b.startedAt == a.startedAt && b.trigger == a.trigger && b.target == a.target
    && (a.planningCompleted ==> b.planningCompleted)
    && a.knowledge <= b.knowledge
    && |a.proposals| <= |b.proposals|
    && forall i | 0 <= i < |a.proposals| :: RecordExtends(a.proposals[i], b.proposals[i])
  }

  // ---------- justified calls ----------

  function LastSave(log: seq<Event>): (e: Option<Event>)
    ensures e.Some? ==> e.value.Saved?
  {
    if |log| == 0 then None
    else if log[|log| - 1].Saved? then Some(log[|log| - 1])
    else LastSave(log[..|log| - 1])
  }

  function CountExecutions(log: seq<Event>): nat {
    if |log| == 0 then 0
    else CountExecutions(log[..|log| - 1]) + if log[|log| - 1].ExecuteCalled? then 1 else 0
  }

  /** The last two calls are a successful execution and a verification that returned true without error. */
  predicate JustVerified(prefix: seq<Event>, operation: string) {
    |prefix| >= 2
    && prefix[|prefix| - 1].VerifyCalled? && prefix[|prefix| - 1].answer == VerifyAnswer(true, false)
    && prefix[|prefix| - 1].proposal.operation == operation
    && prefix[|prefix| - 2].ExecuteCalled? && prefix[|prefix| - 2].ok
    && prefix[|prefix| - 2].operation == operation
  }

  predicate NewlyVerified(before: seq<ProposalRecord>, after: seq<ProposalRecord>, i: nat)
    requires i < |after|
  {
    after[i].outcome == Verified && (i >= |before| || before[i].outcome != Verified)
  }

  ghost predicate SnapshotJustified(prefix: seq<Event>, s: CycleTrace) {
    Redacted(s)
    && (LastSave(prefix).None? ==> prefix == [] && s.proposals == [] && !s.planningCompleted && s.finishedAt.None?)
    && (LastSave(prefix).Some? ==> Extends(LastSave(prefix).value.snapshot, s))
    && (forall i | 0 <= i < |s.proposals| ::
          s.proposals[i].outcome == Verified ==> s.proposals[i].verified == Some(true))
    && (LastSave(prefix).Some? ==> forall i | 0 <= i < |s.proposals| ::
          NewlyVerified(LastSave(prefix).value.snapshot.proposals, s.proposals, i) ==>
            JustVerified(prefix, s.proposals[i].proposal.operation))
    && (s.result == CycleVerified ==> s.finishedAt.Some? && AnyOutcome(s, {Verified}))
  }

  /** The approval an execution rests on: policy allowed it, the gate granted it, or it was delegated. */
  ghost predicate Approved(cfg: RunnerConfig, prefix: seq<Event>, proposal: Proposal) {
    var decision := EvaluateProposal(cfg.policy, cfg.registry, proposal).decision;
    decision == Allow
    || (decision == ApprovalRequired
        && (if cfg.hasApprovals then ApproveCalled(proposal, Some(true)) in prefix
            else cfg.hasExecutor && cfg.delegatesApproval))
  }

  ghost predicate ExecutionJustified(cfg: RunnerConfig, prefix: seq<Event>, s: CycleTrace, operation: string,
                                     args: Args)
  {
    var proposal := Proposal(operation, args);
    s.proposals != []
    && LastRecord(s).outcome == Executing && LastRecord(s).proposal.operation == operation
    && RegistryValid(cfg.registry) && operation in cfg.registry
    && cfg.registry[operation].ValidArgs(args)
    && LastRecord(s).policy == EvaluateProposal(cfg.policy, cfg.registry, proposal)
    && Approved(cfg, prefix, proposal)
    && s.planningCompleted
  }

  /** A call may follow these calls. Nothing follows a failed Save or a finished snapshot. */
  ghost predicate Justified(cfg: RunnerConfig, prefix: seq<Event>, e: Event) {
    var last := LastSave(prefix);
    (last.Some? ==> last.value.ok && last.value.snapshot.finishedAt.None?)
    && (!e.Saved? ==> last.Some?)
    && match e
       case Saved(s, _) => SnapshotJustified(prefix, s)
       case PlanCalled(shown) => shown == ShownNames(cfg) && cfg.policy.level != Observe
       case ApproveCalled(proposal, _) =>
         EvaluateProposal(cfg.policy, cfg.registry, proposal).decision == ApprovalRequired
         && proposal.operation in cfg.registry && cfg.registry[proposal.operation].ValidArgs(proposal.args)
         && last.value.snapshot.planningCompleted
       case ExecuteCalled(operation, args, _) => ExecutionJustified(cfg, prefix, last.value.snapshot, operation, args)
       case VerifyCalled(proposal, _) =>
         prefix[|prefix| - 1] == ExecuteCalled(proposal.operation, proposal.args, true)
       case _ => true
  }

  ghost predicate History(cfg: RunnerConfig, log: seq<Event>) {
    forall n | 0 <= n < |log| :: Justified(cfg, log[..n], log[n])
  }

  lemma HistoryExtends(cfg: RunnerConfig, log: seq<Event>, e: Event)
    requires History(cfg, log) && Justified(cfg, log, e)
    ensures History(cfg, log + [e])
  {
    var more := log + [e];
    forall n | 0 <= n < |more| ensures Justified(cfg, more[..n], more[n]) {
      if n < |log| {
        assert more[..n] == log[..n];
      } else {
        assert more[..n] == log;
      }
    }
  }

  lemma LastSaveOfSnoc(log: seq<Event>, e: Event)
    ensures LastSave(log + [e]) == if e.Saved? then Some(e) else LastSave(log)
    ensures CountExecutions(log + [e]) == CountExecutions(log) + if e.ExecuteCalled? then 1 else 0
  {
    assert (log + [e])[..|log|] == log;
  }

  // ---------- the runner keeps the history justified ----------

  /** Between stages the trace is the snapshot last saved. */
  ghost predicate AtCheckpoint(cfg: RunnerConfig, p: Progress) {
    History(cfg, p.log) && LastSave(p.log) == Some(Saved(p.trace, true)) && p.trace.finishedAt.None?
    && Settled(p.trace)
  }

  /** A trace the runner may save: redacted, with the verified flag of every verified proposal set. */
  ghost predicate Settled(t: CycleTrace) {
    Redacted(t)
    && (forall i | 0 <= i < |t.proposals| :: t.proposals[i].outcome == Verified ==>
      t.proposals[i].verified == Some(true))
    && (t.result == Running || t.result == ProposalLimitReached)
  }

  /** A cycle that ended: justified throughout, and reported as failed when a Save failed. */
  ghost predicate Ended(cfg: RunnerConfig, log: seq<Event>, trace: CycleTrace, failed: bool) {
    History(cfg, log)
    && (LastSave(log).Some? ==> LastSave(log).value.snapshot == trace)
    && (!failed ==> LastSave(log).Some? && LastSave(log).value.ok && trace.finishedAt.Some?)
  }

  ghost predicate Sound(cfg: RunnerConfig, f: Flow) {
    match f
    case Stop(log, trace, failed) => Ended(cfg, log, trace, failed)
    case other => AtCheckpoint(cfg, other.p)
  }

  lemma CheckpointSound(cfg: RunnerConfig, p: Progress, ok: bool)
    requires History(cfg, p.log) && Justified(cfg, p.log, Saved(p.trace, ok))
    requires Settled(p.trace) && p.trace.finishedAt.None?
    ensures Sound(cfg, Checkpoint(p, ok))
  {
    HistoryExtends(cfg, p.log, Saved(p.trace, ok));
    LastSaveOfSnoc(p.log, Saved(p.trace, ok));
  }

  /** Saving the trace of a checkpoint with something added, and no proposal newly verified. */
  lemma GrowingCheckpointSound(cfg: RunnerConfig, p: Progress, last: CycleTrace, ok: bool)
    requires History(cfg, p.log) && LastSave(p.log) == Some(Saved(last, true))
    requires Extends(last, p.trace) && Settled(p.trace) && p.trace.finishedAt.None?
    requires forall i | 0 <= i < |p.trace.proposals| :: !NewlyVerified(last.proposals, p.trace.proposals, i)
    ensures Sound(cfg, Checkpoint(p, ok))
  {
    CheckpointSound(cfg, p, ok);
  }

  lemma FinishSound(cfg: RunnerConfig, a: CycleAnswers, p: Progress, last: CycleTrace, status: Status, cause: bool)
    requires History(cfg, p.log) && LastSave(p.log) == Some(Saved(last, true))
    requires Extends(last, p.trace) && p.trace.proposals == last.proposals && Settled(p.trace)
    requires status == CycleVerified ==> AnyOutcome(p.trace, {Verified})
    ensures Sound(cfg, Finish(a, p, status, cause))
  {
    var t := p.trace.(finishedAt := Some(a.finishedAt), result := status);
    assert t.proposals == p.trace.proposals;
    HistoryExtends(cfg, p.log, Saved(t, a.savedFinal));
    LastSaveOfSnoc(p.log, Saved(t, a.savedFinal));
  }

  lemma CallSound(cfg: RunnerConfig, p: Progress, e: Event)
    requires History(cfg, p.log) && Justified(cfg, p.log, e) && !e.Saved?
    ensures History(cfg, Called(p, e).log) && LastSave(Called(p, e).log) == LastSave(p.log)
  {
    HistoryExtends(cfg, p.log, e);
    LastSaveOfSnoc(p.log, e);
  }

  lemma SelfExtends(t: CycleTrace)
    requires t.finishedAt.None?
    ensures Extends(t, t)
  {
  }

  // ---------- stage by stage ----------

  lemma NothingToRedact()
    ensures SanitizeMapSpec(map[], []) == map[]
  {
  }

  lemma StartSound(cfg: RunnerConfig, p: Progress, ok: bool)
    requires p.log == [] && p.trace.proposals == [] && p.trace.observations == map[]
    requires !p.trace.planningCompleted && p.trace.finishedAt.None? && p.trace.result == Running
    ensures Sound(cfg, Checkpoint(p, ok))
  {
    NothingToRedact();
    CheckpointSound(cfg, p, ok);
  }

  lemma ObserveStageSound(cfg: RunnerConfig, a: CycleAnswers, p: Progress)
    requires RegistryValid(cfg.registry) && AtCheckpoint(cfg, p) && p.trace.proposals == []
    ensures Sound(cfg, ObserveStage(cfg, a, p))
  {
    CallSound(cfg, p, ObserveCalled);
    var q := Called(p, ObserveCalled);
    SelfExtends(p.trace);
    if a.observe.None? {
      FinishSound(cfg, a, q, p.trace, ObservationFailed, true);
    } else {
      SecondMapPassChangesNothing(a.observe.value, []);
      var t := q.trace.(observations := SanitizeMapSpec(a.observe.value, []), scopes := ScopeList(cfg.policy));
      GrowingCheckpointSound(cfg, q.(trace := t), p.trace, a.savedObservations);
      if a.savedObservations {
        AfterObservationSound(cfg, a, Checkpoint(q.(trace := t), a.savedObservations).p);
      }
    }
  }

  lemma AfterObservationSound(cfg: RunnerConfig, a: CycleAnswers, p: Progress)
    requires RegistryValid(cfg.registry) && AtCheckpoint(cfg, p) && p.trace.proposals == []
    ensures Sound(cfg, AfterObservation(cfg, a, p))
  {
    SelfExtends(p.trace);
    if cfg.policy.level == Observe {
      FinishSound(cfg, a, p, p.trace, Observed, false);
    } else if !cfg.hasPlanner {
      FinishSound(cfg, a, p, p.trace, PlannerUnavailable, true);
    } else if !cfg.hasExecutor && cfg.policy.level in {Maintain, Autonomous} {
      FinishSound(cfg, a, p, p.trace, NoExecutor, true);
    } else {
      RetrieveStageSound(cfg, a, p);
      if RetrieveStage(cfg, a, p).Go? {
        PlanStageSound(cfg, a, RetrieveStage(cfg, a, p).p);
      }
    }
  }

  lemma RetrieveStageSound(cfg: RunnerConfig, a: CycleAnswers, p: Progress)
    requires AtCheckpoint(cfg, p) && p.trace.proposals == []
    ensures Sound(cfg, RetrieveStage(cfg, a, p)) && !RetrieveStage(cfg, a, p).Next?
    ensures RetrieveStage(cfg, a, p).Go? ==> RetrieveStage(cfg, a, p).p.trace.proposals == []
  {
    SelfExtends(p.trace);
    if cfg.hasRetriever {
      CallSound(cfg, p, RetrieveCalled);
      var q := Called(p, RetrieveCalled);
      match a.retrieve
      case QueryFailed => FinishSound(cfg, a, p, p.trace, RetrievalFailed, true);
      case RetrieveError => FinishSound(cfg, a, q, p.trace, RetrievalFailed, true);
      case Citations(list) =>
        GrowingCheckpointSound(cfg, q.(trace := q.trace.(knowledge := q.trace.knowledge + list)), p.trace,
          a.savedKnowledge);
    }
  }

  lemma PlanStageSound(cfg: RunnerConfig, a: CycleAnswers, p: Progress)
    requires RegistryValid(cfg.registry) && AtCheckpoint(cfg, p) && p.trace.proposals == []
    requires cfg.policy.level != Observe
    ensures Sound(cfg, PlanStage(cfg, a, p))
  {
    ShownNamesAreRegistered(cfg);
    var shown := ShownNames(cfg);
    var t := p.trace.(availableOperations := Snapshots(cfg.registry, shown));
    var q := Called(p.(trace := t), PlanCalled(shown));
    CallSound(cfg, p.(trace := t), PlanCalled(shown));
    if a.plan.None? {
      FinishSound(cfg, a, q, p.trace, PlanningFailed, true);
    } else {
      var r := q.(trace := t.(planningCompleted := true));
      GrowingCheckpointSound(cfg, r, p.trace, a.savedPlan);
      if a.savedPlan {
        ProposalStageSound(cfg, a, Checkpoint(r, a.savedPlan).p, a.plan.value);
      }
    }
  }

  /** The state in which proposals are handled: only the result field may differ from the last snapshot. */
  ghost predicate Handling(cfg: RunnerConfig, p: Progress) {
    History(cfg, p.log) && p.trace.finishedAt.None? && Settled(p.trace) && p.trace.planningCompleted
    && exists last: CycleTrace ::
         LastSave(p.log) == Some(Saved(last, true)) && p.trace == last.(result := p.trace.result)
  }

  lemma ProposalStageSound(cfg: RunnerConfig, a: CycleAnswers, p: Progress, plan: seq<Proposal>)
    requires RegistryValid(cfg.registry) && AtCheckpoint(cfg, p) && p.trace.planningCompleted
    ensures Sound(cfg, ProposalStage(cfg, a, p, plan))
  {
    var q := if |plan| > Limit(cfg) then p.(trace := p.trace.(result := ProposalLimitReached)) else p;
    assert q.trace == p.trace.(result := q.trace.result);
    HandleFromSound(cfg, a, q, Kept(cfg, plan), 0);
    var f := HandleFrom(cfg, a, q, Kept(cfg, plan), 0);
    if !f.Stop? {
      SummarySound(cfg, a, f.p);
    }
  }

  lemma SummarySound(cfg: RunnerConfig, a: CycleAnswers, p: Progress)
    requires Handling(cfg, p)
    ensures Sound(cfg, Finish(a, p, FinalStatus(p.trace), false))
  {
    var last: CycleTrace :| LastSave(p.log) == Some(Saved(last, true)) && p.trace == last.(result := p.trace.result);
    FinishSound(cfg, a, p, last, FinalStatus(p.trace), false);
  }

  ghost predicate HandlingSound(cfg: RunnerConfig, f: Flow) {
    match f
    case Stop(log, trace, failed) => Ended(cfg, log, trace, failed)
    case other => Handling(cfg, other.p)
  }

  lemma {:induction false} HandleFromSound(cfg: RunnerConfig, a: CycleAnswers, p: Progress, proposals: seq<Proposal>,
                                           i: nat)
    requires RegistryValid(cfg.registry) && Handling(cfg, p) && i <= |proposals|
    ensures HandlingSound(cfg, HandleFrom(cfg, a, p, proposals, i))
    decreases |proposals| - i
  {
    if i < |proposals| {
      HandleOneSound(cfg, a, a.proposal(i), p, proposals[i]);
      var f := HandleOne(cfg, a, a.proposal(i), p, proposals[i]);
      if !f.Stop? {
        HandleFromSound(cfg, a, f.p, proposals, i + 1);
      }
    }
  }

  lemma DecisionRecordIsSafe(cfg: RunnerConfig, proposal: Proposal)
    ensures SafeRecord(DecisionRecord(cfg, proposal)) == DecisionRecord(cfg, proposal)
    ensures DecisionRecord(cfg, proposal).outcome != Verified
  {
    NothingToRedact();
    if proposal.operation in cfg.registry && proposal.args.Some? {
      SecondMapPassChangesNothing(proposal.args.value, cfg.registry[proposal.operation].sensitiveArgs);
    }
  }

  /** A checkpoint with a decision that may lead to execution. */
  ghost predicate Pending(cfg: RunnerConfig, p: Progress, proposal: Proposal) {
    AtCheckpoint(cfg, p) && p.trace.planningCompleted && p.trace.proposals != []
    && LastRecord(p.trace).proposal.operation == proposal.operation
    && LastRecord(p.trace).policy == EvaluateProposal(cfg.policy, cfg.registry, proposal)
    && LastRecord(p.trace).policy.decision in {Allow, ApprovalRequired}
    && cfg.registry[proposal.operation].ValidArgs(proposal.args)
    && !Terminal(LastRecord(p.trace).outcome)
  }

  /** The decision of one proposal, recorded and saved. */
  lemma DecisionSaved(cfg: RunnerConfig, p: Progress, proposal: Proposal, ok: bool)
    requires RegistryValid(cfg.registry) && Handling(cfg, p)
    ensures var record := DecisionRecord(cfg, proposal);
      Sound(cfg, Checkpoint(p.(trace := p.trace.(proposals := p.trace.proposals + [record])), ok))
  {
    var last: CycleTrace :| LastSave(p.log) == Some(Saved(last, true)) && p.trace == last.(result := p.trace.result);
    var record := DecisionRecord(cfg, proposal);
    DecisionRecordIsSafe(cfg, proposal);
    var q := p.(trace := p.trace.(proposals := p.trace.proposals + [record]));
    GrowingCheckpointSound(cfg, q, last, ok);
  }

  lemma CheckpointIsHandled(cfg: RunnerConfig, p: Progress, ok: bool)
    requires Sound(cfg, Checkpoint(p, ok)) && p.trace.planningCompleted
    ensures HandlingSound(cfg, Checkpoint(p, ok))
  {
    assert p.trace == p.trace.(result := p.trace.result);
  }

  lemma DecisionSound(cfg: RunnerConfig, p: Progress, proposal: Proposal, ok: bool)
    requires RegistryValid(cfg.registry) && Handling(cfg, p)
    ensures var record := DecisionRecord(cfg, proposal);
      var f := Checkpoint(p.(trace := p.trace.(proposals := p.trace.proposals + [record])), ok);
      HandlingSound(cfg, f)
      && (f.Go? && record.policy.decision in {Allow, ApprovalRequired} ==>
            Pending(cfg, f.p, proposal) && LastRecord(f.p.trace) == record
              && record.outcome == Decided(record.policy.decision)
            && record.policy == EvaluateProposal(cfg.policy, cfg.registry, proposal))
  {
    var record := DecisionRecord(cfg, proposal);
    DecisionSaved(cfg, p, proposal, ok);
    CheckpointIsHandled(cfg, p.(trace := p.trace.(proposals := p.trace.proposals + [record])), ok);
  }

  lemma HandleOneSound(cfg: RunnerConfig, a: CycleAnswers, pa: ProposalAnswers, p: Progress, proposal: Proposal)
    requires RegistryValid(cfg.registry) && Handling(cfg, p)
    ensures HandlingSound(cfg, HandleOne(cfg, a, pa, p, proposal))
  {
    if pa.interrupted {
      var last: CycleTrace :| LastSave(p.log) == Some(Saved(last, true)) && p.trace == last.(result := p.trace.result);
      FinishSound(cfg, a, p, last, Interrupted, true);
    } else {
      var record := DecisionRecord(cfg, proposal);
      DecisionSound(cfg, p, proposal, pa.savedDecision);
      var f := Checkpoint(p.(trace := p.trace.(proposals := p.trace.proposals + [record])), pa.savedDecision);
      if f.Go? && record.policy.decision in {Allow, ApprovalRequired} {
        ClearedAndExecuted(cfg, pa, f.p, proposal, record);
      }
    }
  }

  lemma ClearedAndExecuted(cfg: RunnerConfig, pa: ProposalAnswers, p: Progress, proposal: Proposal,
                           record: ProposalRecord)
    requires RegistryValid(cfg.registry) && Pending(cfg, p, proposal)
    requires record.policy == EvaluateProposal(cfg.policy, cfg.registry, proposal)
    requires LastRecord(p.trace).outcome == Decided(record.policy.decision)
    requires record.policy.decision in {Allow, ApprovalRequired}
    ensures HandlingSound(cfg, AfterDecision(cfg, pa, p, proposal, record))
  {
    ApprovalStageSound(cfg, pa, p, proposal, record);
    var g := ApprovalStage(cfg, pa, p, proposal, record);
    if g.Go? {
      ExecuteStageSound(cfg, pa, g.p, proposal);
    }
  }

  /** Moving the last record's outcome forward keeps the snapshot chain. */
  lemma OutcomeExtends(t: CycleTrace, record: ProposalRecord)
    requires t.proposals != [] && t.finishedAt.None? && RecordExtends(LastRecord(t), record)
    ensures Extends(t, WithLast(t, record))
    ensures LastRecord(WithLast(t, record)) == record
  {
  }

  lemma SettledWithLast(t: CycleTrace, record: ProposalRecord)
    requires t.proposals != [] && Settled(t) && SafeRecord(record) == record
    requires record.outcome == Verified ==> record.verified == Some(true)
    ensures Settled(WithLast(t, record))
  {
  }

  /** The last record moves forward to an outcome other than verified, and is saved. */
  lemma OutcomeCheckpointSound(cfg: RunnerConfig, p: Progress, last: CycleTrace, record: ProposalRecord, ok: bool)
    requires History(cfg, p.log) && LastSave(p.log) == Some(Saved(last, true))
    requires last.proposals != [] && last.finishedAt.None? && Settled(last)
    requires p.trace == WithLast(last, record)
    requires RecordExtends(LastRecord(last), record) && record.outcome != Verified && SafeRecord(record) == record
    ensures Sound(cfg, Checkpoint(p, ok))
    ensures ok ==> AtCheckpoint(cfg, Checkpoint(p, ok).p) && Checkpoint(p, ok).p.trace == p.trace
  {
    OutcomeExtends(last, record);
    SettledWithLast(last, record);
    GrowingCheckpointSound(cfg, p, last, ok);
  }

  lemma RecordOutcomeSound(cfg: RunnerConfig, p: Progress, outcome: Outcome, ok: bool)
    requires History(cfg, p.log) && LastSave(p.log) == Some(Saved(p.trace, true))
    requires p.trace.proposals != [] && p.trace.finishedAt.None? && Settled(p.trace) && p.trace.planningCompleted
    requires Forward(LastRecord(p.trace).outcome, outcome) && outcome != Verified
    ensures HandlingSound(cfg, RecordOutcome(p, outcome, ok))
  {
    var record := LastRecord(p.trace).(outcome := outcome);
    assert SafeRecord(LastRecord(p.trace)) == LastRecord(p.trace);
    OutcomeCheckpointSound(cfg, WithOutcome(p, outcome), p.trace, record, ok);
    var f := Checkpoint(WithOutcome(p, outcome), ok);
    if f.Go? {
      assert f.p.trace == f.p.trace.(result := f.p.trace.result);
    }
  }

  /** What the approval stage hands to the execute stage. */
  ghost predicate Cleared(cfg: RunnerConfig, p: Progress, proposal: Proposal) {
    Pending(cfg, p, proposal) && Phase(LastRecord(p.trace).outcome) <= 1 && Approved(cfg, p.log, proposal)
  }

  lemma DelegationSound(cfg: RunnerConfig, pa: ProposalAnswers, p: Progress, proposal: Proposal)
    requires RegistryValid(cfg.registry) && Pending(cfg, p, proposal)
    requires LastRecord(p.trace).policy.decision == ApprovalRequired
    requires LastRecord(p.trace).outcome == Decided(ApprovalRequired)
    requires !cfg.hasApprovals && cfg.hasExecutor && cfg.delegatesApproval
    ensures var f := Checkpoint(WithOutcome(p, ApprovalDelegated), pa.savedDelegation);
      if f.Go? then Cleared(cfg, f.p, proposal) else HandlingSound(cfg, f)
  {
    assert SafeRecord(LastRecord(p.trace)) == LastRecord(p.trace);
    OutcomeCheckpointSound(cfg, WithOutcome(p, ApprovalDelegated), p.trace,
      LastRecord(p.trace).(outcome := ApprovalDelegated), pa.savedDelegation);
  }

  lemma GateSound(cfg: RunnerConfig, pa: ProposalAnswers, p: Progress, proposal: Proposal)
    requires Pending(cfg, p, proposal) && LastRecord(p.trace).policy.decision == ApprovalRequired && cfg.hasApprovals
    requires LastRecord(p.trace).outcome == Decided(ApprovalRequired) && proposal.operation in cfg.registry
    ensures var f := GateStage(pa, Called(p, ApproveCalled(proposal, pa.approve)));
      if f.Go? then Cleared(cfg, f.p, proposal) else HandlingSound(cfg, f)
  {
    if pa.approve.None? {
      GateRefused(cfg, p, proposal, pa.approve, ApprovalCheckFailed, pa.savedOutcome);
    } else if !pa.approve.value {
      GateRefused(cfg, p, proposal, pa.approve, ApprovalDenied, pa.savedOutcome);
    } else {
      GateCallSound(cfg, p, proposal, pa.approve);
    }
  }

  lemma GateRefused(cfg: RunnerConfig, p: Progress, proposal: Proposal, reply: Option<bool>, outcome: Outcome, ok: bool)
    requires Pending(cfg, p, proposal) && LastRecord(p.trace).policy.decision == ApprovalRequired && cfg.hasApprovals
    requires LastRecord(p.trace).outcome == Decided(ApprovalRequired) && proposal.operation in cfg.registry
    requires outcome == ApprovalCheckFailed || outcome == ApprovalDenied
    ensures HandlingSound(cfg, RecordOutcome(Called(p, ApproveCalled(proposal, reply)), outcome, ok))
  {
    GateCallSound(cfg, p, proposal, reply);
    RecordOutcomeSound(cfg, Called(p, ApproveCalled(proposal, reply)), outcome, ok);
  }

  lemma GateCallSound(cfg: RunnerConfig, p: Progress, proposal: Proposal, reply: Option<bool>)
    requires Pending(cfg, p, proposal) && LastRecord(p.trace).policy.decision == ApprovalRequired && cfg.hasApprovals
    requires LastRecord(p.trace).outcome == Decided(ApprovalRequired) && proposal.operation in cfg.registry
    ensures AtCheckpoint(cfg, Called(p, ApproveCalled(proposal, reply)))
    ensures reply == Some(true) ==> Cleared(cfg, Called(p, ApproveCalled(proposal, reply)), proposal)
  {
    var e := ApproveCalled(proposal, reply);
    assert Justified(cfg, p.log, e);
    CallSound(cfg, p, e);
    assert Called(p, e).log[|p.log|] == e;
  }

  lemma ApprovalStageSound(cfg: RunnerConfig, pa: ProposalAnswers, p: Progress, proposal: Proposal,
                           record: ProposalRecord)
    requires RegistryValid(cfg.registry) && Pending(cfg, p, proposal)
    requires record.policy == EvaluateProposal(cfg.policy, cfg.registry, proposal)
    requires LastRecord(p.trace).outcome == Decided(record.policy.decision)
    ensures var f := ApprovalStage(cfg, pa, p, proposal, record);
      if f.Go? then Cleared(cfg, f.p, proposal) else HandlingSound(cfg, f)
  {
    if record.policy.decision == ApprovalRequired {
      if cfg.hasApprovals {
        GateSound(cfg, pa, p, proposal);
      } else if cfg.hasExecutor && cfg.delegatesApproval {
        DelegationSound(cfg, pa, p, proposal);
      } else {
        RecordOutcomeSound(cfg, p, ApprovalUnavailable, pa.savedOutcome);
      }
    }
  }

  lemma ApprovedLonger(cfg: RunnerConfig, log: seq<Event>, e: Event, proposal: Proposal)
    requires Approved(cfg, log, proposal)
    ensures Approved(cfg, log + [e], proposal)
  {
  }

  /** The checkpoint from which the executor is called. */
  ghost predicate ReadyToExecute(cfg: RunnerConfig, q: Progress, proposal: Proposal) {
    AtCheckpoint(cfg, q) && q.trace.planningCompleted && q.trace.proposals != []
    && ExecutionJustified(cfg, q.log, q.trace, proposal.operation, proposal.args)
  }

  lemma IntentSound(cfg: RunnerConfig, p: Progress, proposal: Proposal, ok: bool)
    requires RegistryValid(cfg.registry) && Cleared(cfg, p, proposal)
    ensures var f := Checkpoint(WithOutcome(p, Executing), ok);
      if f.Go? then ReadyToExecute(cfg, f.p, proposal) else HandlingSound(cfg, f)
  {
    var intent := LastRecord(p.trace).(outcome := Executing);
    assert SafeRecord(LastRecord(p.trace)) == LastRecord(p.trace);
    OutcomeCheckpointSound(cfg, WithOutcome(p, Executing), p.trace, intent, ok);
    assert proposal == Proposal(proposal.operation, proposal.args);
    ApprovedLonger(cfg, p.log, Saved(WithOutcome(p, Executing).trace, true), proposal);
  }

  lemma ExecutionSound(cfg: RunnerConfig, pa: ProposalAnswers, q: Progress, proposal: Proposal)
    requires ReadyToExecute(cfg, q, proposal)
    ensures var r := Called(q, ExecuteCalled(proposal.operation, proposal.args, pa.execute.Some?));
      HandlingSound(cfg, AfterExecution(cfg, pa, r, proposal))
  {
    var e := ExecuteCalled(proposal.operation, proposal.args, pa.execute.Some?);
    CallSound(cfg, q, e);
    var r := Called(q, e);
    if pa.execute.None? {
      RecordOutcomeSound(cfg, r, ExecutionFailed, pa.savedOutcome);
    } else {
      VerifyStageSound(cfg, pa, r, proposal);
    }
  }

  lemma ExecuteStageSound(cfg: RunnerConfig, pa: ProposalAnswers, p: Progress, proposal: Proposal)
    requires RegistryValid(cfg.registry) && Cleared(cfg, p, proposal)
    ensures HandlingSound(cfg, ExecuteStage(cfg, pa, p, proposal))
  {
    assert SpecValid(proposal.operation, cfg.registry[proposal.operation]);
    if !cfg.hasExecutor {
      RecordOutcomeSound(cfg, p, ExecutorUnavailable, pa.savedOutcome);
    } else {
      IntentSound(cfg, p, proposal, pa.savedIntent);
      var f := Checkpoint(WithOutcome(p, Executing), pa.savedIntent);
      if f.Go? {
        ExecutionSound(cfg, pa, f.p, proposal);
      }
    }
  }

  lemma VerifyStageSound(cfg: RunnerConfig, pa: ProposalAnswers, r: Progress, proposal: Proposal)
    requires History(cfg, r.log) && LastSave(r.log) == Some(Saved(r.trace, true))
    requires r.trace.proposals != [] && r.trace.finishedAt.None? && Settled(r.trace) && r.trace.planningCompleted
    requires LastRecord(r.trace).outcome == Executing && LastRecord(r.trace).proposal.operation == proposal.operation
    requires |r.log| > 0 && r.log[|r.log| - 1] == ExecuteCalled(proposal.operation, proposal.args, true)
    requires pa.execute.Some?
    ensures HandlingSound(cfg, VerifyStage(cfg, pa, WithResult(r, SanitizeMapSpec(pa.execute.value, [])), proposal))
  {
    var result := SanitizeMapSpec(pa.execute.value, []);
    SecondMapPassChangesNothing(pa.execute.value, []);
    assert SafeRecord(LastRecord(r.trace)) == LastRecord(r.trace);
    var p := WithResult(r, result);
    var base := LastRecord(r.trace).(result := result);
    assert LastRecord(p.trace) == base && p.trace == WithLast(r.trace, base);
    if cfg.hasVerifier {
      VerifiedStageSound(cfg, pa, r, p, base, proposal);
    } else {
      UnverifiedStageSound(cfg, r, p, base, pa.savedOutcome);
    }
  }

  lemma UnverifiedStageSound(cfg: RunnerConfig, r: Progress, p: Progress, base: ProposalRecord, ok: bool)
    requires History(cfg, r.log) && LastSave(r.log) == Some(Saved(r.trace, true))
    requires r.trace.proposals != [] && r.trace.finishedAt.None? && Settled(r.trace) && r.trace.planningCompleted
    requires p.log == r.log && p.trace == WithLast(r.trace, base) && SafeRecord(base) == base
    requires RecordExtends(LastRecord(r.trace), base) && base.outcome == Executing
    ensures HandlingSound(cfg, RecordOutcome(p, VerificationUnavailable, ok))
  {
    var record := base.(outcome := VerificationUnavailable);
    LastReplacedTwice(r.trace, base, record);
    OutcomeCheckpointSound(cfg, WithOutcome(p, VerificationUnavailable), r.trace, record, ok);
    CheckpointIsHandled(cfg, WithOutcome(p, VerificationUnavailable), ok);
  }

  lemma LastReplacedTwice(t: CycleTrace, first: ProposalRecord, second: ProposalRecord)
    requires t.proposals != []
    ensures WithLast(WithLast(t, first), second) == WithLast(t, second)
  {
  }

  lemma VerifiedStageSound(cfg: RunnerConfig, pa: ProposalAnswers, r: Progress, p: Progress, base: ProposalRecord,
                           proposal: Proposal)
    requires History(cfg, r.log) && LastSave(r.log) == Some(Saved(r.trace, true))
    requires r.trace.proposals != [] && r.trace.finishedAt.None? && Settled(r.trace) && r.trace.planningCompleted
    requires |r.log| > 0 && r.log[|r.log| - 1] == ExecuteCalled(proposal.operation, proposal.args, true)
    requires p.log == r.log && p.trace == WithLast(r.trace, base) && SafeRecord(base) == base
    requires RecordExtends(LastRecord(r.trace), base) && base.outcome == Executing
    requires base.proposal.operation == proposal.operation && cfg.hasVerifier
    ensures HandlingSound(cfg, VerifyStage(cfg, pa, p, proposal))
  {
    var e := VerifyCalled(proposal, pa.verify);
    var done := base.(outcome := VerifiedOutcome(pa.verify), verified := Some(pa.verify.verified));
    VerdictIsJustified(cfg, r, base, done, e, proposal);
    VerdictSound(cfg, Progress(r.log + [e], WithLast(r.trace, done)), r.trace, done, pa.savedOutcome);
    VerifyStageUnfolds(cfg, pa, r, base, proposal);
    assert p == Progress(r.log, WithLast(r.trace, base));
  }

  lemma VerdictIsJustified(cfg: RunnerConfig, r: Progress, base: ProposalRecord, done: ProposalRecord, e: Event,
                           proposal: Proposal)
    requires History(cfg, r.log) && LastSave(r.log) == Some(Saved(r.trace, true))
    requires r.trace.proposals != [] && r.trace.finishedAt.None?
    requires |r.log| > 0 && r.log[|r.log| - 1] == ExecuteCalled(proposal.operation, proposal.args, true)
    requires SafeRecord(base) == base && RecordExtends(LastRecord(r.trace), base) && base.outcome == Executing
    requires base.proposal.operation == proposal.operation && e.VerifyCalled? && e.proposal == proposal
    requires done == base.(outcome := VerifiedOutcome(e.answer), verified := Some(e.answer.verified))
    ensures History(cfg, r.log + [e]) && LastSave(r.log + [e]) == Some(Saved(r.trace, true))
    ensures SafeRecord(done) == done && RecordExtends(LastRecord(r.trace), done)
    ensures done.outcome == Verified ==>
      done.verified == Some(true) && JustVerified(r.log + [e], done.proposal.operation)
  {
    VerifyCallSound(cfg, r, e, proposal);
    VerdictFollows(LastRecord(r.trace), base, done, e);
    JustCalled(r.log, e, proposal);
  }

  lemma VerifyCallSound(cfg: RunnerConfig, r: Progress, e: Event, proposal: Proposal)
    requires History(cfg, r.log) && LastSave(r.log) == Some(Saved(r.trace, true)) && r.trace.finishedAt.None?
    requires |r.log| > 0 && r.log[|r.log| - 1] == ExecuteCalled(proposal.operation, proposal.args, true)
    requires e.VerifyCalled? && e.proposal == proposal
    ensures History(cfg, r.log + [e]) && LastSave(r.log + [e]) == Some(Saved(r.trace, true))
  {
    assert Justified(cfg, r.log, e);
    CallSound(cfg, r, e);
  }

  lemma VerdictFollows(last: ProposalRecord, base: ProposalRecord, done: ProposalRecord, e: Event)
    requires SafeRecord(base) == base && RecordExtends(last, base) && base.outcome == Executing && e.VerifyCalled?
    requires done == base.(outcome := VerifiedOutcome(e.answer), verified := Some(e.answer.verified))
    ensures SafeRecord(done) == done && RecordExtends(last, done)
    ensures done.outcome == Verified ==> e.answer == VerifyAnswer(true, false)
  {
    ForwardTransitive(last.outcome, base.outcome, done.outcome);
  }

  lemma JustCalled(log: seq<Event>, e: Event, proposal: Proposal)
    requires |log| > 0 && log[|log| - 1] == ExecuteCalled(proposal.operation, proposal.args, true)
    requires e.VerifyCalled? && e.proposal == proposal
    ensures e.answer == VerifyAnswer(true, false) ==> JustVerified(log + [e], proposal.operation)
  {
  }

  lemma VerifyStageUnfolds(cfg: RunnerConfig, pa: ProposalAnswers, r: Progress, base: ProposalRecord,
                           proposal: Proposal)
    requires r.trace.proposals != [] && cfg.hasVerifier
    ensures var done := base.(outcome := VerifiedOutcome(pa.verify), verified := Some(pa.verify.verified));
      var s := Progress(r.log + [VerifyCalled(proposal, pa.verify)], WithLast(r.trace, done));
      VerifyStage(cfg, pa, Progress(r.log, WithLast(r.trace, base)), proposal)
      == match Checkpoint(s, pa.savedOutcome) case Go(q) => Next(q) case other => other
  {
    VerdictTrace(r, base, VerifyCalled(proposal, pa.verify), VerifiedOutcome(pa.verify), pa.verify.verified);
  }

  lemma VerdictTrace(r: Progress, base: ProposalRecord, e: Event, outcome: Outcome, verified: bool)
    requires r.trace.proposals != []
    ensures WithVerified(WithOutcome(Called(Progress(r.log, WithLast(r.trace, base)), e), outcome), verified)
         == Progress(Called(r, e).log, WithLast(r.trace, base.(outcome := outcome, verified := Some(verified))))
  {
    LastReplacedTwice(r.trace, base, base.(outcome := outcome));
    LastReplacedTwice(r.trace, base.(outcome := outcome), base.(outcome := outcome, verified := Some(verified)));
  }

  /** Saving the verdict of a verification and turning to the next proposal. */
  lemma VerdictSound(cfg: RunnerConfig, p: Progress, last: CycleTrace, record: ProposalRecord, ok: bool)
    requires History(cfg, p.log) && LastSave(p.log) == Some(Saved(last, true))
    requires last.proposals != [] && last.finishedAt.None? && Settled(last) && last.planningCompleted
    requires p.trace == WithLast(last, record)
    requires RecordExtends(LastRecord(last), record) && SafeRecord(record) == record
    requires record.outcome == Verified ==>
      record.verified == Some(true) && JustVerified(p.log, record.proposal.operation)
    ensures HandlingSound(cfg, match Checkpoint(p, ok) case Go(q) => Next(q) case other => other)
  {
    if record.outcome == Verified {
      VerifiedCheckpointSound(cfg, p, last, record, ok);
    } else {
      OutcomeCheckpointSound(cfg, p, last, record, ok);
    }
    var f := Checkpoint(p, ok);
    if f.Go? {
      assert f.p.trace == f.p.trace.(result := f.p.trace.result);
    }
  }

  lemma VerifiedCheckpointSound(cfg: RunnerConfig, p: Progress, last: CycleTrace, record: ProposalRecord, ok: bool)
    requires History(cfg, p.log) && LastSave(p.log) == Some(Saved(last, true))
    requires last.proposals != [] && last.finishedAt.None? && Settled(last)
    requires p.trace == WithLast(last, record)
    requires RecordExtends(LastRecord(last), record) && SafeRecord(record) == record
    requires record.outcome == Verified && record.verified == Some(true)
    requires JustVerified(p.log, record.proposal.operation)
    ensures Sound(cfg, Checkpoint(p, ok))
    ensures ok ==> AtCheckpoint(cfg, Checkpoint(p, ok).p) && Checkpoint(p, ok).p.trace == p.trace
  {
    OutcomeExtends(last, record);
    SettledWithLast(last, record);
    CheckpointSound(cfg, p, ok);
  }

  /** Every cycle, whatever the world answers: all calls justified, failure reported when a Save failed. */
  lemma EveryCycleIsJustified(cfg: RunnerConfig, req: CycleRequest, a: CycleAnswers)
    ensures RunCycle(cfg, req, a).Stop?
    ensures var f := RunCycle(cfg, req, a); Ended(cfg, f.log, f.trace, f.failed)
  {
    var f := RunCycle(cfg, req, a);
    if cfg.hasObserver && cfg.hasAudit && req.trigger != "" && RegistryValid(cfg.registry) && a.newID.Some? {
      var t := StartTrace(req, a);
      StartSound(cfg, Progress([], t), a.savedInitial);
      if a.savedInitial {
        ObserveStageSound(cfg, a, Checkpoint(Progress([], t), true).p);
        ObserveStageStops(cfg, a, Checkpoint(Progress([], t), true).p);
      }
    }
  }

  lemma {:induction false} HandleFromNeverGoes(cfg: RunnerConfig, a: CycleAnswers, p: Progress,
                                               proposals: seq<Proposal>, i: nat)
    requires i <= |proposals|
    ensures !HandleFrom(cfg, a, p, proposals, i).Go?
    decreases |proposals| - i
  {
    if i < |proposals| {
      var f := HandleOne(cfg, a, a.proposal(i), p, proposals[i]);
      if !f.Stop? {
        HandleFromNeverGoes(cfg, a, f.p, proposals, i + 1);
      }
    }
  }

  lemma ObserveStageStops(cfg: RunnerConfig, a: CycleAnswers, p: Progress)
    ensures ObserveStage(cfg, a, p).Stop?
  {
  }
}
