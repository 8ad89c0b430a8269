/**
 What a reader of the audit trail may rely on: the chain of checkpoints, provenance of verified
 outcomes, recorded intent before execution, at most one execution in a cycle.
 */
module CycleTheorems {
  import opened Wrappers
  import opened Sanitize
  import opened Policy
  import opened Trace
  import opened Cycle
  import opened CycleHistory

  lemma {:induction false} LastSaveIsLast(log: seq<Event>)
    ensures LastSave(log).Some? ==>
      exists k | 0 <= k < |log| :: log[k] == LastSave(log).value && forall m | k < m < |log| :: !log[m].Saved?
    ensures LastSave(log).None? ==> forall m | 0 <= m < |log| :: !log[m].Saved?
  {
    if |log| > 0 && !log[|log| - 1].Saved? {
      var front := log[..|log| - 1];
      LastSaveIsLast(front);
      if LastSave(front).Some? {
        var k :|
          0 <= k < |front| && front[k] == LastSave(front).value && forall m | k < m < |front| :: !front[m].Saved?;
        assert log[k] == front[k];
        forall m | k < m < |log| ensures !log[m].Saved? {
          if m < |front| { assert log[m] == front[m]; }
        }
      } else {
        forall m | 0 <= m < |log| ensures !log[m].Saved? {
          if m < |front| { assert log[m] == front[m]; }
        }
      }
    }
  }

  lemma ExtendsTransitive(a: CycleTrace, b: CycleTrace, c: CycleTrace)
    requires Extends(a, b) && Extends(b, c)
    ensures Extends(a, c)
  {
    forall i | 0 <= i < |a.proposals| ensures RecordExtends(a.proposals[i], c.proposals[i]) {
      ForwardTransitive(a.proposals[i].outcome, b.proposals[i].outcome, c.proposals[i].outcome);
    }
  }

  /** The last Save before a call, when there was one at i: it stands at i or later. */
  lemma LastSaveBefore(log: seq<Event>, i: nat, n: nat) returns (k: nat)
    requires i < n <= |log| && log[i].Saved?
    ensures i <= k < n && log[k].Saved? && LastSave(log[..n]) == Some(log[k])
  {
    LastSaveIsLast(log[..n]);
    assert log[..n][i] == log[i];
    k :| 0 <= k < n && log[..n][k] == LastSave(log[..n]).value && forall m | k < m < n :: !log[..n][m].Saved?;
  }

  /** Any two snapshots of a cycle: the later keeps identity, recorded proposals and policy, planning
      completion, and moves outcomes forward only. Only the last call can be a failed or finishing Save. */
  lemma {:induction false} CheckpointChain(cfg: RunnerConfig, log: seq<Event>, i: nat, j: nat)
    requires History(cfg, log) && i < j < |log| && log[i].Saved?
    ensures log[i].ok && log[i].snapshot.finishedAt.None?
    ensures log[j].Saved? ==> Extends(log[i].snapshot, log[j].snapshot)
    decreases j
  {
    assert Justified(cfg, log[..j], log[j]);
    var k := LastSaveBefore(log, i, j);
    if i < k {
      CheckpointChain(cfg, log, i, k);
      if log[j].Saved? {
        ExtendsTransitive(log[i].snapshot, log[k].snapshot, log[j].snapshot);
      }
    }
  }

  /** Every snapshot handed to the journal is redacted already: the journal writes it unchanged. */
  lemma JournalWritesSnapshotsUnchanged(cfg: RunnerConfig, log: seq<Event>, n: nat)
    requires History(cfg, log) && n < |log| && log[n].Saved?
    ensures SafeCopy(log[n].snapshot) == log[n].snapshot
  {
    assert Justified(cfg, log[..n], log[n]);
    SafeCopyOfRedacted(log[n].snapshot);
  }

  /** Outcomes recorded from the moment of execution on. */
  predicate Executed(o: Outcome) {
    o in {Executing, ExecutionFailed, VerificationUnavailable, VerificationFailed, Verified, NotVerified}
  }

  predicate RecordsExecution(t: CycleTrace, operation: string) {
    exists i | 0 <= i < |t.proposals| ::
      t.proposals[i].proposal.operation == operation && Executed(t.proposals[i].outcome)
  }

  /** Before an execution a Save of the intent succeeded; every Save after it still records the execution. */
  lemma IntentPrecedesExecution(cfg: RunnerConfig, log: seq<Event>, n: nat) returns (k: nat)
    requires History(cfg, log) && n < |log| && log[n].ExecuteCalled?
    ensures k < n && log[k].Saved? && log[k].ok && RecordsExecution(log[k].snapshot, log[n].operation)
    ensures forall m | k <= m < |log| && log[m].Saved? :: RecordsExecution(log[m].snapshot, log[n].operation)
  {
    k := IntentOf(cfg, log, n);
    forall m | k <= m < |log| && log[m].Saved? ensures RecordsExecution(log[m].snapshot, log[n].operation) {
      ExecutionStaysRecorded(cfg, log, k, m, log[n].operation);
    }
  }

  lemma IntentOf(cfg: RunnerConfig, log: seq<Event>, n: nat) returns (k: nat)
    requires History(cfg, log) && n < |log| && log[n].ExecuteCalled?
    ensures k < n && log[k].Saved? && log[k].ok && log[k].snapshot.proposals != []
    ensures LastRecord(log[k].snapshot).proposal.operation == log[n].operation
    ensures LastRecord(log[k].snapshot).outcome == Executing
  {
    var prefix := log[..n];
    assert Justified(cfg, prefix, log[n]);
    LastSaveIsLast(prefix);
    k :| 0 <= k < n && prefix[k] == LastSave(prefix).value;
  }

  lemma ExecutionStaysRecorded(cfg: RunnerConfig, log: seq<Event>, k: nat, m: nat, operation: string)
    requires History(cfg, log) && k <= m < |log| && log[k].Saved? && log[m].Saved?
    requires log[k].snapshot.proposals != [] && LastRecord(log[k].snapshot).outcome == Executing
    requires LastRecord(log[k].snapshot).proposal.operation == operation
    ensures RecordsExecution(log[m].snapshot, operation)
  {
    var last := |log[k].snapshot.proposals| - 1;
    if k < m {
      CheckpointChain(cfg, log, k, m);
      assert RecordExtends(log[k].snapshot.proposals[last], log[m].snapshot.proposals[last]);
    }
    var r := log[m].snapshot.proposals[last];
    assert r.proposal.operation == operation && Executed(r.outcome);
  }

  /** A call of the log after which a verified outcome of the operation may be recorded. */
  predicate VerifiedAt(log: seq<Event>, j: nat, operation: string) {
    j + 1 < |log|
    && log[j].ExecuteCalled? && log[j].operation == operation && log[j].ok
    && log[j + 1].VerifyCalled? && log[j + 1].proposal.operation == operation
    && log[j + 1].answer == VerifyAnswer(true, false)
  }

  /** A snapshot that says "verified" comes after an execution that succeeded and, directly after it,
      a verification that returned true without error. */
  lemma {:induction false} VerifiedHasProvenance(cfg: RunnerConfig, log: seq<Event>, n: nat, i: nat)
    requires History(cfg, log) && n < |log| && log[n].Saved?
    requires i < |log[n].snapshot.proposals| && log[n].snapshot.proposals[i].outcome == Verified
    ensures exists j | 0 <= j < n - 1 :: VerifiedAt(log, j, log[n].snapshot.proposals[i].proposal.operation)
    decreases n
  {
    var s := log[n].snapshot;
    var k := VerifiedNowOrBefore(cfg, log, n, i);
    if k < n {
      VerifiedHasProvenance(cfg, log, k, i);
      var j :| 0 <= j < k - 1 && VerifiedAt(log, j, log[k].snapshot.proposals[i].proposal.operation);
      assert VerifiedAt(log, j, s.proposals[i].proposal.operation);
    } else {
      assert VerifiedAt(log, n - 2, s.proposals[i].proposal.operation);
    }
  }

  /** A snapshot with proposals has one before it. */
  lemma PreviousSave(cfg: RunnerConfig, log: seq<Event>, n: nat) returns (k: nat)
    requires History(cfg, log) && n < |log| && log[n].Saved? && log[n].snapshot.proposals != []
    ensures k < n && log[k].Saved? && LastSave(log[..n]) == Some(log[k]) && SnapshotJustified(log[..n], log[n].snapshot)
  {
    var prefix := log[..n];
    assert Justified(cfg, prefix, log[n]);
    LastSaveIsLast(prefix);
    k :| 0 <= k < n && prefix[k] == LastSave(prefix).value;
  }

  /** Either an earlier snapshot k already said so, or (k == n) the verification has just happened. */
  lemma VerifiedNowOrBefore(cfg: RunnerConfig, log: seq<Event>, n: nat, i: nat) returns (k: nat)
    requires History(cfg, log) && n < |log| && log[n].Saved?
    requires i < |log[n].snapshot.proposals| && log[n].snapshot.proposals[i].outcome == Verified
    ensures k <= n && log[k].Saved?
    ensures k < n ==> i < |log[k].snapshot.proposals| && log[k].snapshot.proposals[i].outcome == Verified
    ensures k < n ==> log[k].snapshot.proposals[i].proposal == log[n].snapshot.proposals[i].proposal
    ensures k == n ==> n >= 2 && VerifiedAt(log, n - 2, log[n].snapshot.proposals[i].proposal.operation)
  {
    var s := log[n].snapshot;
    k := PreviousSave(cfg, log, n);
    assert SnapshotJustified(log[..n], s);
    var before := log[k].snapshot.proposals;
    if i < |before| && before[i].outcome == Verified {
      assert RecordExtends(before[i], s.proposals[i]);
    } else {
      assert NewlyVerified(before, s.proposals, i);
      k := n;
    }
  }

  /** The cycle result "verified" is recorded only with a verified proposal behind it. */
  lemma VerifiedResultHasProvenance(cfg: RunnerConfig, log: seq<Event>, n: nat)
    requires History(cfg, log) && n < |log| && log[n].Saved? && log[n].snapshot.result == CycleVerified
    ensures exists i | 0 <= i < |log[n].snapshot.proposals| ::
      log[n].snapshot.proposals[i].outcome == Verified && log[n].snapshot.proposals[i].verified == Some(true)
      && exists j | 0 <= j < n - 1 :: VerifiedAt(log, j, log[n].snapshot.proposals[i].proposal.operation)
  {
    assert Justified(cfg, log[..n], log[n]);
    var s := log[n].snapshot;
    var i :| 0 <= i < |s.proposals| && s.proposals[i].outcome in {Verified};
    assert s.proposals[i].outcome == Verified;
    VerifiedHasProvenance(cfg, log, n, i);
  }

  // ---------- at most one execution ----------

  function LogOf(f: Flow): seq<Event> {
    if f.Stop? then f.log else f.p.log
  }

  lemma CheckpointExecutesNothing(p: Progress, ok: bool)
    ensures CountExecutions(LogOf(Checkpoint(p, ok))) == CountExecutions(p.log)
  {
    LastSaveOfSnoc(p.log, Saved(p.trace, ok));
  }

  lemma FinishExecutesNothing(a: CycleAnswers, p: Progress, status: Status, cause: bool)
    ensures CountExecutions(LogOf(Finish(a, p, status, cause))) == CountExecutions(p.log)
  {
    LastSaveOfSnoc(p.log, Saved(p.trace.(finishedAt := Some(a.finishedAt), result := status), a.savedFinal));
  }

  lemma RecordOutcomeExecutesNothing(p: Progress, outcome: Outcome, ok: bool)
    ensures CountExecutions(LogOf(RecordOutcome(p, outcome, ok))) == CountExecutions(p.log)
  {
    CheckpointExecutesNothing(WithOutcome(p, outcome), ok);
  }

  lemma ApprovalExecutesNothing(cfg: RunnerConfig, pa: ProposalAnswers, p: Progress, proposal: Proposal,
                                record: ProposalRecord)
    ensures CountExecutions(LogOf(ApprovalStage(cfg, pa, p, proposal, record))) == CountExecutions(p.log)
  {
    if record.policy.decision == ApprovalRequired {
      if cfg.hasApprovals {
        var q := Called(p, ApproveCalled(proposal, pa.approve));
        LastSaveOfSnoc(p.log, ApproveCalled(proposal, pa.approve));
        if pa.approve.None? {
          RecordOutcomeExecutesNothing(q, ApprovalCheckFailed, pa.savedOutcome);
        } else if !pa.approve.value {
          RecordOutcomeExecutesNothing(q, ApprovalDenied, pa.savedOutcome);
        }
      } else if !cfg.hasExecutor || !cfg.delegatesApproval {
        RecordOutcomeExecutesNothing(p, ApprovalUnavailable, pa.savedOutcome);
      } else {
        CheckpointExecutesNothing(WithOutcome(p, ApprovalDelegated), pa.savedDelegation);
      }
    }
  }

  lemma VerifyExecutesNothing(cfg: RunnerConfig, pa: ProposalAnswers, p: Progress, proposal: Proposal)
    ensures CountExecutions(LogOf(VerifyStage(cfg, pa, p, proposal))) == CountExecutions(p.log)
  {
    RecordOutcomeExecutesNothing(p, VerificationUnavailable, pa.savedOutcome);
    LastSaveOfSnoc(p.log, VerifyCalled(proposal, pa.verify));
    var q := WithOutcome(Called(p, VerifyCalled(proposal, pa.verify)), VerifiedOutcome(pa.verify));
    CheckpointExecutesNothing(WithVerified(q, pa.verify.verified), pa.savedOutcome);
  }

  lemma ExecutionExecutesOnce(cfg: RunnerConfig, pa: ProposalAnswers, p: Progress, proposal: Proposal, name: string)
    ensures var r := Called(p, ExecuteCalled(name, proposal.args, pa.execute.Some?));
      CountExecutions(LogOf(AfterExecution(cfg, pa, r, proposal))) == CountExecutions(p.log) + 1
  {
    var e := ExecuteCalled(name, proposal.args, pa.execute.Some?);
    LastSaveOfSnoc(p.log, e);
    if pa.execute.None? {
      RecordOutcomeExecutesNothing(Called(p, e), ExecutionFailed, pa.savedOutcome);
    } else {
      VerifyExecutesNothing(cfg, pa, WithResult(Called(p, e), SanitizeMapSpec(pa.execute.value, [])), proposal);
    }
  }

  lemma ExecuteStageExecutesOnce(cfg: RunnerConfig, pa: ProposalAnswers, p: Progress, proposal: Proposal)
    ensures CountExecutions(LogOf(ExecuteStage(cfg, pa, p, proposal))) <= CountExecutions(p.log) + 1
  {
    if proposal.operation !in cfg.registry || !cfg.hasExecutor {
      RecordOutcomeExecutesNothing(p, ExecutorUnavailable, pa.savedOutcome);
    } else {
      CheckpointExecutesNothing(WithOutcome(p, Executing), pa.savedIntent);
      var f := Checkpoint(WithOutcome(p, Executing), pa.savedIntent);
      if f.Go? {
        ExecutionExecutesOnce(cfg, pa, f.p, proposal, cfg.registry[proposal.operation].name);
      }
    }
  }

  lemma AfterDecisionExecutesOnce(cfg: RunnerConfig, pa: ProposalAnswers, p: Progress, proposal: Proposal,
                                  record: ProposalRecord)
    ensures CountExecutions(LogOf(AfterDecision(cfg, pa, p, proposal, record))) <= CountExecutions(p.log) + 1
  {
    ApprovalExecutesNothing(cfg, pa, p, proposal, record);
    var g := ApprovalStage(cfg, pa, p, proposal, record);
    if g.Go? {
      ExecuteStageExecutesOnce(cfg, pa, g.p, proposal);
    }
  }

  lemma HandleOneExecutesOnce(cfg: RunnerConfig, a: CycleAnswers, pa: ProposalAnswers, p: Progress, proposal: Proposal)
    ensures CountExecutions(LogOf(HandleOne(cfg, a, pa, p, proposal))) <= CountExecutions(p.log) + 1
  {
    if pa.interrupted {
      FinishExecutesNothing(a, p, Interrupted, true);
    } else {
      var record := DecisionRecord(cfg, proposal);
      var q := p.(trace := p.trace.(proposals := p.trace.proposals + [record]));
      CheckpointExecutesNothing(q, pa.savedDecision);
      var f := Checkpoint(q, pa.savedDecision);
      if f.Go? {
        AfterDecisionExecutesOnce(cfg, pa, f.p, proposal, record);
      }
    }
  }

  lemma {:induction false} HandleFromExecutesEachOnce(cfg: RunnerConfig, a: CycleAnswers, p: Progress,
                                                      proposals: seq<Proposal>, i: nat)
    requires i <= |proposals|
    ensures CountExecutions(LogOf(HandleFrom(cfg, a, p, proposals, i))) <= CountExecutions(p.log) + |proposals| - i
    decreases |proposals| - i
  {
    if i < |proposals| {
      HandleOneExecutesOnce(cfg, a, a.proposal(i), p, proposals[i]);
      var f := HandleOne(cfg, a, a.proposal(i), p, proposals[i]);
      if !f.Stop? {
        HandleFromExecutesEachOnce(cfg, a, f.p, proposals, i + 1);
      }
    }
  }

  lemma ProposalStageExecutesOnce(cfg: RunnerConfig, a: CycleAnswers, p: Progress, plan: seq<Proposal>)
    ensures CountExecutions(LogOf(ProposalStage(cfg, a, p, plan))) <= CountExecutions(p.log) + 1
  {
    var q := if |plan| > Limit(cfg) then p.(trace := p.trace.(result := ProposalLimitReached)) else p;
    HandleFromExecutesEachOnce(cfg, a, q, Kept(cfg, plan), 0);
    assert |Kept(cfg, plan)| <= 1;
    var f := HandleFrom(cfg, a, q, Kept(cfg, plan), 0);
    if !f.Stop? {
      FinishExecutesNothing(a, f.p, FinalStatus(f.p.trace), false);
    }
  }

  lemma RetrieveExecutesNothing(cfg: RunnerConfig, a: CycleAnswers, p: Progress)
    ensures CountExecutions(LogOf(RetrieveStage(cfg, a, p))) == CountExecutions(p.log)
  {
    LastSaveOfSnoc(p.log, RetrieveCalled);
    var q := Called(p, RetrieveCalled);
    match a.retrieve
    case QueryFailed => FinishExecutesNothing(a, p, RetrievalFailed, true);
    case RetrieveError => FinishExecutesNothing(a, q, RetrievalFailed, true);
    case Citations(list) =>
      CheckpointExecutesNothing(q.(trace := q.trace.(knowledge := q.trace.knowledge + list)), a.savedKnowledge);
  }

  lemma PlanStageExecutesOnce(cfg: RunnerConfig, a: CycleAnswers, p: Progress)
    ensures CountExecutions(LogOf(PlanStage(cfg, a, p))) <= CountExecutions(p.log) + 1
  {
    ShownNamesAreRegistered(cfg);
    var shown := ShownNames(cfg);
    var t := p.trace.(availableOperations := Snapshots(cfg.registry, shown));
    var r := Called(p.(trace := t), PlanCalled(shown));
    LastSaveOfSnoc(p.log, PlanCalled(shown));
    if a.plan.None? {
      FinishExecutesNothing(a, r, PlanningFailed, true);
    } else {
      var s := r.(trace := t.(planningCompleted := true));
      CheckpointExecutesNothing(s, a.savedPlan);
      if a.savedPlan {
        ProposalStageExecutesOnce(cfg, a, Checkpoint(s, true).p, a.plan.value);
      }
    }
  }

  lemma AfterObservationExecutesOnce(cfg: RunnerConfig, a: CycleAnswers, p: Progress)
    ensures CountExecutions(LogOf(AfterObservation(cfg, a, p))) <= CountExecutions(p.log) + 1
  {
    FinishExecutesNothing(a, p, Observed, false);
    FinishExecutesNothing(a, p, PlannerUnavailable, true);
    FinishExecutesNothing(a, p, NoExecutor, true);
    RetrieveExecutesNothing(cfg, a, p);
    var f := RetrieveStage(cfg, a, p);
    if f.Go? {
      PlanStageExecutesOnce(cfg, a, f.p);
    }
  }

  /** A cycle hands at most one operation to its executor, whatever the planner proposes. */
  lemma AtMostOneExecution(cfg: RunnerConfig, req: CycleRequest, a: CycleAnswers)
    ensures CountExecutions(LogOf(RunCycle(cfg, req, a))) <= 1
  {
    if a.newID.Some? {
      var t := StartTrace(req, a);
      CheckpointExecutesNothing(Progress([], t), a.savedInitial);
      var f := Checkpoint(Progress([], t), a.savedInitial);
      if f.Go? {
        LastSaveOfSnoc(f.p.log, ObserveCalled);
        var q := Called(f.p, ObserveCalled);
        FinishExecutesNothing(a, q, ObservationFailed, true);
        if a.observe.Some? {
          var u := q.trace.(observations := SanitizeMapSpec(a.observe.value, []), scopes := ScopeList(cfg.policy));
          CheckpointExecutesNothing(q.(trace := u), a.savedObservations);
          var g := Checkpoint(q.(trace := u), a.savedObservations);
          if g.Go? {
            AfterObservationExecutesOnce(cfg, a, g.p);
          }
        }
      }
    }
  }

  // ---------- one id for the whole cycle, and no secret arguments ----------

  function TraceOf(f: Flow): CycleTrace {
    if f.Stop? then f.trace else f.p.trace
  }

  /** A recorded proposal gives nothing away: no value stands below a marked key or a name its operation
      declares, and the arguments of an unknown operation are not recorded at all. */
  ghost predicate GivesNothingAway(cfg: RunnerConfig, p: Proposal) {
    p.args.Some? ==>
      p.operation in cfg.registry && NothingToHide(JObject(p.args.value), cfg.registry[p.operation].sensitiveArgs)
  }

  ghost predicate Clean(cfg: RunnerConfig, t: CycleTrace) {
    forall i | 0 <= i < |t.proposals| :: GivesNothingAway(cfg, t.proposals[i].proposal)
  }

  /** What every stage keeps. */
  ghost predicate Carries(cfg: RunnerConfig, before: CycleTrace, after: CycleTrace) {
    after.id == before.id && (Clean(cfg, before) ==> Clean(cfg, after))
  }

  /** A stage adds calls and carries the trace on. */
  ghost predicate Keeps(cfg: RunnerConfig, p: Progress, f: Flow) {
    p.log <= LogOf(f) && Carries(cfg, p.trace, TraceOf(f))
  }

  lemma DecisionIsClean(cfg: RunnerConfig, t: CycleTrace, proposal: Proposal)
    ensures Carries(cfg, t, t.(proposals := t.proposals + [DecisionRecord(cfg, proposal)]))
  {
    var record := DecisionRecord(cfg, proposal);
    if proposal.operation in cfg.registry && proposal.args.Some? {
      var declared := cfg.registry[proposal.operation].sensitiveArgs;
      var copy := SanitizeMapSpec(proposal.args.value, declared);
      SanitizedMapIsRedactedCopy(proposal.args.value, declared);
      RedactedCopyHidesAll(JObject(proposal.args.value), JObject(copy), declared);
    }
    assert GivesNothingAway(cfg, record.proposal);
  }

  lemma RecordUpdatesAreClean(cfg: RunnerConfig, p: Progress, o: Outcome, result: JsonMap, verified: bool)
    ensures Carries(cfg, p.trace, WithOutcome(p, o).trace)
    ensures Carries(cfg, p.trace, WithResult(p, result).trace)
    ensures Carries(cfg, p.trace, WithVerified(p, verified).trace)
  {
  }

  lemma OutcomeIsClean(cfg: RunnerConfig, p: Progress, o: Outcome, ok: bool)
    ensures Keeps(cfg, p, RecordOutcome(p, o, ok))
    ensures Keeps(cfg, p, Checkpoint(WithOutcome(p, o), ok))
  {
    RecordUpdatesAreClean(cfg, p, o, map[], false);
  }

  lemma ApprovalCarries(cfg: RunnerConfig, pa: ProposalAnswers, p: Progress, proposal: Proposal, record: ProposalRecord)
    ensures Keeps(cfg, p, ApprovalStage(cfg, pa, p, proposal, record))
  {
    var q := Called(p, ApproveCalled(proposal, pa.approve));
    OutcomeIsClean(cfg, p, ApprovalUnavailable, pa.savedOutcome);
    OutcomeIsClean(cfg, p, ApprovalDelegated, pa.savedDelegation);
    OutcomeIsClean(cfg, q, ApprovalCheckFailed, pa.savedOutcome);
    OutcomeIsClean(cfg, q, ApprovalDenied, pa.savedOutcome);
  }

  lemma VerifyCarries(cfg: RunnerConfig, pa: ProposalAnswers, p: Progress, proposal: Proposal)
    ensures Keeps(cfg, p, VerifyStage(cfg, pa, p, proposal))
  {
    if cfg.hasVerifier {
      var called := Called(p, VerifyCalled(proposal, pa.verify));
      RecordUpdatesAreClean(cfg, called, VerifiedOutcome(pa.verify), map[], false);
      RecordUpdatesAreClean(cfg, WithOutcome(called, VerifiedOutcome(pa.verify)), Verified, map[], pa.verify.verified);
    } else {
      OutcomeIsClean(cfg, p, VerificationUnavailable, pa.savedOutcome);
    }
  }

  lemma AfterExecutionCarries(cfg: RunnerConfig, pa: ProposalAnswers, p: Progress, proposal: Proposal)
    ensures Keeps(cfg, p, AfterExecution(cfg, pa, p, proposal))
  {
    if pa.execute.None? {
      OutcomeIsClean(cfg, p, ExecutionFailed, pa.savedOutcome);
    } else {
      var result := SanitizeMapSpec(pa.execute.value, []);
      RecordUpdatesAreClean(cfg, p, Verified, result, false);
      VerifyCarries(cfg, pa, WithResult(p, result), proposal);
    }
  }

  lemma ExecuteCarries(cfg: RunnerConfig, pa: ProposalAnswers, p: Progress, proposal: Proposal)
    ensures Keeps(cfg, p, ExecuteStage(cfg, pa, p, proposal))
  {
    if proposal.operation !in cfg.registry || !cfg.hasExecutor {
      OutcomeIsClean(cfg, p, ExecutorUnavailable, pa.savedOutcome);
    } else {
      OutcomeIsClean(cfg, p, Executing, pa.savedIntent);
      var f := Checkpoint(WithOutcome(p, Executing), pa.savedIntent);
      if f.Go? {
        var e := ExecuteCalled(cfg.registry[proposal.operation].name, proposal.args, pa.execute.Some?);
        AfterExecutionCarries(cfg, pa, Called(f.p, e), proposal);
      }
    }
  }

  lemma AfterDecisionCarries(cfg: RunnerConfig, pa: ProposalAnswers, p: Progress, proposal: Proposal,
                             record: ProposalRecord)
    ensures Keeps(cfg, p, AfterDecision(cfg, pa, p, proposal, record))
  {
    ApprovalCarries(cfg, pa, p, proposal, record);
    var g := ApprovalStage(cfg, pa, p, proposal, record);
    if g.Go? {
      ExecuteCarries(cfg, pa, g.p, proposal);
    }
  }

  lemma HandleOneCarries(cfg: RunnerConfig, a: CycleAnswers, pa: ProposalAnswers, p: Progress, proposal: Proposal)
    ensures Keeps(cfg, p, HandleOne(cfg, a, pa, p, proposal))
  {
    if !pa.interrupted {
      var record := DecisionRecord(cfg, proposal);
      DecisionIsClean(cfg, p.trace, proposal);
      var f := Checkpoint(p.(trace := p.trace.(proposals := p.trace.proposals + [record])), pa.savedDecision);
      if f.Go? {
        AfterDecisionCarries(cfg, pa, f.p, proposal, record);
      }
    }
  }

  lemma {:induction false} HandleFromCarries(cfg: RunnerConfig, a: CycleAnswers, p: Progress, proposals: seq<Proposal>,
                                             i: nat)
    requires i <= |proposals|
    ensures Keeps(cfg, p, HandleFrom(cfg, a, p, proposals, i))
    decreases |proposals| - i
  {
    if i < |proposals| {
      HandleOneCarries(cfg, a, a.proposal(i), p, proposals[i]);
      var f := HandleOne(cfg, a, a.proposal(i), p, proposals[i]);
      if !f.Stop? {
        HandleFromCarries(cfg, a, f.p, proposals, i + 1);
      }
    }
  }

  lemma ProposalStageCarries(cfg: RunnerConfig, a: CycleAnswers, p: Progress, plan: seq<Proposal>)
    ensures Keeps(cfg, p, ProposalStage(cfg, a, p, plan))
  {
    var u := if |plan| > Limit(cfg) then p.(trace := p.trace.(result := ProposalLimitReached)) else p;
    HandleFromCarries(cfg, a, u, Kept(cfg, plan), 0);
  }

  lemma PlanStageCarries(cfg: RunnerConfig, a: CycleAnswers, p: Progress)
    ensures Keeps(cfg, p, PlanStage(cfg, a, p))
  {
    ShownNamesAreRegistered(cfg);
    var shown := ShownNames(cfg);
    var t := p.trace.(availableOperations := Snapshots(cfg.registry, shown));
    var q := Called(p.(trace := t), PlanCalled(shown)).(trace := t.(planningCompleted := true));
    if a.plan.Some? && a.savedPlan {
      ProposalStageCarries(cfg, a, Checkpoint(q, a.savedPlan).p, a.plan.value);
    }
  }

  lemma RetrieveStageCarries(cfg: RunnerConfig, a: CycleAnswers, p: Progress)
    ensures Keeps(cfg, p, RetrieveStage(cfg, a, p))
  {
  }

  lemma AfterObservationCarries(cfg: RunnerConfig, a: CycleAnswers, p: Progress)
    ensures Keeps(cfg, p, AfterObservation(cfg, a, p))
  {
    RetrieveStageCarries(cfg, a, p);
    var f := RetrieveStage(cfg, a, p);
    if f.Go? {
      PlanStageCarries(cfg, a, f.p);
    }
  }

  lemma ObserveStageCarries(cfg: RunnerConfig, a: CycleAnswers, p: Progress)
    ensures Keeps(cfg, p, ObserveStage(cfg, a, p))
  {
    if a.observe.Some? {
      var q := Called(p, ObserveCalled);
      var t := q.trace.(observations := SanitizeMapSpec(a.observe.value, []), scopes := ScopeList(cfg.policy));
      var f := Checkpoint(q.(trace := t), a.savedObservations);
      if f.Go? {
        AfterObservationCarries(cfg, a, f.p);
      }
    }
  }

  lemma CycleTraceHasId(cfg: RunnerConfig, req: CycleRequest, a: CycleAnswers)
    requires LogOf(RunCycle(cfg, req, a)) != []
    ensures a.newID.Some? && TraceOf(RunCycle(cfg, req, a)).id == a.newID.value
    ensures Clean(cfg, TraceOf(RunCycle(cfg, req, a)))
  {
    var t := StartTrace(req, a);
    var g := Checkpoint(Progress([], t), a.savedInitial);
    if g.Go? {
      ObserveStageCarries(cfg, a, g.p);
    }
  }

  lemma SnapshotsShareTheId(cfg: RunnerConfig, log: seq<Event>, trace: CycleTrace, n: nat)
    requires History(cfg, log) && n < |log| && log[n].Saved?
    requires LastSave(log).Some? ==> LastSave(log).value.snapshot == trace
    ensures log[n].snapshot.id == trace.id
    ensures log[n].snapshot == trace || Extends(log[n].snapshot, trace)
  {
    var k := LastSaveIn(log, n);
    if n < k {
      CheckpointChain(cfg, log, n, k);
    }
  }

  lemma LastSaveIn(log: seq<Event>, n: nat) returns (k: nat)
    requires n < |log| && log[n].Saved?
    ensures n <= k < |log| && log[k].Saved? && LastSave(log) == Some(log[k])
  {
    k := LastSaveBefore(log, n, |log|);
    assert log[..|log|] == log;
  }

  /** Every snapshot of a cycle bears the id the cycle drew. */
  lemma SnapshotsBearTheCycleId(cfg: RunnerConfig, req: CycleRequest, a: CycleAnswers, n: nat)
    requires n < |LogOf(RunCycle(cfg, req, a))| && LogOf(RunCycle(cfg, req, a))[n].Saved?
    ensures Some(LogOf(RunCycle(cfg, req, a))[n].snapshot.id) == a.newID
  {
    EveryCycleIsJustified(cfg, req, a);
    CycleTraceHasId(cfg, req, a);
    var f := RunCycle(cfg, req, a);
    SnapshotsShareTheId(cfg, f.log, f.trace, n);
  }

  /** No snapshot of any cycle holds an argument value its operation declares sensitive, or one below a
      marked key, or any argument of an unknown operation. */
  lemma SnapshotsGiveNothingAway(cfg: RunnerConfig, req: CycleRequest, a: CycleAnswers, n: nat, i: nat)
    requires n < |LogOf(RunCycle(cfg, req, a))| && LogOf(RunCycle(cfg, req, a))[n].Saved?
    requires i < |LogOf(RunCycle(cfg, req, a))[n].snapshot.proposals|
    ensures GivesNothingAway(cfg, LogOf(RunCycle(cfg, req, a))[n].snapshot.proposals[i].proposal)
  {
    EveryCycleIsJustified(cfg, req, a);
    CycleTraceHasId(cfg, req, a);
    var f := RunCycle(cfg, req, a);
    SnapshotsShareTheId(cfg, f.log, f.trace, n);
    SameProposal(f.log[n].snapshot, f.trace, i);
  }

  lemma SameProposal(s: CycleTrace, t: CycleTrace, i: nat)
    requires s == t || Extends(s, t)
    requires i < |s.proposals|
    ensures i < |t.proposals| && t.proposals[i].proposal == s.proposals[i].proposal
  {
    assert Extends(s, t) ==> RecordExtends(s.proposals[i], t.proposals[i]);
  }
}
