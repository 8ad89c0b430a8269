/**
 The audit record of one cycle (agent/trace.go) and its redacted copy.
 */
module Trace {
  import opened Wrappers
  import opened Sanitize
  import opened Policy

  datatype Outcome =
    | Decided(decision: Decision)
    | InvalidArguments
    | ApprovalUnavailable
    | ApprovalDelegated
    | ApprovalCheckFailed
    | ApprovalDenied
    | ExecutorUnavailable
    | Executing
    | ExecutionFailed
    | VerificationUnavailable
    | VerificationFailed
    | Verified
    | NotVerified

  datatype Status =
    | Running
    | ProposalLimitReached
    | ObservationFailed
    | Observed
    | PlannerUnavailable
    | NoExecutor
    | RetrievalFailed
    | PlanningFailed
    | Interrupted
    | Completed
    | NeedsAttention
    | OwnerApprovalRequired
    | ProposalReady
    | CycleVerified

  datatype ProposalRecord = ProposalRecord(
    proposal: Proposal,
    policy: PolicyResult,
    outcome: Outcome,
    result: JsonMap,
    verified: Option<bool>)

  datatype OperationSnapshot = OperationSnapshot(name: string, description: string, argsSchema: string)

  datatype Citation = Citation(id: string, source: string, hash: string)

  datatype CycleTrace = CycleTrace(
    id: string,
    startedAt: int,
    finishedAt: Option<int>,
    trigger: string,
    target: string,
    observations: JsonMap,
    scopes: seq<Scope>,
    availableOperations: seq<OperationSnapshot>,
    planningCompleted: bool,
    knowledge: seq<Citation>,
    proposals: seq<ProposalRecord>,
    result: Status)

  function SafeArgs(args: Args): Args {
    match args
    case None => None
    case Some(m) => Some(SanitizeMapSpec(m, []))
  }

  function SafeRecord(r: ProposalRecord): ProposalRecord {
    r.(proposal := r.proposal.(args := SafeArgs(r.proposal.args)), result := SanitizeMapSpec(r.result, []))
  }

  /** The copy the journal writes: redacted once more, everything else as it was. */
  function SafeCopy(t: CycleTrace): CycleTrace {
    t.(observations := SanitizeMapSpec(t.observations, []),
       proposals := seq(|t.proposals|, i requires 0 <= i < |t.proposals| => SafeRecord(t.proposals[i])))
  }

  /** A trace whose maps all went through the redactor already. */
  ghost predicate Redacted(t: CycleTrace) {
    SanitizeMapSpec(t.observations, []) == t.observations
    && forall i | 0 <= i < |t.proposals| :: SafeRecord(t.proposals[i]) == t.proposals[i]
  }

  /** The journal's pass leaves a trace alone exactly when every part of it was redacted before. */
  lemma SafeCopyOfRedacted(t: CycleTrace)
    ensures SafeCopy(t) == t <==> Redacted(t)
  {
    var c := SafeCopy(t);
    if Redacted(t) {
      assert c.proposals == t.proposals;
    }
    if c == t {
      forall i | 0 <= i < |t.proposals| ensures SafeRecord(t.proposals[i]) == t.proposals[i] {
        assert c.proposals[i] == SafeRecord(t.proposals[i]);
      }
    }
  }

  lemma SafeCopyIsRedacted(t: CycleTrace)
    ensures Redacted(SafeCopy(t))
  {
    SecondMapPassChangesNothing(t.observations, []);
    forall i | 0 <= i < |t.proposals| ensures SafeRecord(SafeRecord(t.proposals[i])) == SafeRecord(t.proposals[i]) {
      SecondMapPassChangesNothing(t.proposals[i].result, []);
      if t.proposals[i].proposal.args.Some? {
        SecondMapPassChangesNothing(t.proposals[i].proposal.args.value, []);
      }
    }
  }
}
