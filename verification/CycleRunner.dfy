/**
 The cycle runner as the source has it (agent/cycle.go): a trace value whose fields are updated step
 by step and whose proposal records live in a backing array shared with every copy of the value.
 The runner makes exactly the calls of Cycle.RunCycle.
 */
module CycleRunner {
  import opened Wrappers
  import opened Sanitize
  import opened Policy
  import opened Trace
  import opened Sorting
  import opened Cycle
  import opened CycleTheorems

  /** The calls made so far, newest last. */
  class World {
    var log: seq<Event>

    constructor ()
      ensures log == []
    {
      log := [];
    }

    method Call(e: Event)
      modifies this
      ensures log == old(log) + [e]
    {
      log := log + [e];
    }
  }

  /** A trace variable: plain fields (head.proposals stays empty) and a slice of the shared records. */
  datatype LiveTrace = LiveTrace(head: CycleTrace, records: array?<ProposalRecord>, count: nat) {
    ghost predicate Valid() {
      if records == null then count == 0 else count <= records.Length
    }

    ghost function Frame(): set<object> {
      if records == null then {} else {records}
    }
  }

  /** The trace a variable stands for, read through the shared array. */
  ghost function View(t: LiveTrace): CycleTrace
    requires t.Valid()
    reads t.Frame()
  {
    t.head.(proposals := if t.records == null then [] else t.records[..t.count])
  }

  /** How a stage ended. */
  datatype Turn = GoOn | TurnToNext | Return(failed: bool)

  ghost predicate Agrees(turn: Turn, f: Flow) {
    match f
    case Go(_) => turn == GoOn
    case Next(_) => turn == TurnToNext
    case Stop(_, _, failed) => turn == Return(failed)
  }

  /** The world and the trace variable stand where the progress says. */
  ghost predicate At(w: World, start: seq<Event>, t: LiveTrace, p: Progress)
    reads w, t.Frame()
  {
    t.Valid() && w.log == start + p.log && View(t) == p.trace
  }

  ghost function ProgressOf(f: Flow): Progress {
    Progress(LogOf(f), TraceOf(f))
  }

  /** append: in place while the array has room, into a larger copy otherwise. */
  method Append(t: LiveTrace, record: ProposalRecord) returns (r: LiveTrace)
    requires t.Valid()
    modifies t.Frame()
    ensures r.Valid() && (r.records == t.records || fresh(r.records)) && r.records != null
    ensures View(r) == old(View(t)).(proposals := old(View(t)).proposals + [record])
  {
    if t.records != null && t.count < t.records.Length {
      t.records[t.count] := record;
      r := t.(count := t.count + 1);
    } else {
      var larger := new ProposalRecord[2 * t.count + 1](_ => record);
      for i := 0 to t.count
        modifies larger
        invariant t.records != null ==> larger[..i] == t.records[..i]
        invariant larger[t.count] == record
      {
        larger[i] := t.records[i];
      }
      r := LiveTrace(t.head, larger, t.count + 1);
      assert larger[..t.count + 1] == larger[..t.count] + [larger[t.count]];
    }
  }

  /** r.save: the sink receives the trace as it stands. */
  method Save(w: World, ghost start: seq<Event>, t: LiveTrace, ok: bool, ghost p: Progress) returns (turn: Turn)
    requires At(w, start, t, p)
    modifies w
    ensures At(w, start, t, ProgressOf(Checkpoint(p, ok))) && Agrees(turn, Checkpoint(p, ok))
  {
    ghost var snapshot := View(t);
    w.log := w.log + [Saved(t.head.(proposals := if t.records == null then [] else t.records[..t.count]), ok)];
    turn := if ok then GoOn else Return(true);
  }

  method FinishCycle(w: World, ghost start: seq<Event>, a: CycleAnswers, t: LiveTrace, status: Status, cause: bool,
                     ghost p: Progress)
    returns (r: LiveTrace, turn: Turn)
    requires At(w, start, t, p)
    modifies w
    ensures r.records == t.records
    ensures At(w, start, r, ProgressOf(Finish(a, p, status, cause))) && Agrees(turn, Finish(a, p, status, cause))
  {
    r := t.(head := t.head.(finishedAt := Some(a.finishedAt), result := status));
    w.log := w.log + [Saved(r.head.(proposals := if r.records == null then [] else r.records[..r.count]),
      a.savedFinal)];
    turn := Return(cause || !a.savedFinal);
  }

  /** recordOutcome: the trace comes by value, the record changes in the caller's array. */
  method RecordTheOutcome(w: World, ghost start: seq<Event>, t: LiveTrace, index: nat, outcome: Outcome, ok: bool,
                          ghost p: Progress)
    returns (turn: Turn)
    requires At(w, start, t, p) && t.records != null && index == t.count - 1
    modifies w, t.records
    ensures At(w, start, t, ProgressOf(RecordOutcome(p, outcome, ok))) && Agrees(turn, RecordOutcome(p, outcome, ok))
  {
    t.records[index] := t.records[index].(outcome := outcome);
    assert View(t) == WithOutcome(p, outcome).trace;
    turn := Save(w, start, t, ok, WithOutcome(p, outcome));
    if turn == GoOn {
      turn := TurnToNext;
    }
  }

  method SortedScopes(policy: PolicyConfig) returns (r: seq<Scope>)
    ensures r == ScopeList(policy)
  {
    ghost var enabled := set s | s in policy.scopes && policy.scopes[s];
    r := [];
    var rest := policy.scopes.Keys;
    while rest != {}
      invariant rest <= policy.scopes.Keys && Distinct(r)
      invariant forall s :: s in r <==> s in enabled && s !in rest
      decreases rest
    {
      var s :| s in rest;
      if policy.scopes[s] {
        r := r + [s];
      }
      rest := rest - {s};
    }
    assert Elements(r) == enabled;
    StringsAreComparable(enabled);
    r := SortSlice(StringLess, r);
    SortedListIsSortedSet(StringLess, r, enabled);
  }

  method AvailableOperations(cfg: RunnerConfig) returns (r: seq<string>)
    ensures r == ShownNames(cfg)
  {
    r := [];
    var rest := cfg.registry.Keys;
    while rest != {}
      invariant rest <= cfg.registry.Keys && Distinct(r)
      invariant forall s :: s in r <==> s in ShownSet(cfg) && s !in rest
      decreases rest
    {
      var s :| s in rest;
      if OperationScopesEnabled(cfg.policy, cfg.registry[s]) {
        r := r + [s];
      }
      rest := rest - {s};
    }
    assert Elements(r) == ShownSet(cfg);
    StringsAreComparable(ShownSet(cfg));
    r := SortSlice(StringLess, r);
    SortedListIsSortedSet(StringLess, r, ShownSet(cfg));
  }

  method SnapshotOperations(registry: Registry, names: seq<string>) returns (r: seq<OperationSnapshot>)
    requires forall n :: n in names ==> n in registry
    ensures r == Snapshots(registry, names)
  {
    r := [];
    for i := 0 to |names|
      invariant r == Snapshots(registry, names[..i])
    {
      r := r + [OperationSnapshot(registry[names[i]].name, registry[names[i]].description,
        registry[names[i]].argsSchema)];
    }
    assert names[..|names|] == names;
  }

  // ---------- the stages around one proposal ----------

  method Approve(w: World, ghost start: seq<Event>, cfg: RunnerConfig, pa: ProposalAnswers, t: LiveTrace,
                 proposal: Proposal, record: ProposalRecord, ghost p: Progress)
    returns (turn: Turn)
    requires At(w, start, t, p) && t.records != null && t.count > 0
    modifies w, t.records
    ensures var f := ApprovalStage(cfg, pa, p, proposal, record);
      At(w, start, t, ProgressOf(f)) && Agrees(turn, f)
  {
    var index := t.count - 1;
    turn := GoOn;
    if record.policy.decision == ApprovalRequired {
      if !cfg.hasApprovals {
        if !cfg.hasExecutor || !cfg.delegatesApproval {
          turn := RecordTheOutcome(w, start, t, index, ApprovalUnavailable, pa.savedOutcome, p);
        } else {
          t.records[index] := t.records[index].(outcome := ApprovalDelegated);
          assert View(t) == WithOutcome(p, ApprovalDelegated).trace;
          turn := Save(w, start, t, pa.savedDelegation, WithOutcome(p, ApprovalDelegated));
        }
      } else {
        w.Call(ApproveCalled(proposal, pa.approve));
        ghost var q := Called(p, ApproveCalled(proposal, pa.approve));
        if pa.approve.None? {
          turn := RecordTheOutcome(w, start, t, index, ApprovalCheckFailed, pa.savedOutcome, q);
        } else if !pa.approve.value {
          turn := RecordTheOutcome(w, start, t, index, ApprovalDenied, pa.savedOutcome, q);
        }
      }
    }
  }

  method VerifyExecution(w: World, ghost start: seq<Event>, cfg: RunnerConfig, pa: ProposalAnswers, t: LiveTrace,
                         proposal: Proposal, ghost p: Progress)
    returns (turn: Turn)
    requires At(w, start, t, p) && t.records != null && t.count > 0
    modifies w, t.records
    ensures var f := VerifyStage(cfg, pa, p, proposal); At(w, start, t, ProgressOf(f)) && Agrees(turn, f)
  {
    var index := t.count - 1;
    if !cfg.hasVerifier {
      turn := RecordTheOutcome(w, start, t, index, VerificationUnavailable, pa.savedOutcome, p);
      return;
    }
    w.Call(VerifyCalled(proposal, pa.verify));
    ghost var q := WithOutcome(Called(p, VerifyCalled(proposal, pa.verify)), VerifiedOutcome(pa.verify));
    if pa.verify.failed {
      t.records[index] := t.records[index].(outcome := VerificationFailed);
    } else if pa.verify.verified {
      t.records[index] := t.records[index].(outcome := Verified);
    } else {
      t.records[index] := t.records[index].(outcome := NotVerified);
    }
    assert View(t) == q.trace;
    t.records[index] := t.records[index].(verified := Some(pa.verify.verified));
    assert View(t) == WithVerified(q, pa.verify.verified).trace;
    turn := Save(w, start, t, pa.savedOutcome, WithVerified(q, pa.verify.verified));
    if turn == GoOn {
      turn := TurnToNext;
    }
  }

  method Execute(w: World, ghost start: seq<Event>, cfg: RunnerConfig, pa: ProposalAnswers, t: LiveTrace,
                 proposal: Proposal, ghost p: Progress)
    returns (turn: Turn)
    requires At(w, start, t, p) && t.records != null && t.count > 0
    modifies w, t.records
    ensures var f := ExecuteStage(cfg, pa, p, proposal); At(w, start, t, ProgressOf(f)) && Agrees(turn, f)
  {
    var index := t.count - 1;
    if proposal.operation !in cfg.registry || !cfg.hasExecutor {
      turn := RecordTheOutcome(w, start, t, index, ExecutorUnavailable, pa.savedOutcome, p);
      return;
    }
    t.records[index] := t.records[index].(outcome := Executing);
    assert View(t) == WithOutcome(p, Executing).trace;
    turn := Save(w, start, t, pa.savedIntent, WithOutcome(p, Executing));
    if turn != GoOn {
      return;
    }
    var name := cfg.registry[proposal.operation].name;
    w.Call(ExecuteCalled(name, proposal.args, pa.execute.Some?));
    ghost var r := Called(Checkpoint(WithOutcome(p, Executing), pa.savedIntent).p,
      ExecuteCalled(name, proposal.args, pa.execute.Some?));
    if pa.execute.None? {
      turn := RecordTheOutcome(w, start, t, index, ExecutionFailed, pa.savedOutcome, r);
      return;
    }
    var result := SanitizeMap(pa.execute.value, []);
    t.records[index] := t.records[index].(result := result);
    assert View(t) == WithResult(r, result).trace;
    turn := VerifyExecution(w, start, cfg, pa, t, proposal, WithResult(r, result));
  }

  method Decide(cfg: RunnerConfig, proposal: Proposal) returns (record: ProposalRecord)
    ensures record == DecisionRecord(cfg, proposal)
  {
    var result := EvaluateProposal(cfg.policy, cfg.registry, proposal);
    var outcome := Decided(result.decision);
    var registered := proposal.operation in cfg.registry;
    if registered && result.decision != Deny {
      if !cfg.registry[proposal.operation].ValidArgs(proposal.args) {
        result := PolicyResult(Deny, ArgumentsDoNotMatch);
        outcome := InvalidArguments;
      }
    }
    var safe := proposal;
    if !registered {
      safe := safe.(args := None);
    } else if proposal.args.Some? {
      var args := SanitizeMap(proposal.args.value, cfg.registry[proposal.operation].sensitiveArgs);
      safe := safe.(args := Some(args));
    }
    record := ProposalRecord(safe, result, outcome, map[], None);
    if outcome == InvalidArguments {
      record := record.(proposal := record.proposal.(args := None));
    }
  }

  method HandleProposal(w: World, ghost start: seq<Event>, cfg: RunnerConfig, a: CycleAnswers, pa: ProposalAnswers,
                        t: LiveTrace, proposal: Proposal, ghost p: Progress)
    returns (r: LiveTrace, turn: Turn)
    requires At(w, start, t, p)
    modifies w, t.Frame()
    ensures r.records == t.records || fresh(r.records)
    ensures var f := HandleOne(cfg, a, pa, p, proposal); At(w, start, r, ProgressOf(f)) && Agrees(turn, f)
  {
    if pa.interrupted {
      r, turn := FinishCycle(w, start, a, t, Interrupted, true, p);
      return;
    }
    var record := Decide(cfg, proposal);
    r := Append(t, record);
    ghost var q := p.(trace := p.trace.(proposals := p.trace.proposals + [record]));
    turn := Save(w, start, r, pa.savedDecision, q);
    if turn != GoOn {
      return;
    }
    ghost var s := Checkpoint(q, pa.savedDecision).p;
    assert |View(r).proposals| > 0;
    turn := AfterTheDecision(w, start, cfg, pa, r, proposal, record, s);
  }

  method AfterTheDecision(w: World, ghost start: seq<Event>, cfg: RunnerConfig, pa: ProposalAnswers, t: LiveTrace,
                          proposal: Proposal, record: ProposalRecord, ghost p: Progress) returns (turn: Turn)
    requires At(w, start, t, p) && t.records != null && t.count > 0
    modifies w, t.records
    ensures var f := AfterDecision(cfg, pa, p, proposal, record); At(w, start, t, ProgressOf(f)) && Agrees(turn, f)
  {
    if record.policy.decision == Deny || record.policy.decision == ObserveOnly {
      return TurnToNext;
    }
    if record.policy.decision == ProposalOnly {
      return TurnToNext;
    }
    turn := Approve(w, start, cfg, pa, t, proposal, record, p);
    if turn == GoOn {
      turn := Execute(w, start, cfg, pa, t, proposal, ApprovalStage(cfg, pa, p, proposal, record).p);
    }
  }

  // ---------- the cycle ----------

  /** The closing summary: flags set in a loop over the shared records. */
  method Summarise(t: LiveTrace) returns (status: Status)
    requires t.Valid()
    ensures status == FinalStatus(View(t))
  {
    var needsAttention, approvalRequired, proposalReady, verifiedAny := false, false, false, false;
    ghost var records := View(t).proposals;
    for i := 0 to t.count
      invariant needsAttention <==> exists k | 0 <= k < i :: records[k].outcome in ATTENTION
      invariant approvalRequired <==> exists k | 0 <= k < i :: records[k].outcome in AWAITING_APPROVAL
      invariant proposalReady <==> exists k | 0 <= k < i :: records[k].outcome in {Decided(ProposalOnly)}
      invariant verifiedAny <==> exists k | 0 <= k < i :: records[k].outcome in {Verified}
    {
      var outcome := t.records[i].outcome;
      assert records[i].outcome == outcome;
      if outcome == Verified {
        verifiedAny := true;
      } else if outcome in ATTENTION {
        needsAttention := true;
      } else if outcome in AWAITING_APPROVAL {
        approvalRequired := true;
      } else if outcome == Decided(ProposalOnly) {
        proposalReady := true;
      }
    }
    status := Completed;
    if needsAttention {
      status := NeedsAttention;
    } else if approvalRequired {
      status := OwnerApprovalRequired;
    } else if proposalReady {
      status := ProposalReady;
    } else if verifiedAny {
      status := CycleVerified;
    }
    if t.head.result == ProposalLimitReached {
      status := ProposalLimitReached;
    }
  }

  lemma ProposalStageUnfolds(cfg: RunnerConfig, a: CycleAnswers, p: Progress, plan: seq<Proposal>, q: Progress)
    requires q == if |plan| > Limit(cfg) then p.(trace := p.trace.(result := ProposalLimitReached)) else p
    ensures var f := HandleFrom(cfg, a, q, Kept(cfg, plan), 0);
      ProposalStage(cfg, a, p, plan)
      == if f.Stop? then f else Finish(a, f.p, FinalStatus(f.p.trace), false)
  {
  }

  method HandleProposals(w: World, ghost start: seq<Event>, cfg: RunnerConfig, a: CycleAnswers, t: LiveTrace,
                         plan: seq<Proposal>, ghost p: Progress)
    returns (r: LiveTrace, turn: Turn)
    requires At(w, start, t, p)
    modifies w, t.Frame()
    ensures r.records == t.records || fresh(r.records)
    ensures var f := ProposalStage(cfg, a, p, plan); At(w, start, r, ProgressOf(f)) && Agrees(turn, f)
  {
    var proposals;
    r, proposals := LimitPlan(cfg, t, plan);
    ghost var q := if |plan| > Limit(cfg) then p.(trace := p.trace.(result := ProposalLimitReached)) else p;
    ProposalStageUnfolds(cfg, a, p, plan, q);
    assert At(w, start, r, q);
    r, turn := HandleEach(w, start, cfg, a, r, proposals, q);
    if turn.Return? {
      return;
    }
    r, turn := FinishSummarised(w, start, a, r, HandleFrom(cfg, a, q, proposals, 0).p);
  }

  /** The end of a cycle whose proposals were all handled. */
  method FinishSummarised(w: World, ghost start: seq<Event>, a: CycleAnswers, t: LiveTrace, ghost p: Progress)
    returns (r: LiveTrace, turn: Turn)
    requires At(w, start, t, p)
    modifies w
    ensures r.records == t.records
    ensures var f := Finish(a, p, FinalStatus(p.trace), false); At(w, start, r, ProgressOf(f)) && Agrees(turn, f)
  {
    var status := Summarise(t);
    r, turn := FinishCycle(w, start, a, t, status, false, p);
  }

  /** The cut to the configured number of proposals, remembered in the trace. */
  method LimitPlan(cfg: RunnerConfig, t: LiveTrace, plan: seq<Proposal>)
    returns (r: LiveTrace, proposals: seq<Proposal>)
    ensures proposals == Kept(cfg, plan)
    ensures r == if |plan| > Limit(cfg) then t.(head := t.head.(result := ProposalLimitReached)) else t
  {
    var limit := cfg.maxProposals;
    if limit <= 0 {
      limit := HARD_MAX_PROPOSALS;
    }
    if limit > HARD_MAX_PROPOSALS {
      limit := HARD_MAX_PROPOSALS;
    }
    r, proposals := t, plan;
    if |proposals| > limit {
      proposals := proposals[..limit];
      r := r.(head := r.head.(result := ProposalLimitReached));
    }
  }

  /** The loop over the proposals. */
  method HandleEach(w: World, ghost start: seq<Event>, cfg: RunnerConfig, a: CycleAnswers, t: LiveTrace,
                    proposals: seq<Proposal>, ghost p: Progress)
    returns (r: LiveTrace, turn: Turn)
    requires At(w, start, t, p)
    modifies w, t.Frame()
    ensures r.records == t.records || fresh(r.records)
    ensures var f := HandleFrom(cfg, a, p, proposals, 0);
      At(w, start, r, ProgressOf(f)) && turn == (if f.Stop? then Return(f.failed) else TurnToNext)
  {
    r, turn := t, TurnToNext;
    ghost var q := p;
    var i := 0;
    while i < |proposals|
      invariant 0 <= i <= |proposals|
      invariant r.records == t.records || fresh(r.records)
      invariant At(w, start, r, q)
      invariant HandleFrom(cfg, a, q, proposals, i) == HandleFrom(cfg, a, p, proposals, 0)
    {
      ghost var f := HandleOne(cfg, a, a.proposal(i), q, proposals[i]);
      r, turn := HandleProposal(w, start, cfg, a, a.proposal(i), r, proposals[i], q);
      if turn.Return? {
        return;
      }
      q := f.p;
      i := i + 1;
    }
    turn := TurnToNext;
  }

  method Plan(w: World, ghost start: seq<Event>, cfg: RunnerConfig, a: CycleAnswers, t: LiveTrace, ghost p: Progress)
    returns (r: LiveTrace, turn: Turn)
    requires At(w, start, t, p)
    modifies w, t.Frame()
    ensures r.records == t.records || fresh(r.records)
    ensures var f := PlanStage(cfg, a, p); At(w, start, r, ProgressOf(f)) && Agrees(turn, f)
  {
    var shown := AvailableOperations(cfg);
    ShownNamesAreRegistered(cfg);
    var snapshots := SnapshotOperations(cfg.registry, shown);
    r := t.(head := t.head.(availableOperations := snapshots));
    w.Call(PlanCalled(shown));
    ghost var q := Called(p.(trace := p.trace.(availableOperations := snapshots)), PlanCalled(shown));
    if a.plan.None? {
      r, turn := FinishCycle(w, start, a, r, PlanningFailed, true, q);
      return;
    }
    r := r.(head := r.head.(planningCompleted := true));
    q := q.(trace := q.trace.(planningCompleted := true));
    turn := Save(w, start, r, a.savedPlan, q);
    if turn == GoOn {
      r, turn := HandleProposals(w, start, cfg, a, r, a.plan.value, Checkpoint(q, a.savedPlan).p);
    }
  }

  method Retrieve(w: World, ghost start: seq<Event>, cfg: RunnerConfig, a: CycleAnswers, t: LiveTrace,
                  ghost p: Progress)
    returns (r: LiveTrace, turn: Turn)
    requires At(w, start, t, p)
    modifies w
    ensures r.records == t.records
    ensures var f := RetrieveStage(cfg, a, p); At(w, start, r, ProgressOf(f)) && Agrees(turn, f)
  {
    r, turn := t, GoOn;
    if cfg.hasRetriever {
      if a.retrieve.QueryFailed? {
        r, turn := FinishCycle(w, start, a, r, RetrievalFailed, true, p);
        return;
      }
      w.Call(RetrieveCalled);
      ghost var q := Called(p, RetrieveCalled);
      if a.retrieve.RetrieveError? {
        r, turn := FinishCycle(w, start, a, r, RetrievalFailed, true, q);
        return;
      }
      var knowledge := r.head.knowledge;
      for i := 0 to |a.retrieve.list|
        invariant knowledge == p.trace.knowledge + a.retrieve.list[..i]
      {
        knowledge := knowledge + [a.retrieve.list[i]];
      }
      assert a.retrieve.list[..|a.retrieve.list|] == a.retrieve.list;
      r := r.(head := r.head.(knowledge := knowledge));
      turn := Save(w, start, r, a.savedKnowledge, q.(trace := q.trace.(knowledge := knowledge)));
    }
  }

  method Observation(w: World, ghost start: seq<Event>, cfg: RunnerConfig, a: CycleAnswers, t: LiveTrace,
                     ghost p: Progress)
    returns (r: LiveTrace, turn: Turn)
    requires At(w, start, t, p)
    modifies w, t.Frame()
    ensures r.records == t.records || fresh(r.records)
    ensures var f := ObserveStage(cfg, a, p); At(w, start, r, ProgressOf(f)) && Agrees(turn, f)
  {
    r := t;
    w.Call(ObserveCalled);
    ghost var q := Called(p, ObserveCalled);
    if a.observe.None? {
      r, turn := FinishCycle(w, start, a, r, ObservationFailed, true, q);
      return;
    }
    var observations := SanitizeMap(a.observe.value, []);
    var scopes := SortedScopes(cfg.policy);
    r := r.(head := r.head.(observations := observations, scopes := scopes));
    q := q.(trace := q.trace.(observations := observations, scopes := scopes));
    turn := Save(w, start, r, a.savedObservations, q);
    if turn == GoOn {
      r, turn := RestOfCycle(w, start, cfg, a, r, Checkpoint(q, a.savedObservations).p);
    }
  }

  method RestOfCycle(w: World, ghost start: seq<Event>, cfg: RunnerConfig, a: CycleAnswers, t: LiveTrace,
                     ghost p: Progress)
    returns (r: LiveTrace, turn: Turn)
    requires At(w, start, t, p)
    modifies w, t.Frame()
    ensures r.records == t.records || fresh(r.records)
    ensures var f := AfterObservation(cfg, a, p); At(w, start, r, ProgressOf(f)) && Agrees(turn, f)
  {
    r := t;
    if cfg.policy.level == Observe {
      r, turn := FinishCycle(w, start, a, r, Observed, false, p);
      return;
    }
    if !cfg.hasPlanner {
      r, turn := FinishCycle(w, start, a, r, PlannerUnavailable, true, p);
      return;
    }
    if !cfg.hasExecutor && (cfg.policy.level == Maintain || cfg.policy.level == Autonomous) {
      r, turn := FinishCycle(w, start, a, r, NoExecutor, true, p);
      return;
    }
    r, turn := Retrieve(w, start, cfg, a, r, p);
    if turn == GoOn {
      r, turn := Plan(w, start, cfg, a, r, RetrieveStage(cfg, a, p).p);
    }
  }

  /** CycleRunner.Run. */
  method Run(w: World, cfg: RunnerConfig, request: CycleRequest, a: CycleAnswers) returns (t: LiveTrace, failed: bool)
    modifies w
    ensures w.log == old(w.log) + LogOf(RunCycle(cfg, request, a))
    ensures failed <==> RunCycle(cfg, request, a).Stop? && RunCycle(cfg, request, a).failed
    ensures t.Valid() && View(t) == TraceOf(RunCycle(cfg, request, a))
  {
    t := LiveTrace(EMPTY_TRACE, null, 0);
    if !cfg.hasObserver || !cfg.hasAudit || request.trigger == "" || !RegistryValid(cfg.registry) || a.newID.None? {
      return t, true;
    }
    ghost var start := w.log;
    t := t.(head := StartTrace(request, a));
    var turn := Save(w, start, t, a.savedInitial, Progress([], t.head));
    if turn == GoOn {
      t, turn := Observation(w, start, cfg, a, t, Checkpoint(Progress([], t.head), a.savedInitial).p);
    }
    failed := turn.Return? && turn.failed;
  }
}
