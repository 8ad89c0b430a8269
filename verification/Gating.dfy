/**
 The runtime put together (agent/runtime.go) and what it lets out: every request a service run
 publishes is registered, granted and well-formed, and at most one request of a cycle changes anything.
 */
module Gating {
  import opened Wrappers
  import opened Sanitize
  import opened Policy
  import opened Cycle
  import opened CycleHistory
  import opened CycleProgress
  import opened Service
  import opened NostrExecutor
  import Obs = NostrObserver
  import Ver = NostrVerifier

  const DAY_IN_NANOSECONDS := 24 * 3600 * 1_000_000_000

  datatype RuntimeConfig = RuntimeConfig(
    registry: Registry,
    policy: PolicyConfig,
    observationQueries: seq<Obs.ObservationQuery>,
    verificationRules: seq<Ver.VerificationRule>,
    auditPath: string,
    interval: int,
    listenForEvents: bool,
    eventLookback: int,
    hasTriggers: bool,
    wantsEmbedder: bool,
    contributes: bool,
    hasApprovals: bool,
    hasOwnVerifier: bool,
    serverKey: string)

  predicate QueriesGranted(cfg: RuntimeConfig) {
    forall i | 0 <= i < |cfg.observationQueries| ::
      cfg.observationQueries[i].operation in cfg.registry ==>
        OperationScopesEnabled(cfg.policy, cfg.registry[cfg.observationQueries[i].operation])
  }

  predicate ChecksGranted(cfg: RuntimeConfig) {
    forall i | 0 <= i < |cfg.verificationRules| ::
      cfg.verificationRules[i].checkOperation in cfg.registry ==>
        OperationScopesEnabled(cfg.policy, cfg.registry[cfg.verificationRules[i].checkOperation])
  }

  predicate ConfigValid(cfg: RuntimeConfig) {
    RegistryValid(cfg.registry) && Rank(cfg.policy.level).Some? && cfg.interval >= 0
    && 0 <= cfg.eventLookback <= DAY_IN_NANOSECONDS
    && !(cfg.listenForEvents && cfg.hasTriggers)
    && cfg.auditPath != ""
    && QueriesGranted(cfg) && ChecksGranted(cfg)
  }

  method ScopesGranted(policy: PolicyConfig, spec: OperationSpec) returns (ok: bool)
    ensures ok == OperationScopesEnabled(policy, spec)
  {
    for i := 0 to |spec.scopes|
      invariant forall j | 0 <= j < i :: policy.Enabled(spec.scopes[j])
    {
      if !policy.Enabled(spec.scopes[i]) {
        return false;
      }
    }
    ok := true;
  }

  /** The scope preflight: whatever the observer or the verifier will read needs its scopes granted. */
  method ValidateRuntimeConfig(cfg: RuntimeConfig) returns (ok: bool)
    ensures ok == ConfigValid(cfg)
  {
    if !RegistryValid(cfg.registry) || Rank(cfg.policy.level).None? || cfg.interval < 0 {
      return false;
    }
    if cfg.eventLookback < 0 || cfg.eventLookback > DAY_IN_NANOSECONDS {
      return false;
    }
    if (cfg.listenForEvents && cfg.hasTriggers) || cfg.auditPath == "" {
      return false;
    }
    for i := 0 to |cfg.observationQueries|
      invariant forall j | 0 <= j < i ::
        cfg.observationQueries[j].operation in cfg.registry ==>
          OperationScopesEnabled(cfg.policy, cfg.registry[cfg.observationQueries[j].operation])
    {
      if cfg.observationQueries[i].operation in cfg.registry {
        var granted := ScopesGranted(cfg.policy, cfg.registry[cfg.observationQueries[i].operation]);
        if !granted {
          return false;
        }
      }
    }
    for i := 0 to |cfg.verificationRules|
      invariant forall j | 0 <= j < i ::
        cfg.verificationRules[j].checkOperation in cfg.registry ==>
          OperationScopesEnabled(cfg.policy, cfg.registry[cfg.verificationRules[j].checkOperation])
    {
      if cfg.verificationRules[i].checkOperation in cfg.registry {
        var granted := ScopesGranted(cfg.policy, cfg.registry[cfg.verificationRules[i].checkOperation]);
        if !granted {
          return false;
        }
      }
    }
    ok := true;
  }

  /** What the runtime holds once it is built. */
  datatype Runtime = Runtime(
    executor: Executor,
    observer: Obs.Observer,
    verifier: Option<Ver.Verifier>,   // the built-in one
    runner: RunnerConfig)

  /** What lies outside the model, each part set up or refused: the relay transport, the event source over
      it, the planner and embedder clients, the journal file, the corpus, the contribution submitter. */
  datatype Surroundings = Surroundings(
    transport: bool,
    eventSource: bool,
    planner: bool,
    embedder: bool,
    journal: bool,
    corpus: bool,
    submitter: bool,
    digest: string)

  /** Every part the configuration asks for is there. */
  predicate PartsReady(cfg: RuntimeConfig, s: Surroundings) {
    s.transport && s.journal && s.corpus
    && (cfg.listenForEvents ==> s.eventSource)
    && (cfg.policy.level != Observe ==> s.planner)
    && (cfg.wantsEmbedder ==> s.embedder)
    && (cfg.contributes ==> s.submitter)
  }

  predicate NeedsVerifier(cfg: RuntimeConfig) {
    !cfg.hasOwnVerifier && Rank(cfg.policy.level).Some? && Rank(cfg.policy.level).value >= Rank(Maintain).value
  }

  ghost predicate Buildable(cfg: RuntimeConfig, size: Args -> nat, valueSize: Json -> nat, s: Surroundings) {
    ConfigValid(cfg) && PartsReady(cfg, s)
    && cfg.observationQueries != [] && Obs.AllFit(cfg.registry, size, cfg.observationQueries)
    && (NeedsVerifier(cfg) ==>
          cfg.verificationRules != [] && Ver.AllFit(cfg.registry, size, valueSize, cfg.verificationRules))
  }

  function RunnerOf(cfg: RuntimeConfig, e: Executor): RunnerConfig {
    RunnerConfig(cfg.policy, cfg.registry, true, true, cfg.policy.level != Observe, true, true,
                 UsesAuthoritativeApprovalChain(e), cfg.hasApprovals, cfg.hasOwnVerifier || NeedsVerifier(cfg), 0)
  }

  /** Everything the adapters may read is a plain read with its scopes granted. */
  ghost predicate WellBuilt(cfg: RuntimeConfig, r: Runtime) {
    RegistryValid(cfg.registry)
    && r.executor.registry == cfg.registry
    && r.observer.registry == cfg.registry && r.observer.Valid()
    && (forall i | 0 <= i < |r.observer.queries| ::
          OperationScopesEnabled(cfg.policy, cfg.registry[r.observer.queries[i].operation]))
    && (r.verifier.Some? ==>
          r.verifier.value.registry == cfg.registry && r.verifier.value.Valid()
          && forall op | op in r.verifier.value.rules ::
               OperationScopesEnabled(cfg.policy, cfg.registry[r.verifier.value.rules[op].checkOperation]))
    && r.runner == RunnerOf(cfg, r.executor)
  }

  /** The service's own check at the end of the construction finds nothing the earlier steps let through. */
  method NewResidentRuntime(cfg: RuntimeConfig, size: Args -> nat, valueSize: Json -> nat, s: Surroundings)
    returns (r: Option<Runtime>)
    ensures r.Some? <==> Buildable(cfg, size, valueSize, s)
    ensures r.Some? ==> WellBuilt(cfg, r.value) && r.value.verifier.Some? == NeedsVerifier(cfg)
  {
    var valid := ValidateRuntimeConfig(cfg);
    if !valid {
      return None;
    }
    var executor := NewControlPlaneExecutor(s.transport, cfg.serverKey, cfg.registry, s.digest);
    if executor.None? {
      return None;
    }
    var queries := Obs.NewObserver(cfg.registry, cfg.observationQueries, size);
    if queries.None? {
      return None;
    }
    if cfg.listenForEvents && !s.eventSource {
      return None;
    }
    if cfg.policy.level != Observe && !s.planner {
      return None;
    }
    if cfg.wantsEmbedder && !s.embedder {
      return None;
    }
    var verifier: Option<Ver.Verifier> := None;
    if NeedsVerifier(cfg) {
      var rules := Ver.NewVerifier(cfg.registry, cfg.verificationRules, size, valueSize);
      if rules.None? {
        return None;
      }
      verifier := Some(Ver.Verifier(cfg.registry, rules.value));
      ChecksAreGranted(cfg, size, valueSize, rules.value);
    }
    if !s.journal || !s.corpus {
      return None;
    }
    var runner := RunnerOf(cfg, executor.value);
    if cfg.contributes && !s.submitter {
      return None;
    }
    if !ServiceValid(ServiceConfig(runner, cfg.interval, None)) {
      assert false;
      return None;
    }
    r := Some(Runtime(executor.value, Obs.Observer(cfg.registry, queries.value), verifier, runner));
  }

  lemma ChecksAreGranted(cfg: RuntimeConfig, size: Args -> nat, valueSize: Json -> nat,
                         table: map<string, Ver.VerificationRule>)
    requires ConfigValid(cfg) && Ver.AllFit(cfg.registry, size, valueSize, cfg.verificationRules)
    requires Ver.Tabled(size, cfg.verificationRules, table)
    ensures Ver.Verifier(cfg.registry, table).Valid()
    ensures forall op | op in table ::
      table[op].checkOperation in cfg.registry
      && OperationScopesEnabled(cfg.policy, cfg.registry[table[op].checkOperation])
  {
    forall op | op in table
      ensures table[op].checkOperation in cfg.registry && cfg.registry[table[op].checkOperation].PlainRead()
      ensures table[op].constantArgs.Some? && OperationScopesEnabled(cfg.policy, cfg.registry[table[op].checkOperation])
    {
      var i :| 0 <= i < |cfg.verificationRules| && cfg.verificationRules[i].operation == op;
      assert table[op] == Ver.KeptRule(size, cfg.verificationRules[i]);
      assert Ver.RuleFits(cfg.registry, size, valueSize, cfg.verificationRules[i]);
    }
  }

  // ---------- what a service run publishes ----------

  /** The answers the relay gives to the queries of the observation at each call of a cycle. */
  type Relay = nat -> nat -> Obs.QueryAnswer

  /** The requests one call of the runner makes the adapters publish. */
  ghost function PublishedBy(r: Runtime, run: CycleRun, n: nat, relay: Relay): seq<Publication>
    requires n < |run.log| && r.observer.Valid() && (r.verifier.Some? ==> r.verifier.value.Valid())
  {
    match run.log[n]
    case ObserveCalled => Obs.QueriesPublish(r.executor, r.observer, run.request.target, relay(n), 0)
    case ExecuteCalled(operation, args, _) =>
      if operation in r.runner.registry then Publishes(r.executor, r.runner.registry[operation], args) else []
    case VerifyCalled(proposal, _) =>
      if r.verifier.Some? then Ver.CheckPublishes(r.executor, r.verifier.value, proposal) else []
    case _ => []
  }

  predicate IsPlainRead(registry: Registry, p: Publication) {
    p.operation in registry && registry[p.operation].PlainRead()
  }

  ghost predicate Granted(cfg: RuntimeConfig, p: Publication) {
    p.operation in cfg.registry
    && OperationScopesEnabled(cfg.policy, cfg.registry[p.operation])
    && cfg.registry[p.operation].ValidArgs(p.args)
  }

  lemma ObservationsAreGranted(cfg: RuntimeConfig, r: Runtime, target: string, answers: nat -> Obs.QueryAnswer,
                               p: Publication)
    requires WellBuilt(cfg, r) && p in Obs.QueriesPublish(r.executor, r.observer, target, answers, 0)
    ensures Granted(cfg, p) && IsPlainRead(cfg.registry, p)
  {
    Obs.ObservationsAreReads(r.executor, r.observer, target, answers, 0, p);
    var k :| 0 <= k < |r.observer.queries| && p.operation == r.observer.queries[k].operation
      && p.args == Obs.QueryArgs(r.observer.queries[k], target);
  }

  lemma ChecksAreReads(cfg: RuntimeConfig, r: Runtime, proposal: Proposal, p: Publication)
    requires WellBuilt(cfg, r) && r.verifier.Some? && p in Ver.CheckPublishes(r.executor, r.verifier.value, proposal)
    ensures Granted(cfg, p) && IsPlainRead(cfg.registry, p)
  {
    var rule := r.verifier.value.rules[proposal.operation];
    assert SpecValid(rule.checkOperation, cfg.registry[rule.checkOperation]);
  }

  /** A request published by the n-th call of a cycle: registered, granted, well-formed; and when it is not
      a plain read, it is the operation the runner executed, at level maintain or autonomous, allowed by
      policy or approved by the gate before or left to the host's own approval chain. */
  ghost predicate Gated(cfg: RuntimeConfig, r: Runtime, run: CycleRun, n: nat, p: Publication)
    requires n < |run.log|
  {
    Granted(cfg, p)
    && (!IsPlainRead(cfg.registry, p) ==>
          run.log[n].ExecuteCalled? && run.log[n].operation == p.operation && run.log[n].args == p.args
          && cfg.policy.level in {Maintain, Autonomous}
          && Approved(r.runner, run.log[..n], Proposal(p.operation, p.args)))
  }

  lemma EveryPublicationIsGated(cfg: RuntimeConfig, r: Runtime, run: CycleRun, n: nat, relay: Relay, p: Publication)
    requires WellBuilt(cfg, r) && CycleGood(r.runner, run)
    requires n < |run.log| && p in PublishedBy(r, run, n, relay)
    ensures Gated(cfg, r, run, n, p)
  {
    match run.log[n] {
      case ObserveCalled =>
        ObservationsAreGranted(cfg, r, run.request.target, relay(n), p);
      case VerifyCalled(proposal, _) =>
        ChecksAreReads(cfg, r, proposal, p);
      case ExecuteCalled(operation, args, _) =>
        assert Justified(r.runner, run.log[..n], run.log[n]);
        assert SpecValid(operation, cfg.registry[operation]);
        assert p == Publication(operation, args);
        assert Approved(r.runner, run.log[..n], Proposal(operation, args));
        ExecutionNeedsScopesAndLevel(cfg.policy, cfg.registry, Proposal(operation, args));
      case Saved(_, _) =>
      case RetrieveCalled =>
      case PlanCalled(_) =>
      case ApproveCalled(_, _) =>
    }
  }

  // ---------- at most one change a cycle ----------

  function CountChanges(registry: Registry, pubs: seq<Publication>): nat {
    if |pubs| == 0 then 0
    else CountChanges(registry, pubs[..|pubs| - 1]) + if IsPlainRead(registry, pubs[|pubs| - 1]) then 0 else 1
  }

  lemma {:induction false} ReadsChangeNothing(registry: Registry, pubs: seq<Publication>)
    requires forall p :: p in pubs ==> IsPlainRead(registry, p)
    ensures CountChanges(registry, pubs) == 0
  {
    if |pubs| > 0 {
      ReadsChangeNothing(registry, pubs[..|pubs| - 1]);
    }
  }

  lemma {:induction false} ChangesAdd(registry: Registry, a: seq<Publication>, b: seq<Publication>)
    ensures CountChanges(registry, a + b) == CountChanges(registry, a) + CountChanges(registry, b)
    decreases |b|
  {
    if |b| == 0 {
      assert a + b == a;
    } else {
      assert (a + b)[..|a + b| - 1] == a + b[..|b| - 1];
      ChangesAdd(registry, a, b[..|b| - 1]);
    }
  }

  /** All requests published during the first n calls of a cycle. */
  ghost function Published(r: Runtime, run: CycleRun, n: nat, relay: Relay): seq<Publication>
    requires n <= |run.log| && r.observer.Valid() && (r.verifier.Some? ==> r.verifier.value.Valid())
  {
    if n == 0 then [] else Published(r, run, n - 1, relay) + PublishedBy(r, run, n - 1, relay)
  }

  lemma ChangesOfOneCall(cfg: RuntimeConfig, r: Runtime, run: CycleRun, n: nat, relay: Relay)
    requires WellBuilt(cfg, r) && n < |run.log|
    ensures CountChanges(cfg.registry, PublishedBy(r, run, n, relay)) <= if run.log[n].ExecuteCalled? then 1 else 0
  {
    var pubs := PublishedBy(r, run, n, relay);
    if run.log[n].ExecuteCalled? {
      assert |pubs| <= 1;
      assert |pubs| == 1 ==> pubs[..0] == [];
    } else {
      forall p | p in pubs ensures IsPlainRead(cfg.registry, p) {
        if run.log[n].ObserveCalled? {
          ObservationsAreGranted(cfg, r, run.request.target, relay(n), p);
        } else {
          ChecksAreReads(cfg, r, run.log[n].proposal, p);
        }
      }
      ReadsChangeNothing(cfg.registry, pubs);
    }
  }

  lemma {:induction false} ChangesAreExecutions(cfg: RuntimeConfig, r: Runtime, run: CycleRun, n: nat, relay: Relay)
    requires WellBuilt(cfg, r) && n <= |run.log|
    ensures CountChanges(cfg.registry, Published(r, run, n, relay)) <= CountExecutions(run.log[..n])
  {
    if n > 0 {
      ChangesAreExecutions(cfg, r, run, n - 1, relay);
      ChangesAdd(cfg.registry, Published(r, run, n - 1, relay), PublishedBy(r, run, n - 1, relay));
      ChangesOfOneCall(cfg, r, run, n - 1, relay);
      ExecutionsUpTo(run.log, n);
    }
  }

  lemma ExecutionsUpTo(log: seq<Event>, n: nat)
    requires 0 < n <= |log|
    ensures CountExecutions(log[..n]) == CountExecutions(log[..n - 1]) + if log[n - 1].ExecuteCalled? then 1 else 0
  {
    assert log[..n][..n - 1] == log[..n - 1];
  }

  /** One cycle of a built runtime: every request it publishes is gated, and at most one is a change. */
  ghost predicate CycleGated(cfg: RuntimeConfig, r: Runtime, run: CycleRun, relay: Relay)
    requires WellBuilt(cfg, r)
  {
    CountChanges(cfg.registry, Published(r, run, |run.log|, relay)) <= 1
    && forall n, p | 0 <= n < |run.log| && p in PublishedBy(r, run, n, relay) :: Gated(cfg, r, run, n, p)
  }

  lemma GoodCyclesAreGated(cfg: RuntimeConfig, r: Runtime, run: CycleRun, relay: Relay)
    requires WellBuilt(cfg, r) && CycleGood(r.runner, run)
    ensures CycleGated(cfg, r, run, relay)
  {
    ChangesAreExecutions(cfg, r, run, |run.log|, relay);
    assert run.log[..|run.log|] == run.log;
    forall n, p | 0 <= n < |run.log| && p in PublishedBy(r, run, n, relay)
      ensures Gated(cfg, r, run, n, p)
    {
      EveryPublicationIsGated(cfg, r, run, n, relay, p);
    }
  }

  /** Every cycle of every service run of a built runtime is gated, whatever planner, gate and relay answer. */
  lemma EveryServiceRunIsGated(cfg: RuntimeConfig, r: Runtime, start: Option<CycleAnswers>, signals: seq<Signal>,
                               relay: Relay)
    requires WellBuilt(cfg, r)
    ensures forall i | 0 <= i < |Serve(ServiceConfig(r.runner, cfg.interval, start), signals).cycles| ::
      CycleGated(cfg, r, Serve(ServiceConfig(r.runner, cfg.interval, start), signals).cycles[i], relay)
  {
    var service := ServiceConfig(r.runner, cfg.interval, start);
    EveryServiceRunIsGood(service, signals);
    var cycles := Serve(service, signals).cycles;
    forall i | 0 <= i < |cycles| ensures CycleGated(cfg, r, cycles[i], relay) {
      GoodCyclesAreGated(cfg, r, cycles[i], relay);
    }
  }

  // ---------- what is released is published ----------

  /** A built runtime lacks nothing its level asks for, and leaves approvals to the operation daemon exactly when it
      knows the key the daemon signs with. */
  lemma BuiltRunnerIsComplete(cfg: RuntimeConfig, r: Runtime)
    requires WellBuilt(cfg, r) && cfg.policy.level in {Assist, Maintain, Autonomous}
    ensures Complete(r.runner) && r.runner.hasRetriever
    ensures cfg.policy.level in {Maintain, Autonomous} ==> r.runner.hasVerifier
    ensures ServiceValid(ServiceConfig(r.runner, 0, None)) && r.runner.policy == cfg.policy
    ensures r.runner.delegatesApproval <==> r.executor.hasTransport && Hex(r.executor.serverKey)
  {
  }

  /** In an undisturbed cycle of a built runtime the released operation leaves the process, with the
      arguments of the proposal, and directly behind it, when it succeeded, the read that verifies it. */
  lemma ReleasedOperationIsPublished(cfg: RuntimeConfig, r: Runtime, request: CycleRequest, a: CycleAnswers,
                                     relay: Relay)
    returns (n: nat)
    requires WellBuilt(cfg, r) && cfg.policy.level in {Assist, Maintain, Autonomous}
    requires UsesAuthoritativeApprovalChain(r.executor)
    requires Undisturbed(r.runner, request, a) && a.plan.value != []
    requires Released(r.runner, a.proposal(0), a.plan.value[0])
    ensures var run, p := OneCycle(r.runner, request, a), a.plan.value[0];
      n < |run.log| && PublishedBy(r, run, n, relay) == [Publication(p.operation, p.args)]
    ensures var run, p := OneCycle(r.runner, request, a), a.plan.value[0];
      a.proposal(0).execute.Some? && r.runner.hasVerifier && r.verifier.Some? ==>
        n + 1 < |run.log|
        && PublishedBy(r, run, n + 1, relay) == Ver.CheckPublishes(r.executor, r.verifier.value, p)
  {
    BuiltRunnerIsComplete(cfg, r);
    var t, record, e := UndisturbedCycle(r.runner, request, a);
    n := e;
    PublishedWhereExecuted(cfg, r, OneCycle(r.runner, request, a), a.proposal(0), a.plan.value[0], e, relay);
  }

  lemma PublishedWhereExecuted(cfg: RuntimeConfig, r: Runtime, run: CycleRun, pa: ProposalAnswers, p: Proposal, e: nat,
                               relay: Relay)
    requires WellBuilt(cfg, r) && UsesAuthoritativeApprovalChain(r.executor)
    requires Released(r.runner, pa, p) && ExecutedAt(r.runner, pa, p, run.log, e)
    ensures PublishedBy(r, run, e, relay) == [Publication(p.operation, p.args)]
    ensures pa.execute.Some? && r.runner.hasVerifier && r.verifier.Some? ==>
      PublishedBy(r, run, e + 1, relay) == Ver.CheckPublishes(r.executor, r.verifier.value, p)
  {
    assert SpecValid(p.operation, cfg.registry[p.operation]);
  }
}
