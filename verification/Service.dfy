/**
 The resident service (agent/service.go): cycles one after another until the context ends or one fails.
 */
module Service {
  import opened Wrappers
  import opened Lists
  import opened Policy
  import opened Cycle
  import opened CycleHistory
  import opened CycleTheorems

  /** What the select statement of the service loop may receive. */
  datatype Signal =
    | ContextDone
    | TriggersClosed
    | Trigger(request: CycleRequest, answers: CycleAnswers)
    | Tick(answers: CycleAnswers)

  datatype ServiceConfig = ServiceConfig(runner: RunnerConfig, interval: int, startCycle: Option<CycleAnswers>)

  const SCHEDULED := CycleRequest("scheduled_maintenance", "")
  const STARTED := CycleRequest("service_started", "")

  predicate ServiceValid(cfg: ServiceConfig) {
    cfg.interval >= 0
    && cfg.runner.hasObserver && cfg.runner.hasAudit
    && RegistryValid(cfg.runner.registry)
    && Rank(cfg.runner.policy.level).Some?
    && (cfg.runner.policy.level != Observe ==> cfg.runner.hasPlanner)
    && (Rank(cfg.runner.policy.level).value >= Rank(Maintain).value ==>
      cfg.runner.hasExecutor && cfg.runner.hasVerifier)
  }

  /** The cycles a service ran: one input and one log of calls each; failed says it stopped with an error. */
  datatype Served = Served(cycles: seq<CycleRun>, failed: bool)

  datatype CycleRun = CycleRun(request: CycleRequest, answers: CycleAnswers, log: seq<Event>)

  ghost function Prepend(run: CycleRun, rest: Served): Served {
    Served([run] + rest.cycles, rest.failed)
  }

  ghost function OneCycle(cfg: RunnerConfig, request: CycleRequest, answers: CycleAnswers): CycleRun {
    CycleRun(request, answers, LogOf(RunCycle(cfg, request, answers)))
  }

  ghost predicate CycleFails(cfg: RunnerConfig, request: CycleRequest, answers: CycleAnswers) {
    RunCycle(cfg, request, answers).Stop? && RunCycle(cfg, request, answers).failed
  }

  /** The loop: open says whether the trigger channel still delivers. */
  ghost function Loop(cfg: RunnerConfig, signals: seq<Signal>, open: bool): Served
    decreases |signals|
  {
    if |signals| == 0 then Served([], false)
    else
      match signals[0]
      case ContextDone => Served([], false)
      case TriggersClosed => Loop(cfg, signals[1..], false)
      case Trigger(request, answers) =>
        if !open then Loop(cfg, signals[1..], open) else AfterCycle(cfg, request, answers, signals, open)
      case Tick(answers) => AfterCycle(cfg, SCHEDULED, answers, signals, open)
  }

  ghost function AfterCycle(cfg: RunnerConfig, request: CycleRequest, answers: CycleAnswers, signals: seq<Signal>,
                            open: bool): Served
    requires |signals| > 0
    decreases |signals|, 0
  {
    if CycleFails(cfg, request, answers) then Served([OneCycle(cfg, request, answers)], true)
    else Prepend(OneCycle(cfg, request, answers), Loop(cfg, signals[1..], open))
  }

  ghost function Serve(cfg: ServiceConfig, signals: seq<Signal>): Served {
    if !ServiceValid(cfg) then Served([], true)
    else if cfg.startCycle.None? then Loop(cfg.runner, signals, true)
    else if CycleFails(cfg.runner, STARTED, cfg.startCycle.value) then
      Served([OneCycle(cfg.runner, STARTED, cfg.startCycle.value)], true)
    else Prepend(OneCycle(cfg.runner, STARTED, cfg.startCycle.value), Loop(cfg.runner, signals, true))
  }

  /** All calls of a service run, in order. */
  ghost function Flat(cycles: seq<CycleRun>): seq<Event> {
    if |cycles| == 0 then [] else cycles[0].log + Flat(cycles[1..])
  }

  // ---------- what every service run keeps ----------

  /** A cycle that ended well: its last Save succeeded and was the finishing one. */
  ghost predicate EndedWell(log: seq<Event>) {
    LastSave(log).Some? && LastSave(log).value.ok && LastSave(log).value.snapshot.finishedAt.Some?
  }

  ghost predicate CycleGood(cfg: RunnerConfig, run: CycleRun) {
    run.log == LogOf(RunCycle(cfg, run.request, run.answers))
    && History(cfg, run.log)
    && CountExecutions(run.log) <= 1
    && forall n | 0 <= n < |run.log| && run.log[n].Saved? :: Some(run.log[n].snapshot.id) == run.answers.newID
  }

  /** Every cycle is justified, and only the last one may have failed. */
  ghost predicate ServiceGood(cfg: RunnerConfig, s: Served) {
    (forall i | 0 <= i < |s.cycles| :: CycleGood(cfg, s.cycles[i]))
    && forall i | 0 <= i < |s.cycles| && (i < |s.cycles| - 1 || !s.failed) :: EndedWell(s.cycles[i].log)
  }

  lemma OneCycleGood(cfg: RunnerConfig, request: CycleRequest, answers: CycleAnswers)
    ensures CycleGood(cfg, OneCycle(cfg, request, answers))
    ensures !CycleFails(cfg, request, answers) ==> EndedWell(OneCycle(cfg, request, answers).log)
  {
    EveryCycleIsJustified(cfg, request, answers);
    AtMostOneExecution(cfg, request, answers);
    var run := OneCycle(cfg, request, answers);
    forall n | 0 <= n < |run.log| && run.log[n].Saved? ensures Some(run.log[n].snapshot.id) == run.answers.newID {
      SnapshotsBearTheCycleId(cfg, request, answers, n);
    }
  }

  lemma PrependGood(cfg: RunnerConfig, run: CycleRun, rest: Served)
    requires CycleGood(cfg, run) && EndedWell(run.log) && ServiceGood(cfg, rest)
    ensures ServiceGood(cfg, Prepend(run, rest))
  {
    var s := Prepend(run, rest);
    PrependedCycles(run, rest);
    forall i | 0 <= i < |s.cycles| ensures CycleGood(cfg, s.cycles[i]) {
    }
    forall i | 0 <= i < |s.cycles| && (i < |s.cycles| - 1 || !s.failed) ensures EndedWell(s.cycles[i].log) {
    }
  }

  lemma PrependedCycles(run: CycleRun, rest: Served)
    ensures Prepend(run, rest).cycles[0] == run
    ensures forall i | 0 < i < |Prepend(run, rest).cycles| :: Prepend(run, rest).cycles[i] == rest.cycles[i - 1]
  {
  }

  lemma {:induction false} LoopGood(cfg: RunnerConfig, signals: seq<Signal>, open: bool)
    ensures ServiceGood(cfg, Loop(cfg, signals, open))
    decreases |signals|
  {
    if |signals| > 0 && !signals[0].ContextDone? {
      LoopGood(cfg, signals[1..], open);
      LoopGood(cfg, signals[1..], false);
      if signals[0].Trigger? {
        OneCycleGood(cfg, signals[0].request, signals[0].answers);
        if !CycleFails(cfg, signals[0].request, signals[0].answers) {
          PrependGood(cfg, OneCycle(cfg, signals[0].request, signals[0].answers), Loop(cfg, signals[1..], open));
        }
      } else if signals[0].Tick? {
        OneCycleGood(cfg, SCHEDULED, signals[0].answers);
        if !CycleFails(cfg, SCHEDULED, signals[0].answers) {
          PrependGood(cfg, OneCycle(cfg, SCHEDULED, signals[0].answers), Loop(cfg, signals[1..], open));
        }
      }
    }
  }

  lemma EveryServiceRunIsGood(cfg: ServiceConfig, signals: seq<Signal>)
    ensures ServiceGood(cfg.runner, Serve(cfg, signals))
  {
    LoopGood(cfg.runner, signals, true);
    if ServiceValid(cfg) && cfg.startCycle.Some? {
      OneCycleGood(cfg.runner, STARTED, cfg.startCycle.value);
      if !CycleFails(cfg.runner, STARTED, cfg.startCycle.value) {
        PrependGood(cfg.runner, OneCycle(cfg.runner, STARTED, cfg.startCycle.value), Loop(cfg.runner, signals, true));
      }
    }
  }

  /** In a log that ended well no Save failed and the last call is the finishing Save. */
  lemma WellEndedLog(cfg: RunnerConfig, log: seq<Event>)
    requires History(cfg, log) && EndedWell(log)
    ensures forall n | 0 <= n < |log| && log[n].Saved? :: log[n].ok
  {
    LastSaveIsLast(log);
    forall n | 0 <= n < |log| && log[n].Saved? ensures log[n].ok {
      var k :| 0 <= k < |log| && log[k] == LastSave(log).value && forall m | k < m < |log| :: !log[m].Saved?;
      if n < k {
        CheckpointChain(cfg, log, n, k);
      }
    }
  }

  /** After a failed Save nothing is called any more: no observation, plan, approval, execution or
      verification, and no further cycle. */
  lemma {:induction false} FailedSaveStopsTheService(cfg: RunnerConfig, s: Served, n: nat)
    requires ServiceGood(cfg, s)
    requires n < |Flat(s.cycles)| && Flat(s.cycles)[n].Saved? && !Flat(s.cycles)[n].ok
    ensures n == |Flat(s.cycles)| - 1
    decreases |s.cycles|
  {
    var first := s.cycles[0].log;
    assert CycleGood(cfg, s.cycles[0]);
    if |s.cycles| == 1 {
      assert Flat(s.cycles[1..]) == [];
      assert Flat(s.cycles) == first;
      if n < |first| - 1 {
        CheckpointChain(cfg, first, n, |first| - 1);
      }
    } else {
      assert EndedWell(first);
      WellEndedLog(cfg, first);
      assert Flat(s.cycles) == first + Flat(s.cycles[1..]);
      assert forall m | 0 <= m < |first| :: Flat(s.cycles)[m] == first[m];
      var rest := Served(s.cycles[1..], s.failed);
      forall i | 0 <= i < |rest.cycles| ensures rest.cycles[i] == s.cycles[i + 1] {}
      FailedSaveStopsTheService(cfg, rest, n - |first|);
    }
  }

  // ---------- every signal has its effect ----------

  predicate Ends(before: seq<Signal>) {
    exists i | 0 <= i < |before| :: before[i].ContextDone?
  }

  predicate Closes(before: seq<Signal>) {
    exists i | 0 <= i < |before| :: before[i].TriggersClosed?
  }

  ghost function Then(first: Served, next: Served): Served {
    Served(first.cycles + next.cycles, next.failed)
  }

  /** Signals that neither end the context nor bring a failed cycle leave the loop running. */
  lemma {:induction false} LoopGoesOn(cfg: RunnerConfig, before: seq<Signal>, rest: seq<Signal>, open: bool)
    requires !Ends(before) && !Loop(cfg, before, open).failed
    ensures Loop(cfg, before + rest, open) == Then(Loop(cfg, before, open), Loop(cfg, rest, open && !Closes(before)))
    decreases |before|
  {
    if before == [] {
      assert before + rest == rest;
      assert [] + Loop(cfg, rest, open).cycles == Loop(cfg, rest, open).cycles;
    } else {
      var all, tail := before + rest, before[1..];
      assert all[1..] == tail + rest && all[0] == before[0];
      assert forall i | 0 <= i < |tail| :: tail[i] == before[i + 1];
      assert Closes(before) <==> before[0].TriggersClosed? || Closes(tail);
      var open' := open && !before[0].TriggersClosed?;
      LoopGoesOn(cfg, tail, rest, open');
      if before[0].Tick? || (before[0].Trigger? && open) {
        var request := if before[0].Tick? then SCHEDULED else before[0].request;
        AppendAssociates([OneCycle(cfg, request, before[0].answers)],
                         Loop(cfg, tail, open').cycles, Loop(cfg, rest, open' && !Closes(tail)).cycles);
      }
    }
  }

  /** The same after an immediate first cycle. */
  lemma ServiceGoesOn(cfg: ServiceConfig, before: seq<Signal>, rest: seq<Signal>)
    requires ServiceValid(cfg) && !Ends(before) && !Serve(cfg, before).failed
    ensures Serve(cfg, before + rest) == Then(Serve(cfg, before), Loop(cfg.runner, rest, !Closes(before)))
  {
    LoopGoesOn(cfg.runner, before, rest, true);
    if cfg.startCycle.Some? {
      AppendAssociates([OneCycle(cfg.runner, STARTED, cfg.startCycle.value)],
                       Loop(cfg.runner, before, true).cycles, Loop(cfg.runner, rest, !Closes(before)).cycles);
    }
  }

  /** Behind the cycles so far the service runs one on this request with these answers, and no further one
      when it fails. */
  ghost predicate RunsCycle(cfg: ServiceConfig, s: Served, before: Served, request: CycleRequest, answers: CycleAnswers)
  {
    var f := RunCycle(cfg.runner, request, answers);
    var n := |before.cycles|;
    n < |s.cycles| && s.cycles[..n] == before.cycles
    && s.cycles[n] == CycleRun(request, answers, LogOf(f))
    && (f.Stop? && f.failed ==> s.failed && |s.cycles| == n + 1)
  }

  /** What the next signal does to a running service: an open trigger gets a cycle for its own request, a
      tick one for scheduled maintenance, whatever follows; the end of the context ends the service; a
      trigger behind the closing of the channel does nothing. */
  lemma SignalHasItsEffect(cfg: ServiceConfig, before: seq<Signal>, signal: Signal, after: seq<Signal>)
    requires ServiceValid(cfg) && !Ends(before) && !Serve(cfg, before).failed
    ensures signal.Trigger? && !Closes(before) ==>
      RunsCycle(cfg, Serve(cfg, before + ([signal] + after)), Serve(cfg, before), signal.request, signal.answers)
    ensures signal.Tick? ==>
      RunsCycle(cfg, Serve(cfg, before + ([signal] + after)), Serve(cfg, before),
                CycleRequest("scheduled_maintenance", ""), signal.answers)
    ensures signal.ContextDone? ==> Serve(cfg, before + ([signal] + after)) == Serve(cfg, before)
    ensures signal.Trigger? && Closes(before) ==> Serve(cfg, before + ([signal] + after)) == Serve(cfg, before + after)
  {
    var rest := [signal] + after;
    assert rest[1..] == after;
    ServiceGoesOn(cfg, before, rest);
    ServiceGoesOn(cfg, before, after);
    assert Serve(cfg, before).cycles + [] == Serve(cfg, before).cycles;
  }

  /** A service that runs a cycle at once runs it on its own request, before any signal; a configuration
      that is not valid runs none. */
  lemma ServiceStarts(cfg: ServiceConfig, signals: seq<Signal>)
    ensures !ServiceValid(cfg) ==> Serve(cfg, signals) == Served([], true)
    ensures ServiceValid(cfg) && cfg.startCycle.Some? ==>
      RunsCycle(cfg, Serve(cfg, signals), Served([], false), CycleRequest("service_started", ""), cfg.startCycle.value)
    ensures ServiceValid(cfg) && cfg.startCycle.None? ==> Serve(cfg, []) == Served([], false)
  {
  }

  /** A service is valid exactly when its interval is, and its runner has an observer, a journal, a valid
      registry, and what its level adds: a planner above observe, an executor and a verifier from maintain
      on. */
  lemma ServiceValidExactlyWhen(cfg: ServiceConfig)
    ensures ServiceValid(cfg) <==>
      cfg.interval >= 0 && cfg.runner.hasObserver && cfg.runner.hasAudit && RegistryValid(cfg.runner.registry)
      && match cfg.runner.policy.level
         case Observe => true
         case Assist => cfg.runner.hasPlanner
         case Maintain => cfg.runner.hasPlanner && cfg.runner.hasExecutor && cfg.runner.hasVerifier
         case Autonomous => cfg.runner.hasPlanner && cfg.runner.hasExecutor && cfg.runner.hasVerifier
         case UnknownLevel(_) => false
  {
  }
}
