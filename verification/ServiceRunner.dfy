/**
 The service loop as the source has it (agent/service.go): one effectful cycle per signal, the trigger
 channel forgotten once it is closed.
 */
module ServiceRunner {
  import opened Wrappers
  import opened Lists
  import opened Cycle
  import opened CycleRunner
  import opened Service

  method RunOne(w: World, cfg: RunnerConfig, request: CycleRequest, answers: CycleAnswers) returns (failed: bool)
    modifies w
    ensures w.log == old(w.log) + OneCycle(cfg, request, answers).log
    ensures failed <==> CycleFails(cfg, request, answers)
  {
    var t;
    t, failed := CycleRunner.Run(w, cfg, request, answers);
  }

  lemma FlatPrepend(run: CycleRun, rest: seq<CycleRun>)
    ensures Flat([run] + rest) == run.log + Flat(rest)
  {
    assert ([run] + rest)[1..] == rest;
  }

  /** The calls of the loop still to come. */
  ghost function Rest(cfg: RunnerConfig, signals: seq<Signal>, open: bool): seq<Event> {
    Flat(Loop(cfg, signals, open).cycles)
  }

  lemma RestAfterCycle(cfg: RunnerConfig, signals: seq<Signal>, open: bool, request: CycleRequest,
                       answers: CycleAnswers)
    requires |signals| > 0 && Loop(cfg, signals, open) == AfterCycle(cfg, request, answers, signals, open)
    ensures Rest(cfg, signals, open) ==
      OneCycle(cfg, request, answers).log
      + if CycleFails(cfg, request, answers) then [] else Rest(cfg, signals[1..], open)
    ensures Loop(cfg, signals, open).failed <==>
      CycleFails(cfg, request, answers) || Loop(cfg, signals[1..], open).failed
  {
    var run := OneCycle(cfg, request, answers);
    if CycleFails(cfg, request, answers) {
      FlatPrepend(run, []);
      assert [run] + [] == [run];
    } else {
      FlatPrepend(run, Loop(cfg, signals[1..], open).cycles);
    }
  }

  lemma RestAfterOther(cfg: RunnerConfig, signals: seq<Signal>, open: bool)
    requires |signals| > 0 && (signals[0].TriggersClosed? || (signals[0].Trigger? && !open))
    ensures Loop(cfg, signals, open) == Loop(cfg, signals[1..], open && !signals[0].TriggersClosed?)
  {
  }

  method ServeSignals(w: World, cfg: RunnerConfig, signals: seq<Signal>) returns (failed: bool)
    modifies w
    ensures w.log == old(w.log) + Rest(cfg, signals, true)
    ensures failed == Loop(cfg, signals, true).failed
  {
    var triggers := true;
    var i := 0;
    ghost var goal := w.log + Rest(cfg, signals, true);
    assert signals[0..] == signals;
    while i < |signals|
      invariant 0 <= i <= |signals|
      invariant w.log + Rest(cfg, signals[i..], triggers) == goal
      invariant Loop(cfg, signals[i..], triggers).failed == Loop(cfg, signals, true).failed
    {
      var signal := signals[i];
      ghost var here := signals[i..];
      assert here[1..] == signals[i + 1..] && here[0] == signal;
      if signal.ContextDone? {
        return false;
      }
      if signal.TriggersClosed? {
        RestAfterOther(cfg, here, triggers);
        triggers := false;
      } else if signal.Tick? || triggers {
        var request := if signal.Tick? then SCHEDULED else signal.request;
        RestAfterCycle(cfg, here, triggers, request, signal.answers);
        ghost var before, added := w.log, OneCycle(cfg, request, signal.answers).log;
        failed := RunOne(w, cfg, request, signal.answers);
        if failed {
          return true;
        }
        AppendAssociates(before, added, Rest(cfg, signals[i + 1..], triggers));
      } else {
        RestAfterOther(cfg, here, triggers);
      }
      i := i + 1;
    }
    failed := false;
  }

  /** ResidentService.Run makes exactly the calls of Service.Serve. */
  method RunService(w: World, cfg: ServiceConfig, signals: seq<Signal>) returns (failed: bool)
    modifies w
    ensures w.log == old(w.log) + Flat(Serve(cfg, signals).cycles)
    ensures failed == Serve(cfg, signals).failed
  {
    if !ServiceValid(cfg) {
      return true;
    }
    if cfg.startCycle.Some? {
      StartFlattened(cfg, cfg.startCycle.value, signals);
      failed := RunOne(w, cfg.runner, STARTED, cfg.startCycle.value);
      if failed {
        return true;
      }
    }
    failed := ServeSignals(w, cfg.runner, signals);
    if cfg.startCycle.Some? {
      AppendAssociates(old(w.log), OneCycle(cfg.runner, STARTED, cfg.startCycle.value).log,
        Rest(cfg.runner, signals, true));
    }
  }

  /** The calls of a service that starts with a cycle at once. */
  lemma StartFlattened(cfg: ServiceConfig, answers: CycleAnswers, signals: seq<Signal>)
    requires ServiceValid(cfg) && cfg.startCycle == Some(answers)
    ensures Flat(Serve(cfg, signals).cycles) ==
      OneCycle(cfg.runner, STARTED, answers).log
      + if CycleFails(cfg.runner, STARTED, answers) then [] else Rest(cfg.runner, signals, true)
  {
    var run := OneCycle(cfg.runner, STARTED, answers);
    if CycleFails(cfg.runner, STARTED, answers) {
      FlatPrepend(run, []);
      assert [run] + [] == [run];
    } else {
      FlatPrepend(run, Loop(cfg.runner, signals, true).cycles);
    }
  }
}
