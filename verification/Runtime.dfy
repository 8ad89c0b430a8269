/**
 The single-run lifecycle of the resident runtime (agent/runtime.go): any number of concurrent Run and
 Close callers over one mutex. Each step is one critical section, one channel receive, or one stretch
 of unlocked work; a schedule interleaves the steps of the callers in any order.
 */
module Runtime {
  import opened Wrappers

  type Err = Option<string>   // None is nil

  /** The fields of the runtime, the channels made so far (true: closed), and how often the owned
      resources were closed. */
  datatype Shared = Shared(
    started: bool,
    closing: bool,
    closed: bool,
    hasCancel: bool,
    cancelled: bool,
    done: Option<nat>,
    closeErr: Err,
    channels: seq<bool>,
    auditClosed: bool,
    closings: nat)

  /** Where a caller stands. */
  datatype Caller =
    | RunEnter
    | RunRejected
    | RunServing(ch: nat)
    | RunClosing(ch: nat)
    | RunPublishing(ch: nat, err: Err)
    | RunReturned(err: Err)
    | CloseEnter
    | CloseWaiting(ch: nat)
    | CloseReading
    | CloseClosing(ch: nat)
    | ClosePublishing(ch: nat, err: Err)
    | CloseReturned(err: Err)

  datatype State = State(shared: Shared, callers: seq<Caller>)

  const FRESH := Shared(false, false, false, false, false, None, None, [], false, 0)

  // ---------- the steps ----------

  function EnterRun(sh: Shared): (Shared, Caller) {
    if sh.started || sh.closing || sh.closed then (sh, RunRejected)
    else
      var ch := |sh.channels|;
      (sh.(started := true, hasCancel := true, done := Some(ch), channels := sh.channels + [false]), RunServing(ch))
  }

  function EnterClose(sh: Shared): (Shared, Caller) {
    if sh.closed then (sh, CloseReturned(sh.closeErr))
    else if sh.started || sh.closing then
      (sh.(cancelled := sh.cancelled || sh.hasCancel),
       if sh.done.Some? then CloseWaiting(sh.done.value) else CloseReading)
    else
      var ch := |sh.channels|;
      (sh.(closing := true, done := Some(ch), channels := sh.channels + [false]), CloseClosing(ch))
  }

  /** closeOwnedResources: the journal reports its result only the first time it is closed. */
  function CloseOwned(sh: Shared, result: Err): (Shared, Err) {
    (sh.(auditClosed := true, closings := sh.closings + 1), if sh.auditClosed then None else result)
  }

  function Publish(sh: Shared, ch: nat, err: Err, byClose: bool): Shared {
    sh.(closed := true,
        closing := if byClose then false else sh.closing,
        closeErr := err,
        channels := if ch < |sh.channels| then sh.channels[ch := true] else sh.channels)
  }

  /** A caller that may take a step. A serving Run may return at any time. */
  predicate CanStep(s: State, t: nat) {
    t < |s.callers|
    && match s.callers[t]
       case RunRejected => false
       case RunReturned(_) => false
       case CloseReturned(_) => false
       case CloseWaiting(ch) => ch < |s.shared.channels| && s.shared.channels[ch]
       case _ => true
  }

  /** A caller that will take a step: the service returns once its context is cancelled. */
  predicate MustStep(s: State, t: nat) {
    CanStep(s, t) && (s.callers[t].RunServing? ==> s.shared.cancelled)
  }

  function StepOf(sh: Shared, caller: Caller, result: Err): (Shared, Caller) {
    match caller
    case RunEnter => EnterRun(sh)
    case RunServing(ch) => (sh.(cancelled := true), RunClosing(ch))
    case RunClosing(ch) => var (after, err) := CloseOwned(sh, result); (after, RunPublishing(ch, err))
    case RunPublishing(ch, err) => (Publish(sh, ch, err, false), RunReturned(err))
    case CloseEnter => EnterClose(sh)
    case CloseWaiting(_) => (sh, CloseReading)
    case CloseReading => (sh, CloseReturned(sh.closeErr))
    case CloseClosing(ch) => var (after, err) := CloseOwned(sh, result); (after, ClosePublishing(ch, err))
    case ClosePublishing(ch, err) => (Publish(sh, ch, err, true), CloseReturned(err))
    case other => (sh, other)
  }

  function Step(s: State, t: nat, result: Err): State
    requires CanStep(s, t)
  {
    var (shared, caller) := StepOf(s.shared, s.callers[t], result);
    State(shared, s.callers[t := caller])
  }

  // ---------- the invariant ----------

  /** A caller that has taken the runtime over and has not signalled its end yet. */
  predicate Owner(c: Caller) {
    c.RunServing? || c.RunClosing? || c.RunPublishing? || c.CloseClosing? || c.ClosePublishing?
  }

  predicate PassedGuard(c: Caller) {
    c.RunServing? || c.RunClosing? || c.RunPublishing? || c.RunReturned?
  }

  predicate OwnerFits(sh: Shared, c: Caller) {
    Owner(c) ==>
      !sh.closed && sh.done == Some(c.ch) && c.ch < |sh.channels| && !sh.channels[c.ch]
      && (if c.CloseClosing? || c.ClosePublishing? then sh.closing && !sh.started
          else sh.started && !sh.closing && sh.hasCancel)
      && (if c.RunPublishing? || c.ClosePublishing? then sh.closings == 1 else sh.closings == 0 && !sh.auditClosed)
  }

  predicate CallerFits(sh: Shared, c: Caller) {
    OwnerFits(sh, c)
    && (PassedGuard(c) ==> sh.started)
    && (c.RunReturned? ==> sh.closed && c.err == sh.closeErr)
    && (c.CloseReturned? ==> sh.closed && c.err == sh.closeErr)
    && (c.CloseReading? ==> sh.closed)
    && (c.CloseWaiting? ==> sh.done == Some(c.ch) && c.ch < |sh.channels| && (sh.closed || sh.started || sh.closing)
                            && (sh.started ==> sh.cancelled))
  }

  predicate SharedFits(sh: Shared) {
    !(sh.started && sh.closing)
    && (sh.started || sh.closing || sh.closed ==> sh.done.Some?)
    && (sh.closed ==> sh.closings == 1)
    && (!sh.started && !sh.closing && !sh.closed ==> sh.closings == 0 && !sh.auditClosed)
    && (sh.done.Some? ==> sh.done.value < |sh.channels| && sh.channels[sh.done.value] == sh.closed)
    && (sh.started ==> sh.hasCancel)
  }

  ghost predicate Inv(s: State) {
    SharedFits(s.shared)
    && (forall t | 0 <= t < |s.callers| :: CallerFits(s.shared, s.callers[t]))
    && (forall t, u | 0 <= t < u < |s.callers| :: !(Owner(s.callers[t]) && Owner(s.callers[u])))
    && (forall t, u | 0 <= t < u < |s.callers| :: !(PassedGuard(s.callers[t]) && PassedGuard(s.callers[u])))
    && ((s.shared.started || s.shared.closing) && !s.shared.closed ==>
      exists t | 0 <= t < |s.callers| :: Owner(s.callers[t]))
  }

  predicate Initial(s: State) {
    s.shared == FRESH && forall t | 0 <= t < |s.callers| :: s.callers[t] == RunEnter || s.callers[t] == CloseEnter
  }

  lemma InitialFits(s: State)
    requires Initial(s)
    ensures Inv(s)
  {
  }

  /** What one caller's step does to the picture every other caller has. */
  lemma OthersStillFit(sh: Shared, c: Caller, result: Err, d: Caller)
    requires SharedFits(sh) && CallerFits(sh, c) && CallerFits(sh, d)
    requires c.CloseWaiting? ==> c.ch < |sh.channels| && sh.channels[c.ch]
    requires !(Owner(c) && Owner(d)) && !(PassedGuard(c) && PassedGuard(d))
    requires Owner(d) ==> (sh.started || sh.closing) && !sh.closed
    ensures CallerFits(StepOf(sh, c, result).0, d)
  {
  }

  lemma SelfFits(sh: Shared, c: Caller, result: Err)
    requires SharedFits(sh) && CallerFits(sh, c)
    requires c.CloseWaiting? ==> c.ch < |sh.channels| && sh.channels[c.ch]
    ensures SharedFits(StepOf(sh, c, result).0) && CallerFits(StepOf(sh, c, result).0, StepOf(sh, c, result).1)
  {
  }

  lemma EveryoneStillFits(s: State, t: nat, result: Err)
    requires Inv(s) && CanStep(s, t)
    ensures var after := Step(s, t, result);
      SharedFits(after.shared) && forall u | 0 <= u < |after.callers| :: CallerFits(after.shared, after.callers[u])
  {
    var c := s.callers[t];
    var after := Step(s, t, result);
    SelfFits(s.shared, c, result);
    forall u | 0 <= u < |after.callers| ensures CallerFits(after.shared, after.callers[u]) {
      if u != t {
        assert !(Owner(c) && Owner(s.callers[u])) && !(PassedGuard(c) && PassedGuard(s.callers[u]));
        assert CallerFits(s.shared, s.callers[u]);
        OthersStillFit(s.shared, c, result, s.callers[u]);
      }
    }
  }

  lemma StepKeepsInv(s: State, t: nat, result: Err)
    requires Inv(s) && CanStep(s, t)
    ensures Inv(Step(s, t, result))
  {
    var c := s.callers[t];
    var after := Step(s, t, result);
    var (shared, d) := StepOf(s.shared, c, result);
    EveryoneStillFits(s, t, result);
    if Owner(d) && !Owner(c) {
      forall u | 0 <= u < |s.callers| ensures !Owner(s.callers[u]) { assert CallerFits(s.shared, s.callers[u]); }
    }
    if PassedGuard(d) && !PassedGuard(c) {
      forall u | 0 <= u < |s.callers| ensures !PassedGuard(s.callers[u]) { assert CallerFits(s.shared, s.callers[u]); }
    }
    if (shared.started || shared.closing) && !shared.closed {
      if Owner(d) {
        assert Owner(after.callers[t]);
      } else {
        var o :| 0 <= o < |s.callers| && Owner(s.callers[o]);
        assert o != t && after.callers[o] == s.callers[o];
      }
    }
  }

  // ---------- every schedule ----------

  datatype Move = Move(caller: nat, result: Err)

  /** A schedule the callers can follow from a state. */
  predicate Follows(s: State, moves: seq<Move>)
    decreases |moves|
  {
    |moves| > 0 ==> CanStep(s, moves[0].caller) && Follows(Step(s, moves[0].caller, moves[0].result), moves[1..])
  }

  function After(s: State, moves: seq<Move>): State
    requires Follows(s, moves)
    decreases |moves|
  {
    if |moves| == 0 then s else After(Step(s, moves[0].caller, moves[0].result), moves[1..])
  }

  lemma {:induction false} ScheduleKeepsInv(s: State, moves: seq<Move>)
    requires Inv(s) && Follows(s, moves)
    ensures Inv(After(s, moves))
    decreases |moves|
  {
    if |moves| > 0 {
      StepKeepsInv(s, moves[0].caller, moves[0].result);
      ScheduleKeepsInv(Step(s, moves[0].caller, moves[0].result), moves[1..]);
    }
  }

  /** At most one Run passes the guard, ever. */
  lemma AtMostOneRun(s: State, moves: seq<Move>, t: nat, u: nat)
    requires Initial(s) && Follows(s, moves)
    requires t < u < |After(s, moves).callers|
    ensures !(PassedGuard(After(s, moves).callers[t]) && PassedGuard(After(s, moves).callers[u]))
  {
    InitialFits(s);
    ScheduleKeepsInv(s, moves);
  }

  /** The owned resources are closed at most once, and exactly once before any Close or any accepted Run
      returns; all of them report the same close error. */
  lemma ResourcesClosedOnce(s: State, moves: seq<Move>)
    requires Initial(s) && Follows(s, moves)
    ensures After(s, moves).shared.closings <= 1
    ensures forall t | 0 <= t < |After(s, moves).callers| ::
      var c := After(s, moves).callers[t];
      c.CloseReturned? || c.RunReturned? ==>
        After(s, moves).shared.closings == 1 && c.err == After(s, moves).shared.closeErr
  {
    InitialFits(s);
    ScheduleKeepsInv(s, moves);
    var e := After(s, moves);
    forall t | 0 <= t < |e.callers| ensures CallerFits(e.shared, e.callers[t]) {}
    if (e.shared.started || e.shared.closing) && !e.shared.closed {
      var o :| 0 <= o < |e.callers| && Owner(e.callers[o]);
      assert CallerFits(e.shared, e.callers[o]);
    }
  }

  /** A caller about to signal finds the channel it made still open: no channel is closed twice. */
  lemma NoDoubleClose(s: State, moves: seq<Move>, t: nat)
    requires Initial(s) && Follows(s, moves) && t < |After(s, moves).callers|
    requires var c := After(s, moves).callers[t]; c.RunPublishing? || c.ClosePublishing?
    ensures var c, sh := After(s, moves).callers[t], After(s, moves).shared;
      c.ch < |sh.channels| && !sh.channels[c.ch] && sh.done == Some(c.ch)
  {
    InitialFits(s);
    ScheduleKeepsInv(s, moves);
    assert CallerFits(After(s, moves).shared, After(s, moves).callers[t]);
  }

  /** A Close that waits has its channel signalled already, or waits for a caller that is bound to go on:
      the owner of that very channel, with the service's context cancelled if it is still serving. */
  lemma WaitingCloseHasALiveOwner(s: State, moves: seq<Move>, t: nat)
    requires Initial(s) && Follows(s, moves) && t < |After(s, moves).callers|
    requires After(s, moves).callers[t].CloseWaiting?
    ensures var e := After(s, moves);
      CanStep(e, t)
      || exists o | 0 <= o < |e.callers| ::
           Owner(e.callers[o]) && e.callers[o].ch == e.callers[t].ch && MustStep(e, o)
  {
    InitialFits(s);
    ScheduleKeepsInv(s, moves);
    var e := After(s, moves);
    assert CallerFits(e.shared, e.callers[t]);
    if !e.shared.closed {
      var o :| 0 <= o < |e.callers| && Owner(e.callers[o]);
      assert CallerFits(e.shared, e.callers[o]);
      assert MustStep(e, o);
    }
  }

  predicate Finished(c: Caller) {
    c.RunRejected? || c.RunReturned? || c.CloseReturned?
  }

  /** No deadlock: when nobody is bound to go on, everybody has returned, except possibly one Run whose
      service is serving with nobody waiting for it. */
  lemma NoDeadlock(s: State, moves: seq<Move>)
    requires Initial(s) && Follows(s, moves)
    requires forall t | 0 <= t < |After(s, moves).callers| :: !MustStep(After(s, moves), t)
    ensures forall t | 0 <= t < |After(s, moves).callers| ::
      var e := After(s, moves);
      Finished(e.callers[t]) || (e.callers[t].RunServing? && !e.shared.cancelled)
    ensures forall t | 0 <= t < |After(s, moves).callers| :: !After(s, moves).callers[t].CloseWaiting?
  {
    var e := After(s, moves);
    forall t | 0 <= t < |e.callers|
      ensures Finished(e.callers[t]) || (e.callers[t].RunServing? && !e.shared.cancelled)
    {
      assert !MustStep(e, t);
      if e.callers[t].CloseWaiting? {
        WaitingCloseHasALiveOwner(s, moves, t);
      }
    }
  }

  // ---------- which error everybody reports ----------

  predicate AtClosing(c: Caller) {
    c.RunClosing? || c.CloseClosing?
  }

  /** Move k of a schedule closes the owned resources. */
  predicate ClosingMove(s: State, moves: seq<Move>, k: nat)
    requires Follows(s, moves)
  {
    k < |moves|
    && (PrefixFollows(s, moves, k); true)
    && AtClosing(After(s, moves[..k]).callers[moves[k].caller])
  }

  lemma {:induction false} PrefixFollows(s: State, moves: seq<Move>, k: nat)
    requires Follows(s, moves) && k <= |moves|
    ensures Follows(s, moves[..k]) && |After(s, moves[..k]).callers| == |s.callers|
    ensures k < |moves| ==> moves[k].caller < |s.callers|
    decreases |moves|
  {
    if k > 0 {
      assert moves[..k][1..] == moves[1..][..k - 1];
      PrefixFollows(Step(s, moves[0].caller, moves[0].result), moves[1..], k - 1);
    }
  }

  /** The first move closes when its caller stands there; later ones are those of the rest. */
  lemma ClosingMoveShifts(s: State, moves: seq<Move>, k: nat)
    requires |moves| > 0 && Follows(s, moves)
    ensures ClosingMove(s, moves, 0) <==> AtClosing(s.callers[moves[0].caller])
    ensures ClosingMove(s, moves, k + 1) <==>
      ClosingMove(Step(s, moves[0].caller, moves[0].result), moves[1..], k)
  {
    assert moves[..0] == [];
    if k + 1 < |moves| {
      PrefixFollows(s, moves, k + 1);
      assert moves[..k + 1][1..] == moves[1..][..k];
    }
  }

  /** The resources are closed, and the error of that closing is the one everybody has or gets. */
  ghost predicate ErrorIs(s: State, err: Err) {
    s.shared.closings == 1
    && (s.shared.closed ==> s.shared.closeErr == err)
    && forall t | 0 <= t < |s.callers| && (s.callers[t].RunPublishing? || s.callers[t].ClosePublishing?) ::
         s.callers[t].err == err
  }

  lemma ErrorStays(s: State, t: nat, result: Err, err: Err)
    requires Inv(s) && CanStep(s, t) && ErrorIs(s, err)
    ensures !AtClosing(s.callers[t]) && ErrorIs(Step(s, t, result), err)
  {
    assert CallerFits(s.shared, s.callers[t]);
  }

  lemma {:induction false} AfterTheClosing(s: State, moves: seq<Move>, err: Err, k: nat)
    requires Inv(s) && Follows(s, moves) && ErrorIs(s, err)
    ensures ErrorIs(After(s, moves), err) && !ClosingMove(s, moves, k)
    decreases |moves|
  {
    if |moves| > 0 {
      var t := moves[0].caller;
      ErrorStays(s, t, moves[0].result, err);
      StepKeepsInv(s, t, moves[0].result);
      AfterTheClosing(Step(s, t, moves[0].result), moves[1..], err, if k > 0 then k - 1 else 0);
      ClosingMoveShifts(s, moves, if k > 0 then k - 1 else 0);
    }
  }

  lemma ClosingSetsTheError(s: State, t: nat, result: Err)
    requires Inv(s) && CanStep(s, t) && AtClosing(s.callers[t])
    ensures ErrorIs(Step(s, t, result), result)
  {
    assert CallerFits(s.shared, s.callers[t]);
    var after := Step(s, t, result);
    assert Owner(s.callers[t]);
    assert forall u | 0 <= u < |s.callers| && u != t :: !Owner(s.callers[u]) && after.callers[u] == s.callers[u];
  }

  lemma OtherMovesCloseNothing(s: State, t: nat, result: Err)
    requires Inv(s) && CanStep(s, t) && !AtClosing(s.callers[t])
    ensures Step(s, t, result).shared.closings == s.shared.closings
  {
  }

  /** Before the closing: either nobody closes in the schedule, or exactly one move does, and its result is
      the error from then on. */
  lemma {:induction false} TheClosing(s: State, moves: seq<Move>) returns (k: nat)
    requires Inv(s) && Follows(s, moves) && s.shared.closings == 0
    ensures After(s, moves).shared.closings > 0 ==>
      ClosingMove(s, moves, k) && ErrorIs(After(s, moves), moves[k].result)
    ensures After(s, moves).shared.closings > 0 ==> forall m: nat :: ClosingMove(s, moves, m) ==> m == k
    decreases |moves|
  {
    k := 0;
    if |moves| > 0 {
      var t, result := moves[0].caller, moves[0].result;
      var next := Step(s, t, result);
      StepKeepsInv(s, t, result);
      if AtClosing(s.callers[t]) {
        ClosingSetsTheError(s, t, result);
        ClosingMoveShifts(s, moves, 0);
        AfterTheClosing(next, moves[1..], result, 0);
        forall m: nat | ClosingMove(s, moves, m) ensures m == 0 {
          if m > 0 {
            ClosingMoveShifts(s, moves, m - 1);
            AfterTheClosing(next, moves[1..], result, m - 1);
          }
        }
      } else {
        OtherMovesCloseNothing(s, t, result);
        var r := TheClosing(next, moves[1..]);
        k := r + 1;
        ClosingMoveShifts(s, moves, r);
        forall m: nat | m > 0 ensures ClosingMove(s, moves, m) <==> ClosingMove(next, moves[1..], m - 1) {
          ClosingMoveShifts(s, moves, m - 1);
        }
      }
    }
  }

  /** Once a Close or an accepted Run has returned, exactly one move of the schedule closed the resources,
      and the error of that closing, or its absence, is what everybody returns. */
  lemma EverybodyReportsTheClosing(s: State, moves: seq<Move>, t: nat) returns (k: nat)
    requires Initial(s) && Follows(s, moves) && t < |After(s, moves).callers|
    requires After(s, moves).callers[t].CloseReturned? || After(s, moves).callers[t].RunReturned?
    ensures ClosingMove(s, moves, k) && forall m: nat :: ClosingMove(s, moves, m) ==> m == k
    ensures forall u | 0 <= u < |After(s, moves).callers| ::
      var c := After(s, moves).callers[u];
      c.CloseReturned? || c.RunReturned? ==> c.err == moves[k].result
  {
    InitialFits(s);
    ScheduleKeepsInv(s, moves);
    ResourcesClosedOnce(s, moves);
    k := TheClosing(s, moves);
    var e := After(s, moves);
    forall u | 0 <= u < |e.callers| && (e.callers[u].CloseReturned? || e.callers[u].RunReturned?)
      ensures e.callers[u].err == moves[k].result
    {
      assert CallerFits(e.shared, e.callers[u]);
    }
  }

  // ---------- nothing happens without a reason ----------

  /** A caller that got past its first section and was not turned away. */
  predicate Busy(c: Caller) {
    !c.RunEnter? && !c.CloseEnter? && !c.RunRejected?
  }

  /** A Close that has begun, or a Run whose service has returned. */
  predicate Ends(c: Caller) {
    Busy(c) && !c.RunServing?
  }

  ghost predicate Reasons(s: State) {
    (s.shared.started || s.shared.closing || s.shared.closed ==> exists t | 0 <= t < |s.callers| :: Busy(s.callers[t]))
    && (s.shared.cancelled ==> exists t | 0 <= t < |s.callers| :: Ends(s.callers[t]))
    && forall t | 0 <= t < |s.callers| && s.callers[t].RunRejected? ::
         s.shared.started || s.shared.closing || s.shared.closed
  }

  lemma StepKeepsReasons(s: State, t: nat, result: Err)
    requires Reasons(s) && CanStep(s, t)
    ensures Reasons(Step(s, t, result))
  {
    var after := Step(s, t, result);
    var c, d := s.callers[t], after.callers[t];
    assert Busy(c) ==> Busy(d);
    assert Ends(c) ==> Ends(d);
    assert forall u | 0 <= u < |s.callers| && u != t :: after.callers[u] == s.callers[u];
    if after.shared.started || after.shared.closing || after.shared.closed {
      if !Busy(d) {
        var u :| 0 <= u < |s.callers| && Busy(s.callers[u]);
        assert Busy(after.callers[u]);
      }
    }
    if after.shared.cancelled && !Ends(d) {
      var u :| 0 <= u < |s.callers| && Ends(s.callers[u]);
      assert Ends(after.callers[u]);
    }
  }

  lemma {:induction false} ScheduleKeepsReasons(s: State, moves: seq<Move>)
    requires Reasons(s) && Follows(s, moves)
    ensures Reasons(After(s, moves))
    decreases |moves|
  {
    if |moves| > 0 {
      StepKeepsReasons(s, moves[0].caller, moves[0].result);
      ScheduleKeepsReasons(Step(s, moves[0].caller, moves[0].result), moves[1..]);
    }
  }

  /** A Run is turned away only when another Run or a Close came before it, and the service is cancelled
      only when a Close came or the service has returned. */
  lemma RejectionAndCancelHaveReasons(s: State, moves: seq<Move>, t: nat)
    requires Initial(s) && Follows(s, moves) && t < |After(s, moves).callers|
    ensures After(s, moves).callers[t].RunRejected? ==>
      exists u | 0 <= u < |After(s, moves).callers| :: u != t && Busy(After(s, moves).callers[u])
    ensures After(s, moves).shared.cancelled ==>
      exists u | 0 <= u < |After(s, moves).callers| :: Ends(After(s, moves).callers[u])
  {
    ScheduleKeepsReasons(s, moves);
  }

  // ---------- one caller alone ----------

  /** A receive from a channel that is not closed. */
  predicate Blocked(sh: Shared, c: Caller) {
    c.CloseWaiting? && !(c.ch < |sh.channels| && sh.channels[c.ch])
  }

  /** As far as a caller comes while nobody else moves. */
  function Alone(sh: Shared, c: Caller, result: Err): (Shared, Caller)
    decreases StepsLeft(c)
  {
    if Finished(c) || Blocked(sh, c) then (sh, c)
    else
      var (after, next) := StepOf(sh, c, result);
      Alone(after, next, result)
  }

  // ---------- every schedule is short ----------

  function StepsLeft(c: Caller): nat {
    match c
    case RunEnter => 4
    case RunServing(_) => 3
    case RunClosing(_) => 2
    case RunPublishing(_, _) => 1
    case CloseEnter => 3
    case CloseWaiting(_) => 2
    case CloseClosing(_) => 2
    case CloseReading => 1
    case ClosePublishing(_, _) => 1
    case _ => 0
  }

  function TotalLeft(callers: seq<Caller>): nat {
    if |callers| == 0 then 0 else StepsLeft(callers[0]) + TotalLeft(callers[1..])
  }

  lemma {:induction false} TotalLeftOfUpdate(callers: seq<Caller>, t: nat, c: Caller)
    requires t < |callers|
    ensures TotalLeft(callers[t := c]) == TotalLeft(callers) - StepsLeft(callers[t]) + StepsLeft(c)
    decreases |callers|
  {
    if t == 0 {
      assert callers[0 := c][1..] == callers[1..];
    } else {
      assert callers[t := c][1..] == callers[1..][t - 1 := c];
      TotalLeftOfUpdate(callers[1..], t - 1, c);
    }
  }

  /** No caller is rescheduled forever: a schedule has at most four steps per caller. */
  lemma {:induction false} SchedulesEnd(s: State, moves: seq<Move>)
    requires Follows(s, moves)
    ensures |moves| + TotalLeft(After(s, moves).callers) <= TotalLeft(s.callers)
    decreases |moves|
  {
    if |moves| > 0 {
      var t := moves[0].caller;
      TotalLeftOfUpdate(s.callers, t, StepOf(s.shared, s.callers[t], moves[0].result).1);
      SchedulesEnd(Step(s, t, moves[0].result), moves[1..]);
    }
  }
}

/**
 The runtime object: its critical sections are the steps above.
 */
module ResidentRuntime {
  import opened Wrappers
  import opened Runtime

  class ResidentRuntime {
    var started: bool
    var closing: bool
    var closed: bool
    var hasCancel: bool
    var cancelled: bool
    var done: Option<nat>
    var closeErr: Err
    var channels: seq<bool>
    var auditClosed: bool
    var closings: nat

    constructor ()
      ensures Fields() == FRESH
    {
      started, closing, closed, hasCancel, cancelled := false, false, false, false, false;
      done, closeErr, channels, auditClosed, closings := None, None, [], false, 0;
    }

    ghost function Fields(): Shared
      reads this
    {
      Shared(started, closing, closed, hasCancel, cancelled, done, closeErr, channels, auditClosed, closings)
    }

    method MakeChannel() returns (ch: nat)
      modifies this`channels
      ensures ch == |old(channels)| && channels == old(channels) + [false]
    {
      ch := |channels|;
      channels := channels + [false];
    }

    /** Run, first critical section: pass the guard or be turned away. */
    method BeginRun() returns (next: Caller)
      modifies this
      ensures (Fields(), next) == EnterRun(old(Fields()))
    {
      if started || closing || closed {
        return RunRejected;
      }
      started := true;
      hasCancel := true;
      var ch := MakeChannel();
      done := Some(ch);
      next := RunServing(ch);
    }

    /** Run, after service.Run returned: cancel the child context. */
    method ServiceReturned(ch: nat) returns (next: Caller)
      modifies this
      ensures (Fields(), next) == StepOf(old(Fields()), RunServing(ch), None)
    {
      cancelled := true;
      next := RunClosing(ch);
    }

    method CloseOwnedResources(result: Err) returns (err: Err)
      modifies this
      ensures (Fields(), err) == CloseOwned(old(Fields()), result)
    {
      err := None;
      if !auditClosed {
        err := result;
      }
      auditClosed := true;
      closings := closings + 1;
    }

    /** Run, last critical section. The channel it closes must still be open. */
    method EndRun(ch: nat, err: Err) returns (next: Caller)
      requires ch < |channels| && !channels[ch]
      modifies this
      ensures (Fields(), next) == StepOf(old(Fields()), RunPublishing(ch, err), None)
    {
      closed := true;
      closeErr := err;
      channels := channels[ch := true];
      next := RunReturned(err);
    }

    /** Close, first critical section: return, wait for the owner, or become the owner. */
    method BeginClose() returns (next: Caller)
      modifies this
      ensures (Fields(), next) == EnterClose(old(Fields()))
    {
      if closed {
        return CloseReturned(closeErr);
      }
      if started || closing {
        if hasCancel {
          cancelled := true;
        }
        if done.Some? {
          return CloseWaiting(done.value);
        }
        return CloseReading;
      }
      closing := true;
      var ch := MakeChannel();
      done := Some(ch);
      next := CloseClosing(ch);
    }

    /** Close, after the channel was signalled. */
    method ReadCloseError() returns (next: Caller)
      ensures (Fields(), next) == StepOf(Fields(), CloseReading, None)
    {
      next := CloseReturned(closeErr);
    }

    /** Close as the owner, last critical section. */
    method EndClose(ch: nat, err: Err) returns (next: Caller)
      requires ch < |channels| && !channels[ch]
      modifies this
      ensures (Fields(), next) == StepOf(old(Fields()), ClosePublishing(ch, err), None)
    {
      closed := true;
      closing := false;
      closeErr := err;
      channels := channels[ch := true];
      next := CloseReturned(err);
    }

    // ---------- the two entry points ----------

    /** Run, from the guard to the signal. */
    method Run(result: Err) returns (last: Caller)
      modifies this
      ensures (Fields(), last) == Alone(old(Fields()), RunEnter, result)
    {
      last := BeginRun();
      if last.RunRejected? {
        return;
      }
      var ch := last.ch;
      last := ServiceReturned(ch);
      ghost var cancelled_ := Fields();
      var err := CloseOwnedResources(result);
      ghost var closed_ := Fields();
      last := EndRun(ch, err);
      assert (Fields(), last) == Alone(closed_, RunPublishing(ch, err), result);
      assert (Fields(), last) == Alone(cancelled_, RunClosing(ch), result);
    }

    /** Close, from its first look at the flags to its return, or to the receive it has to wait in. */
    method Close(result: Err) returns (last: Caller)
      modifies this
      ensures (Fields(), last) == Alone(old(Fields()), CloseEnter, result)
    {
      last := BeginClose();
      ghost var begun := Fields();
      if last.CloseWaiting? {
        if last.ch >= |channels| || !channels[last.ch] {
          return;
        }
        last := CloseReading;
      }
      if last.CloseReading? {
        last := ReadCloseError();
      } else if last.CloseClosing? {
        var ch := last.ch;
        var err := CloseOwnedResources(result);
        ghost var closed_ := Fields();
        last := EndClose(ch, err);
        assert (Fields(), last) == Alone(closed_, ClosePublishing(ch, err), result);
        assert (Fields(), last) == Alone(begun, CloseClosing(ch), result);
      }
    }

    // ---------- many callers ----------

    /** The next section of a caller, wherever it stands. */
    method Advance(c: Caller, result: Err) returns (next: Caller)
      requires c.RunPublishing? || c.ClosePublishing? ==> c.ch < |channels| && !channels[c.ch]
      modifies this
      ensures (Fields(), next) == StepOf(old(Fields()), c, result)
    {
      match c
      case RunEnter => next := BeginRun();
      case RunServing(ch) => next := ServiceReturned(ch);
      case RunClosing(ch) =>
        var err := CloseOwnedResources(result);
        next := RunPublishing(ch, err);
      case RunPublishing(ch, err) => next := EndRun(ch, err);
      case CloseEnter => next := BeginClose();
      case CloseWaiting(_) => next := CloseReading;
      case CloseReading => next := ReadCloseError();
      case CloseClosing(ch) =>
        var err := CloseOwnedResources(result);
        next := ClosePublishing(ch, err);
      case ClosePublishing(ch, err) => next := EndClose(ch, err);
      case other => next := other;
    }

    /** Any interleaving of any number of Run and Close calls on a new runtime: the object goes through the
        states of the schedule, and whoever signals finds its channel open. */
    method Interleave(callers: seq<Caller>, moves: seq<Move>) returns (end: seq<Caller>)
      requires Initial(State(Fields(), callers)) && Follows(State(Fields(), callers), moves)
      modifies this
      ensures State(Fields(), end) == After(State(old(Fields()), callers), moves)
    {
      end := callers;
      ghost var goal := After(State(Fields(), callers), moves);
      InitialFits(State(Fields(), callers));
      assert moves[0..] == moves;
      for i := 0 to |moves|
        invariant Inv(State(Fields(), end))
        invariant Follows(State(Fields(), end), moves[i..]) && After(State(Fields(), end), moves[i..]) == goal
      {
        ghost var now := State(Fields(), end);
        var t := moves[i].caller;
        assert moves[i..][0] == moves[i] && moves[i..][1..] == moves[i + 1..];
        StepKeepsInv(now, t, moves[i].result);
        assert CallerFits(now.shared, end[t]);
        var next := Advance(end[t], moves[i].result);
        end := end[t := next];
        assert State(Fields(), end) == Step(now, t, moves[i].result);
      }
    }
  }
}
