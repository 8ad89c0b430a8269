/**
 How often a failing embedder is asked over a whole run of retrievals (agent/history_retrieval.go, lines 89
 to 130): the pauses of HistoryRetriever, seen from the first retrieval to the last.
 */
module EmbedderPauses {
  import opened Wrappers
  import opened Trace
  import opened Utf8
  import opened Retrieval
  import opened VerifiedHistory
  import opened SemanticSpec
  import opened HistoryRetriever

  /** What became of the embedder in one retrieval: it answered, it failed, or it was not asked to the end. */
  datatype Outcome = Answered | Failed | Unasked

  /** A retrieval as the pauses see it: the time before and after it, and the outcome. */
  datatype Moment = Moment(now: int, later: int, outcome: Outcome)

  /** One retrieval between the pause before it and the pause behind it. */
  predicate Passes(hasEmbedder: bool, before: Backoff, m: Moment, after: Backoff) {
    (m.outcome != Unasked ==> MayAsk(hasEmbedder, before, m.now))
    && match m.outcome
       case Answered => after == NO_BACKOFF
       case Failed => after == OneMoreFailure(before, m.later)
       case Unasked => after == before
  }

  /** The pauses of a new retriever through its retrievals. */
  ghost predicate Follows(hasEmbedder: bool, pauses: seq<Backoff>, run: seq<Moment>) {
    |pauses| == |run| + 1 && pauses[0] == NO_BACKOFF
    && forall k | 0 <= k < |run| :: Passes(hasEmbedder, pauses[k], run[k], pauses[k + 1])
  }

  ghost predicate ClockRuns(run: seq<Moment>) {
    (forall i | 0 <= i < |run| :: run[i].now <= run[i].later)
    && forall i, j | 0 <= i < j < |run| :: run[i].later <= run[j].now
  }

  /** The failures behind the last answer among the first j retrievals. */
  function InARow(run: seq<Moment>, j: nat): nat
    requires j <= |run|
  {
    if j == 0 || run[j - 1].outcome == Answered then 0
    else InARow(run, j - 1) + if run[j - 1].outcome == Failed then 1 else 0
  }

  lemma {:induction false} FailuresAreCounted(hasEmbedder: bool, pauses: seq<Backoff>, run: seq<Moment>, j: nat)
    requires Follows(hasEmbedder, pauses, run) && j <= |run|
    ensures BackoffFits(pauses[j]) && pauses[j].failures == if InARow(run, j) < 5 then InARow(run, j) else 5
  {
    if j > 0 {
      FailuresAreCounted(hasEmbedder, pauses, run, j - 1);
      assert Passes(hasEmbedder, pauses[j - 1], run[j - 1], pauses[j]);
    }
  }

  /** Every pause was set by a failure and has stood since. */
  lemma {:induction false} PauseHasACause(hasEmbedder: bool, pauses: seq<Backoff>, run: seq<Moment>, j: nat)
    returns (i: nat)
    requires Follows(hasEmbedder, pauses, run) && j <= |run| && pauses[j].retryAfter.Some?
    ensures i < j && run[i].outcome == Failed && pauses[i + 1] == pauses[j]
  {
    assert Passes(hasEmbedder, pauses[j - 1], run[j - 1], pauses[j]);
    if run[j - 1].outcome == Failed {
      i := j - 1;
    } else {
      i := PauseHasACause(hasEmbedder, pauses, run, j - 1);
    }
  }

  /** Nothing shortens a pause that runs. */
  lemma {:induction false} PauseStands(hasEmbedder: bool, pauses: seq<Backoff>, run: seq<Moment>, i: nat, j: nat,
                                       end: int)
    requires Follows(hasEmbedder, pauses, run) && ClockRuns(run) && i < j < |run|
    requires pauses[i + 1].retryAfter == Some(end) && run[j].now < end
    ensures pauses[j] == pauses[i + 1]
  {
    if i + 1 < j {
      assert run[j - 1].now <= run[j - 1].later <= run[j].now;
      PauseStands(hasEmbedder, pauses, run, i, j - 1, end);
      assert Passes(hasEmbedder, pauses[j - 1], run[j - 1], pauses[j]);
    }
  }

  /** One minute behind a first failure, twice as much behind each further one in a row, at most sixteen. */
  function PauseBehind(run: seq<Moment>, i: nat): int
    requires i < |run|
  {
    [1, 2, 4, 8, 16][if InARow(run, i) < 4 then InARow(run, i) else 4] * 60_000_000_000
  }

  lemma FailureSetsThePause(hasEmbedder: bool, pauses: seq<Backoff>, run: seq<Moment>, i: nat)
    requires Follows(hasEmbedder, pauses, run) && i < |run| && run[i].outcome == Failed
    ensures pauses[i + 1].retryAfter == Some(run[i].later + PauseBehind(run, i))
  {
    FailuresAreCounted(hasEmbedder, pauses, run, i);
    assert Passes(hasEmbedder, pauses[i], run[i], pauses[i + 1]);
  }

  /** Over any run of retrievals on a clock that does not go back, the embedder may be asked exactly when the
      pause behind every earlier failure is over. */
  lemma AskedExactlyOutsideThePauses(hasEmbedder: bool, pauses: seq<Backoff>, run: seq<Moment>, j: nat)
    requires Follows(hasEmbedder, pauses, run) && ClockRuns(run) && j < |run|
    ensures MayAsk(hasEmbedder, pauses[j], run[j].now) <==>
      hasEmbedder
      && forall i | 0 <= i < j && run[i].outcome == Failed :: run[i].later + PauseBehind(run, i) <= run[j].now
  {
    if MayAsk(hasEmbedder, pauses[j], run[j].now) {
      forall i | 0 <= i < j && run[i].outcome == Failed
        ensures run[i].later + PauseBehind(run, i) <= run[j].now
      {
        FailureSetsThePause(hasEmbedder, pauses, run, i);
        if run[j].now < run[i].later + PauseBehind(run, i) {
          PauseStands(hasEmbedder, pauses, run, i, j, run[i].later + PauseBehind(run, i));
        }
      }
    } else if hasEmbedder {
      var i := PauseHasACause(hasEmbedder, pauses, run, j);
      FailureSetsThePause(hasEmbedder, pauses, run, i);
    }
  }

  /** What becomes of the embedder when a retrieval may ask it or may not. */
  ghost function OutcomeOf(e: Engine, encode: EntryEncoder, corpus: seq<Document>, records: Option<seq<CycleTrace>>,
                           query: Text, limit: int, cancelled: bool, cancelledDuring: bool, asks: bool): Outcome
  {
    if !asks || !Indexes(encode, corpus, records, cancelled) then Unasked
    else if Computed(e, IndexAll(e, Combined(encode, corpus, records.value)), query, limit).Success? then Answered
    else if cancelledDuring then Unasked
    else Failed
  }

  /** Every retrieval is a step of such a run. */
  lemma RetrievalPasses(e: Engine, encode: EntryEncoder, corpus: seq<Document>, hasEmbedder: bool,
                        records: Option<seq<CycleTrace>>, query: Text, limit: int, cancelled: bool,
                        cancelledDuring: bool, before: Backoff, now: int, later: int)
    ensures var asks := MayAsk(hasEmbedder, before, now);
      Passes(hasEmbedder, before,
             Moment(now, later, OutcomeOf(e, encode, corpus, records, query, limit, cancelled, cancelledDuring, asks)),
             NextBackoff(e, encode, corpus, records, query, limit, cancelled, cancelledDuring, asks, before, later))
  {
  }
}
