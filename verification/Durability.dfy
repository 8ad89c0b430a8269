/**
 The service and its journal together: an operation handed to the executor is on record after a crash
 at any later moment.
 */
module Durability {
  import opened Wrappers
  import opened Lists
  import opened JournalText
  import opened Trace
  import opened Cycle
  import opened CycleTheorems
  import opened Service
  import opened AuditReaders
  import opened AuditFile
  import opened JournalRuns

  /** The journal under the Saves of a run, each meeting its own fault; None when a Save the run
      saw succeed or fail would have gone the other way. */
  ghost function Replay(c: Codec, j: Journal, events: seq<Event>, faults: seq<SaveFault>): Option<Journal>
    requires |faults| == |events|
    decreases |events|
  {
    if |events| == 0 then Some(j)
    else if !events[0].Saved? then Replay(c, j, events[1..], faults[1..])
    else
      var after := Step(c, j, Save(events[0].snapshot, faults[0]));
      if (|after.acks| > |j.acks|) != events[0].ok then None else Replay(c, after, events[1..], faults[1..])
  }

  // ---------- what the lines say ----------

  /** The lines from k on hold nothing but snapshots of w. */
  ghost predicate LinesIn(c: Codec, lines: seq<seq<byte>>, k: nat, w: iset<CycleTrace>) {
    forall i | k <= i < |lines| && DecodeToken(c, lines[i]).Some? :: DecodeToken(c, lines[i]).value in w
  }

  ghost predicate Held(c: Codec, j: Journal, k: nat, w: iset<CycleTrace>) {
    Good(c, j) && LinesIn(c, Lines(DiskOf(j.session).data), k, w)
  }

  ghost predicate EventsIn(events: seq<Event>, w: iset<CycleTrace>) {
    forall i | 0 <= i < |events| && events[i].Saved? :: SafeCopy(events[i].snapshot) in w
  }

  // ---------- one Save ----------

  /** A Save leaves the lines alone or adds its own record as a line. */
  lemma LinesAfterSave(c: Codec, j: Journal, t: CycleTrace, fault: SaveFault)
    requires ValidCodec(c) && Good(c, j) && j.session.Up?
    ensures var after := Step(c, j, Save(t, fault));
      var lines, more := Lines(j.session.sink.disk.data), Lines(DiskOf(after.session).data);
      (more == lines || more == lines + [Record(c, t)])
      && (|after.acks| > |j.acks| ==>
            more == lines + [Record(c, t)] && after.acks == j.acks + [Ack(|lines|, Record(c, t))] && t.id != "")
      && (more != lines ==> DecodeToken(c, Record(c, t)) == Some(SafeCopy(t)))
  {
    if !Refuses(c, j.session.sink, t, fault) {
      RecordIsALine(c, t);
      LinesAfterWrite(c, j.session.sink, t, fault);
    }
  }

  lemma LinesAfterWrite(c: Codec, s: Sink, t: CycleTrace, fault: SaveFault)
    requires !Refuses(c, s, t, fault) && EndsWhole(s.disk.data) && NoNewline(Record(c, t))
    ensures var (after, ok) := SaveStep(c, s, t, fault);
      var lines, more := Lines(s.disk.data), Lines(after.disk.data);
      (more == lines || more == lines + [Record(c, t)]) && (ok ==> more == lines + [Record(c, t)])
  {
    AppendRecord(s.disk.data, Record(c, t));
    if fault.TornWrite? {
      LinesAfterTornWrite(s.disk.data, Record(c, t), fault.kept);
    }
  }

  lemma LinesAfterTornWrite(d: seq<byte>, r: seq<byte>, kept: nat)
    requires EndsWhole(d) && NoNewline(r)
    ensures var line := r + [NEWLINE];
      Lines(d + line[..Min(kept, |line|)]) == Lines(d) || Lines(d + line[..Min(kept, |line|)]) == Lines(d) + [r]
  {
    var line := r + [NEWLINE];
    if kept >= |line| {
      assert line[..Min(kept, |line|)] == line;
      AppendRecord(d, r);
    } else {
      assert line[..kept] == r[..kept];
      AppendPartial(d, r[..kept]);
    }
  }

  lemma SaveKeepsHeld(c: Codec, j: Journal, t: CycleTrace, fault: SaveFault, k: nat, w: iset<CycleTrace>)
    requires ValidCodec(c) && Held(c, j, k, w) && j.session.Up? && SafeCopy(t) in w
    ensures Held(c, Step(c, j, Save(t, fault)), k, w)
  {
    SaveKeepsGood(c, j, t, fault);
    LinesAfterSave(c, j, t, fault);
    var lines, more := Lines(j.session.sink.disk.data), Lines(DiskOf(Step(c, j, Save(t, fault)).session).data);
    if more != lines {
      OneMoreLineIn(c, lines, Record(c, t), k, w);
    }
  }

  lemma OneMoreLineIn(c: Codec, lines: seq<seq<byte>>, record: seq<byte>, k: nat, w: iset<CycleTrace>)
    requires LinesIn(c, lines, k, w) && DecodeToken(c, record).Some? && DecodeToken(c, record).value in w
    ensures LinesIn(c, lines + [record], k, w)
  {
  }

  lemma FewerLinesHeld(c: Codec, j: Journal, after: Journal, k: nat, w: iset<CycleTrace>)
    requires Held(c, j, k, w) && Good(c, after)
    requires Lines(DiskOf(after.session).data) <= Lines(DiskOf(j.session).data)
    ensures Held(c, after, k, w)
  {
    var lines, more := Lines(DiskOf(after.session).data), Lines(DiskOf(j.session).data);
    assert forall i | 0 <= i < |lines| :: lines[i] == more[i];
  }

  /** Crash, Open and Close may lose lines and never add one. */
  lemma OtherStepsAddNoLine(c: Codec, j: Journal, op: Op)
    requires Good(c, j) && !op.Save?
    ensures Lines(DiskOf(Step(c, j, op).session).data) <= Lines(DiskOf(j.session).data)
  {
    var d := DiskOf(j.session);
    match op
    case Crash(keep) => CrashedLines(c, d, j.acks, keep);
    case Open(fault) => OpenedLines(c, d, j.acks, fault);
    case Close(_) =>
  }

  lemma CrashedLines(c: Codec, d: Disk, acks: seq<Ack>, keep: nat)
    requires DiskGood(c, d, acks)
    ensures Lines(AfterCrash(d, keep).data) <= Lines(d.data)
  {
    UndoneBytesAddNoLine(d);
    LinesOfPrefix(AfterCrash(d, keep).data, d.data + d.undone);
  }

  lemma OpenedLines(c: Codec, d: Disk, acks: seq<Ack>, fault: OpenFault)
    requires DiskGood(c, d, acks)
    ensures Lines(OpenStep(c, d, fault).0.data) == Lines(d.data)
    ensures OpenStep(c, d, fault).1.Some? ==> OpenStep(c, d, fault).1.value.disk == OpenStep(c, d, fault).0
  {
    RecoveryKeepsGood(c, d, acks);
  }

  /** Any step of the journal; a Save must be one of a member. */
  lemma StepKeepsHeld(c: Codec, j: Journal, op: Op, k: nat, w: iset<CycleTrace>)
    requires ValidCodec(c) && Held(c, j, k, w)
    requires op.Save? ==> SafeCopy(op.trace) in w
    ensures Held(c, Step(c, j, op), k, w)
  {
    if !op.Save? {
      StepKeepsGood(c, j, op);
      OtherStepsAddNoLine(c, j, op);
      FewerLinesHeld(c, j, Step(c, j, op), k, w);
    } else if j.session.Up? {
      SaveKeepsHeld(c, j, op.trace, op.fault, k, w);
    }
  }

  // ---------- the calls of a run ----------

  /** The journal after one call. */
  ghost function Head(c: Codec, j: Journal, e: Event, fault: SaveFault): Journal {
    if e.Saved? then Step(c, j, Save(e.snapshot, fault)) else j
  }

  lemma ReplayHead(c: Codec, j: Journal, events: seq<Event>, faults: seq<SaveFault>)
    requires |faults| == |events| > 0 && Replay(c, j, events, faults).Some?
    ensures Replay(c, j, events, faults) == Replay(c, Head(c, j, events[0], faults[0]), events[1..], faults[1..])
  {
  }

  ghost predicate HeldAndUp(c: Codec, j: Journal, k: nat, w: iset<CycleTrace>) {
    Held(c, j, k, w) && j.session.Up?
  }

  lemma HeadKeepsHeld(c: Codec, j: Journal, e: Event, fault: SaveFault, k: nat, w: iset<CycleTrace>)
    requires ValidCodec(c) && HeldAndUp(c, j, k, w)
    requires e.Saved? ==> SafeCopy(e.snapshot) in w
    ensures HeldAndUp(c, Head(c, j, e, fault), k, w) && j.acks <= Head(c, j, e, fault).acks
  {
    if e.Saved? {
      SaveKeepsHeld(c, j, e.snapshot, fault, k, w);
    }
  }

  lemma {:induction false} ReplayKeepsHeld(c: Codec, j: Journal, events: seq<Event>, faults: seq<SaveFault>,
                                          k: nat, w: iset<CycleTrace>)
    requires |faults| == |events| && ValidCodec(c) && HeldAndUp(c, j, k, w)
    requires EventsIn(events, w) && Replay(c, j, events, faults).Some?
    ensures HeldAndUp(c, Replay(c, j, events, faults).value, k, w)
    ensures j.acks <= Replay(c, j, events, faults).value.acks
    decreases |events|
  {
    if |events| > 0 {
      forall i | 0 <= i < |events| - 1 ensures events[1..][i] == events[i + 1] {}
      ReplayHead(c, j, events, faults);
      HeadKeepsHeld(c, j, events[0], faults[0], k, w);
      ReplayKeepsHeld(c, Head(c, j, events[0], faults[0]), events[1..], faults[1..], k, w);
    }
  }

  /** Replaying in two parts. */
  lemma {:induction false} ReplaySplit(c: Codec, j: Journal, events: seq<Event>, faults: seq<SaveFault>, m: nat)
    requires |faults| == |events| && m <= |events| && Replay(c, j, events, faults).Some?
    ensures Replay(c, j, events[..m], faults[..m]).Some?
    ensures Replay(c, Replay(c, j, events[..m], faults[..m]).value, events[m..], faults[m..]) ==
      Replay(c, j, events, faults)
    decreases m
  {
    if m == 0 {
      assert events[0..] == events && faults[0..] == faults;
    } else {
      assert events[..m][1..] == events[1..][..m - 1] && faults[..m][1..] == faults[1..][..m - 1];
      assert events[1..][m - 1..] == events[m..] && faults[1..][m - 1..] == faults[m..];
      var next := if events[0].Saved? then Step(c, j, Save(events[0].snapshot, faults[0])) else j;
      ReplaySplit(c, next, events[1..], faults[1..], m - 1);
    }
  }

  /** The journal at a crash: after n calls, possibly in the middle of the next Save. */
  ghost function AtCrash(c: Codec, j: Journal, events: seq<Event>, n: nat, inFlight: Option<SaveFault>): Journal
    requires n <= |events|
  {
    if inFlight.Some? && n < |events| then Head(c, j, events[n], inFlight.value) else j
  }

  /** The calls that began before the crash. */
  function Begun(events: seq<Event>, n: nat): seq<Event> {
    if n < |events| then events[..n + 1] else events
  }

  /** From the start of a run to its crash. */
  lemma CrashedRunKeepsHeld(c: Codec, j: Journal, events: seq<Event>, faults: seq<SaveFault>,
                            inFlight: Option<SaveFault>, k: nat, w: iset<CycleTrace>)
    requires |faults| <= |events| && ValidCodec(c) && HeldAndUp(c, j, k, w)
    requires EventsIn(Begun(events, |faults|), w) && Replay(c, j, events[..|faults|], faults).Some?
    ensures var after := AtCrash(c, Replay(c, j, events[..|faults|], faults).value, events, |faults|, inFlight);
      HeldAndUp(c, after, k, w) && j.acks <= after.acks
  {
    var n := |faults|;
    forall i | 0 <= i < n ensures events[..n][i] == Begun(events, n)[i] {}
    ReplayKeepsHeld(c, j, events[..n], faults, k, w);
    if inFlight.Some? && n < |events| {
      assert events[n] == Begun(events, n)[n];
      HeadKeepsHeld(c, Replay(c, j, events[..n], faults).value, events[n], inFlight.value, k, w);
    }
  }

  // ---------- the intent ----------

  /** Snapshots that do not contradict the execution: other ids, or the execution on record. */
  predicate Covers(t: CycleTrace, id: string, operation: string) {
    t.id == id ==> RecordsExecution(t, operation)
  }

  ghost function Agreeing(id: string, operation: string): iset<CycleTrace> {
    iset t: CycleTrace | Covers(t, id, operation)
  }

  ghost predicate Bears(c: Codec, record: seq<byte>, id: string) {
    DecodeToken(c, record).Some? && DecodeToken(c, record).value.id == id
  }

  /** The intent is acknowledged with a line of that id, and nothing from there on contradicts it. */
  ghost predicate Covered(c: Codec, j: Journal, intent: Ack, id: string, operation: string) {
    intent in j.acks && Bears(c, intent.record, id) && Held(c, j, intent.index, Agreeing(id, operation))
  }

  lemma SafeCopyCovers(t: CycleTrace, id: string, operation: string)
    requires Covers(t, id, operation)
    ensures Covers(SafeCopy(t), id, operation)
  {
    if t.id == id {
      var i :| 0 <= i < |t.proposals| && t.proposals[i].proposal.operation == operation
        && Executed(t.proposals[i].outcome);
      assert SafeCopy(t).proposals[i] == SafeRecord(t.proposals[i]);
    }
  }

  /** The intent itself: once its Save has succeeded, it covers. */
  lemma IntentSaveCovers(c: Codec, j: Journal, t: CycleTrace, fault: SaveFault, operation: string)
    requires ValidCodec(c) && Good(c, j) && j.session.Up?
    requires RecordsExecution(t, operation)
    requires |Step(c, j, Save(t, fault)).acks| > |j.acks|
    ensures Covered(c, Step(c, j, Save(t, fault)), Ack(|Lines(j.session.sink.disk.data)|, Record(c, t)), t.id,
      operation)
  {
    var lines := Lines(j.session.sink.disk.data);
    var after := Step(c, j, Save(t, fault));
    SaveKeepsGood(c, j, t, fault);
    LinesAfterSave(c, j, t, fault);
    SafeCopyCovers(t, t.id, operation);
    SafeCopyKeepsId(t);
    assert after.acks[|j.acks|] == Ack(|lines|, Record(c, t));
    assert Lines(DiskOf(after.session).data) == lines + [Record(c, t)];
    OneMoreLineIn(c, lines, Record(c, t), |lines|, Agreeing(t.id, operation));
  }

  lemma SafeCopyKeepsId(t: CycleTrace)
    ensures SafeCopy(t).id == t.id
  {
  }

  ghost predicate EventsCover(events: seq<Event>, id: string, operation: string) {
    forall i | 0 <= i < |events| && events[i].Saved? :: Covers(events[i].snapshot, id, operation)
  }

  lemma CoveringEventsAgree(events: seq<Event>, id: string, operation: string)
    requires EventsCover(events, id, operation)
    ensures EventsIn(events, Agreeing(id, operation))
  {
    forall i | 0 <= i < |events| && events[i].Saved? ensures SafeCopy(events[i].snapshot) in Agreeing(id, operation) {
      SafeCopyCovers(events[i].snapshot, id, operation);
    }
  }

  // ---------- crash, reopen, read ----------

  /** What the full reader holds for an id after a crash. */
  ghost predicate OnRecord(c: Codec, d: Disk, id: string, operation: string) {
    var (disk, sink) := OpenStep(c, d, OpenFault(false, false, false));
    sink.Some? && RecordsSpec(c, disk.data).Some?
    && exists t :: t in RecordsSpec(c, disk.data).value && t.id == id && RecordsExecution(t, operation)
  }

  lemma CrashKeepsOnRecord(c: Codec, j: Journal, keep: nat, intent: Ack, id: string, operation: string)
    requires ValidCodec(c) && Covered(c, j, intent, id, operation)
    ensures OnRecord(c, AfterCrash(DiskOf(j.session), keep), id, operation)
  {
    var crashed := AfterCrash(DiskOf(j.session), keep);
    StepKeepsHeld(c, j, Crash(keep), intent.index, Agreeing(id, operation));
    assert crashed.data[..crashed.synced] == crashed.data;
    GoodFileOpens(c, crashed, j.acks, OpenFault(false, false, false));
    ReadingFindsIntent(c, Lines(crashed.data), intent.index, id, operation);
  }

  lemma ReadingFindsIntent(c: Codec, lines: seq<seq<byte>>, k: nat, id: string, operation: string)
    requires AllReadable(c, lines) && k < |lines| && Bears(c, lines[k], id)
    requires LinesIn(c, lines, k, Agreeing(id, operation))
    ensures exists u :: u in InOrder(Latest(Decoded(c, lines))) && u.id == id && RecordsExecution(u, operation)
  {
    var ts := Decoded(c, lines);
    assert Some(ts[k]) == DecodeToken(c, lines[k]);
    var p := LatestIsLast(ts, k);
    assert Some(ts[p]) == DecodeToken(c, lines[p]);
    var u := Latest(ts)[id];
    assert Covers(u, id, operation);
    assert u in Latest(ts).Values;
    assert u in InOrder(Latest(ts));
  }

  // ---------- locating the intent in a service run ----------

  ghost predicate DistinctCycleIds(cycles: seq<CycleRun>) {
    forall i, k | 0 <= i < k < |cycles| && cycles[i].answers.newID.Some? ::
      cycles[i].answers.newID != cycles[k].answers.newID
  }

  /** The place of call x of cycle i among all calls. */
  function Place(cycles: seq<CycleRun>, i: nat, x: nat): nat
    requires i < |cycles|
  {
    if i == 0 then x else |cycles[0].log| + Place(cycles[1..], i - 1, x)
  }

  lemma {:induction false} CallAtPlace(cycles: seq<CycleRun>, i: nat, x: nat)
    requires i < |cycles| && x < |cycles[i].log|
    ensures Place(cycles, i, x) < |Flat(cycles)| && Flat(cycles)[Place(cycles, i, x)] == cycles[i].log[x]
    decreases i
  {
    if i > 0 {
      assert cycles[1..][i - 1] == cycles[i];
      CallAtPlace(cycles[1..], i - 1, x);
    }
  }

  lemma {:induction false} CallOfCycle(cycles: seq<CycleRun>, m: nat) returns (i: nat, x: nat)
    requires m < |Flat(cycles)|
    ensures i < |cycles| && x < |cycles[i].log|
    ensures Place(cycles, i, x) == m && cycles[i].log[x] == Flat(cycles)[m]
    decreases |cycles|
  {
    var first := cycles[0].log;
    if m < |first| {
      i, x := 0, m;
    } else {
      i, x := CallOfCycle(cycles[1..], m - |first|);
      assert cycles[1..][i] == cycles[i + 1];
      i := i + 1;
    }
  }

  /** The saved intent of an execution: a snapshot of the very cycle that makes the call, acknowledged
      before it, and every later Save of the whole run agrees with it. */
  ghost predicate IntentAt(cycles: seq<CycleRun>, i: nat, x: nat, m: nat)
    requires i < |cycles| && x < |cycles[i].log| && cycles[i].log[x].ExecuteCalled?
  {
    var events, operation := Flat(cycles), cycles[i].log[x].operation;
    m < Place(cycles, i, x) < |events|
    && events[m].Saved? && events[m].ok
    && Some(events[m].snapshot.id) == cycles[i].answers.newID
    && RecordsExecution(events[m].snapshot, operation)
    && EventsCover(events[m..], events[m].snapshot.id, operation)
  }

  lemma LocateIntent(cfg: RunnerConfig, cycles: seq<CycleRun>, i: nat, x: nat) returns (m: nat)
    requires forall k | 0 <= k < |cycles| :: CycleGood(cfg, cycles[k])
    requires DistinctCycleIds(cycles)
    requires i < |cycles| && x < |cycles[i].log| && cycles[i].log[x].ExecuteCalled?
    ensures IntentAt(cycles, i, x, m)
  {
    LaterCyclesStayGood(cfg, cycles, i);
    var r := IntentInFirst(cfg, cycles[i..], x);
    m := Place(cycles, i, 0) + r;
    IntentOfSuffix(cycles, i, x, r);
  }

  lemma {:induction false} IntentOfSuffix(cycles: seq<CycleRun>, i: nat, x: nat, r: nat)
    requires i < |cycles| && cycles[i..][0] == cycles[i]
    requires x < |cycles[i].log| && cycles[i].log[x].ExecuteCalled?
    requires IntentAt(cycles[i..], 0, x, r)
    ensures IntentAt(cycles, i, x, Place(cycles, i, 0) + r)
    decreases i
  {
    if i == 0 {
      assert cycles[0..] == cycles;
    } else {
      var tail := cycles[1..];
      assert tail[i - 1..] == cycles[i..] && tail[i - 1] == cycles[i];
      IntentOfSuffix(tail, i - 1, x, r);
      LaterIntent(cycles, i, x, Place(tail, i - 1, 0) + r);
    }
  }

  lemma LaterCyclesStayGood(cfg: RunnerConfig, cycles: seq<CycleRun>, i: nat)
    requires i < |cycles| && DistinctCycleIds(cycles)
    requires forall k | 0 <= k < |cycles| :: CycleGood(cfg, cycles[k])
    ensures DistinctCycleIds(cycles[i..]) && cycles[i..][0] == cycles[i]
    ensures forall k | 0 <= k < |cycles[i..]| :: CycleGood(cfg, cycles[i..][k])
  {
    forall k | 0 <= k < |cycles| - i ensures cycles[i..][k] == cycles[i + k] {}
  }

  lemma IntentInFirst(cfg: RunnerConfig, cycles: seq<CycleRun>, x: nat) returns (m: nat)
    requires cycles != [] && DistinctCycleIds(cycles)
    requires forall i | 0 <= i < |cycles| :: CycleGood(cfg, cycles[i])
    requires x < |cycles[0].log| && cycles[0].log[x].ExecuteCalled?
    ensures IntentAt(cycles, 0, x, m)
  {
    var first := cycles[0].log;
    assert Flat(cycles) == first + Flat(cycles[1..]);
    assert CycleGood(cfg, cycles[0]);
    m := IntentPrecedesExecution(cfg, first, x);
    FirstCycleCovers(cfg, cycles, m, first[x].operation);
  }

  lemma LaterIntent(cycles: seq<CycleRun>, i: nat, x: nat, r: nat)
    requires 0 < i < |cycles| && cycles[1..][i - 1] == cycles[i]
    requires x < |cycles[i].log| && cycles[i].log[x].ExecuteCalled?
    requires IntentAt(cycles[1..], i - 1, x, r)
    ensures IntentAt(cycles, i, x, |cycles[0].log| + r)
  {
    var first, rest := cycles[0].log, Flat(cycles[1..]);
    assert Flat(cycles) == first + rest;
    DropAppend(first, rest, r);
  }

  lemma FirstCycleCovers(cfg: RunnerConfig, cycles: seq<CycleRun>, m: nat, operation: string)
    requires |cycles| > 0 && forall i | 0 <= i < |cycles| :: CycleGood(cfg, cycles[i])
    requires DistinctCycleIds(cycles)
    requires m < |cycles[0].log| && cycles[0].log[m].Saved?
    requires forall x | m <= x < |cycles[0].log| && cycles[0].log[x].Saved? ::
      RecordsExecution(cycles[0].log[x].snapshot, operation)
    ensures EventsCover(Flat(cycles)[m..], Flat(cycles)[m].snapshot.id, operation)
  {
    var first, rest := cycles[0].log, Flat(cycles[1..]);
    var all := Flat(cycles);
    assert all == first + rest;
    assert CycleGood(cfg, cycles[0]);
    assert all[m] == first[m];
    var id := first[m].snapshot.id;
    forall x | m <= x < |all| && all[x].Saved? ensures Covers(all[x].snapshot, id, operation) {
      if x >= |first| {
        LaterCyclesBearOtherIds(cfg, cycles, x - |first|);
        assert all[x] == rest[x - |first|];
      } else {
        assert all[x] == first[x];
      }
    }
    DropCovers(all, m, id, operation);
  }

  lemma DropCovers(events: seq<Event>, m: nat, id: string, operation: string)
    requires m <= |events| && forall x | m <= x < |events| && events[x].Saved? ::
      Covers(events[x].snapshot, id, operation)
    ensures EventsCover(events[m..], id, operation)
  {
    forall i | 0 <= i < |events[m..]| && events[m..][i].Saved? ensures Covers(events[m..][i].snapshot, id, operation) {
      assert events[m..][i] == events[m + i];
    }
  }

  lemma LaterCyclesBearOtherIds(cfg: RunnerConfig, cycles: seq<CycleRun>, x: nat)
    requires |cycles| > 0 && forall i | 0 <= i < |cycles| :: CycleGood(cfg, cycles[i])
    requires DistinctCycleIds(cycles)
    requires x < |Flat(cycles[1..])| && Flat(cycles[1..])[x].Saved?
    ensures Some(Flat(cycles[1..])[x].snapshot.id) != cycles[0].answers.newID
  {
    var k, y := CallOfCycle(cycles[1..], x);
    assert cycles[1..][k] == cycles[k + 1] && CycleGood(cfg, cycles[k + 1]);
    assert cycles[0].answers.newID.Some? ==> cycles[0].answers.newID != cycles[k + 1].answers.newID;
  }

  // ---------- the theorem ----------

  /** Take any service run with distinct cycle ids on any good journal, and a crash after any number of
      calls or in the middle of a Save. For every operation a cycle handed to the executor before, the
      reopened journal holds a snapshot with the id of that very cycle whose outcome for the operation is
      "executing" or a later one. */
  lemma CrashDurableIntent(c: Codec, cfg: ServiceConfig, signals: seq<Signal>, start: Journal, faults: seq<SaveFault>,
                           n: nat, inFlight: Option<SaveFault>, keep: nat, i: nat, x: nat)
    requires ValidCodec(c) && Good(c, start) && start.session.Up?
    requires DistinctCycleIds(Serve(cfg, signals).cycles)
    requires i < |Serve(cfg, signals).cycles| && x < |Serve(cfg, signals).cycles[i].log|
    requires Serve(cfg, signals).cycles[i].log[x].ExecuteCalled?
    requires Place(Serve(cfg, signals).cycles, i, x) < n <= |Flat(Serve(cfg, signals).cycles)| && |faults| == n
    requires Replay(c, start, Flat(Serve(cfg, signals).cycles)[..n], faults).Some?
    ensures
      var events, cycle := Flat(Serve(cfg, signals).cycles), Serve(cfg, signals).cycles[i];
      var j := AtCrash(c, Replay(c, start, events[..n], faults).value, events, n, inFlight);
      cycle.answers.newID.Some?
      && OnRecord(c, AfterCrash(DiskOf(j.session), keep), cycle.answers.newID.value, cycle.log[x].operation)
  {
    var cycles := Serve(cfg, signals).cycles;
    EveryServiceRunIsGood(cfg, signals);
    var m := LocateIntent(cfg.runner, cycles, i, x);
    CrashAfterIntent(c, Flat(cycles), start, faults, n, inFlight, keep, m, cycles[i].log[x].operation);
  }

  /** The journal side: an acknowledged intent, later Saves that agree with it, a crash. */
  lemma CrashAfterIntent(c: Codec, events: seq<Event>, start: Journal, faults: seq<SaveFault>,
                         n: nat, inFlight: Option<SaveFault>, keep: nat, m: nat, operation: string)
    requires ValidCodec(c) && Good(c, start) && start.session.Up?
    requires m < n <= |events| && |faults| == n
    requires events[m].Saved? && events[m].ok && RecordsExecution(events[m].snapshot, operation)
    requires EventsCover(events[m..], events[m].snapshot.id, operation)
    requires Replay(c, start, events[..n], faults).Some?
    ensures var j := Replay(c, start, events[..n], faults).value;
      OnRecord(c, AfterCrash(DiskOf(AtCrash(c, j, events, n, inFlight).session), keep), events[m].snapshot.id,
        operation)
  {
    var j := AtCrash(c, Replay(c, start, events[..n], faults).value, events, n, inFlight);
    var intent := RunFromIntent(c, events, start, faults, inFlight, m, operation);
    CrashKeepsOnRecord(c, j, keep, intent, events[m].snapshot.id, operation);
  }

  /** The intent's line covers from its Save to the crash. */
  lemma RunFromIntent(c: Codec, events: seq<Event>, start: Journal, faults: seq<SaveFault>,
                      inFlight: Option<SaveFault>, m: nat, operation: string) returns (intent: Ack)
    requires ValidCodec(c) && Good(c, start) && start.session.Up?
    requires m < |faults| <= |events|
    requires events[m].Saved? && events[m].ok && RecordsExecution(events[m].snapshot, operation)
    requires EventsCover(events[m..], events[m].snapshot.id, operation)
    requires Replay(c, start, events[..|faults|], faults).Some?
    ensures var j := Replay(c, start, events[..|faults|], faults).value;
      Covered(c, AtCrash(c, j, events, |faults|, inFlight), intent, events[m].snapshot.id, operation)
    ensures AtCrash(c, Replay(c, start, events[..|faults|], faults).value, events, |faults|, inFlight).session.Up?
  {
    var n := |faults|;
    SplitAt(events, faults, m);
    ReplaySplit(c, start, events[..n], faults, m);
    ReplayKeepsGood(c, start, events[..m], faults[..m]);
    var before := Replay(c, start, events[..m], faults[..m]).value;
    intent := RunFromHead(c, events[m..], before, faults[m..], inFlight, operation);
  }

  /** The same for a run that starts with the intent's Save. */
  lemma RunFromHead(c: Codec, events: seq<Event>, j: Journal, faults: seq<SaveFault>, inFlight: Option<SaveFault>,
                    operation: string) returns (intent: Ack)
    requires ValidCodec(c) && Good(c, j) && j.session.Up? && 0 < |faults| <= |events|
    requires events[0].Saved? && events[0].ok && RecordsExecution(events[0].snapshot, operation)
    requires EventsCover(events, events[0].snapshot.id, operation)
    requires Replay(c, j, events[..|faults|], faults).Some?
    ensures var after := AtCrash(c, Replay(c, j, events[..|faults|], faults).value, events, |faults|, inFlight);
      Covered(c, after, intent, events[0].snapshot.id, operation) && after.session.Up?
  {
    var n, id := |faults|, events[0].snapshot.id;
    assert events[..n][0] == events[0] && events[..n][1..] == events[1..][..n - 1];
    assert n < |events| ==> events[1..][n - 1] == events[n];
    ReplayHead(c, j, events[..n], faults);
    intent := AcknowledgedIntent(c, j, events[0].snapshot, faults[0], operation);
    LaterCallsAgree(events, n, id, operation);
    LaterCallsKeepCovered(c, Head(c, j, events[0], faults[0]), events[1..], faults[1..], inFlight, intent, id,
      operation);
  }

  lemma AcknowledgedIntent(c: Codec, j: Journal, t: CycleTrace, fault: SaveFault, operation: string)
    returns (intent: Ack)
    requires ValidCodec(c) && Good(c, j) && j.session.Up? && RecordsExecution(t, operation)
    requires |Step(c, j, Save(t, fault)).acks| > |j.acks|
    ensures Covered(c, Step(c, j, Save(t, fault)), intent, t.id, operation)
    ensures Step(c, j, Save(t, fault)).session.Up?
  {
    intent := Ack(|Lines(j.session.sink.disk.data)|, Record(c, t));
    IntentSaveCovers(c, j, t, fault, operation);
  }

  lemma LaterCallsKeepCovered(c: Codec, j: Journal, events: seq<Event>, faults: seq<SaveFault>,
                              inFlight: Option<SaveFault>, intent: Ack, id: string, operation: string)
    requires |faults| <= |events| && ValidCodec(c) && Covered(c, j, intent, id, operation) && j.session.Up?
    requires EventsIn(Begun(events, |faults|), Agreeing(id, operation))
    requires Replay(c, j, events[..|faults|], faults).Some?
    ensures var after := AtCrash(c, Replay(c, j, events[..|faults|], faults).value, events, |faults|, inFlight);
      Covered(c, after, intent, id, operation) && after.session.Up?
  {
    CrashedRunKeepsHeld(c, j, events, faults, inFlight, intent.index, Agreeing(id, operation));
  }

  lemma ReplayKeepsGood(c: Codec, j: Journal, events: seq<Event>, faults: seq<SaveFault>)
    requires |faults| == |events| && ValidCodec(c) && Good(c, j) && j.session.Up?
    requires Replay(c, j, events, faults).Some?
    ensures Good(c, Replay(c, j, events, faults).value) && Replay(c, j, events, faults).value.session.Up?
  {
    ReplayKeepsHeld(c, j, events, faults, 0, iset t: CycleTrace | t.id == "" || t.id != "");
  }

  lemma SplitAt(events: seq<Event>, faults: seq<SaveFault>, m: nat)
    requires m < |faults| <= |events|
    ensures var n := |faults|;
      events[..n][..m] == events[..m] && events[..n][m..] == events[m..][..n - m]
      && events[m..][0] == events[m] && (n < |events| ==> events[m..][n - m] == events[n])
  {
  }

  lemma LaterCallsAgree(events: seq<Event>, n: nat, id: string, operation: string)
    requires 0 < n <= |events| && EventsCover(events, id, operation)
    ensures EventsIn(Begun(events[1..], n - 1), Agreeing(id, operation))
  {
    var later := Begun(events[1..], n - 1);
    forall i | 0 <= i < |later| && later[i].Saved? ensures Covers(later[i].snapshot, id, operation) {
      assert later[i] == events[i + 1];
    }
    CoveringEventsAgree(later, id, operation);
  }

  // ---------- a healthy journal ----------

  predicate Fits(c: Codec, t: CycleTrace) {
    t.id != "" && |c.encode(SafeCopy(t))| <= MAX_AUDIT_RECORD_BYTES
  }

  predicate Healthy(j: Journal) {
    j.session.Up? && !j.session.sink.closed && !j.session.sink.broken
  }

  /** A journal that meets no fault acknowledges every Save of a run whose snapshots fit. */
  lemma {:induction false} HealthyJournalKeepsUp(c: Codec, j: Journal, events: seq<Event>, faults: seq<SaveFault>)
    requires |faults| == |events| && Healthy(j)
    requires forall i | 0 <= i < |events| && events[i].Saved? ::
      events[i].ok && Fits(c, events[i].snapshot) && faults[i].NoFault?
    ensures Replay(c, j, events, faults).Some? && Healthy(Replay(c, j, events, faults).value)
    decreases |events|
  {
    if |events| > 0 {
      forall i | 0 <= i < |events| - 1 ensures events[1..][i] == events[i + 1] && faults[1..][i] == faults[i + 1] {}
      if events[0].Saved? {
        SaveSucceedsExactlyWhen(c, j.session.sink, events[0].snapshot, faults[0]);
      }
      HealthyJournalKeepsUp(c, Head(c, j, events[0], faults[0]), events[1..], faults[1..]);
    }
  }
}
