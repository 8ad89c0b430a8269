/**
 One service run after another on the same journal, each ended by a crash or a Close, with any number of
 crashes and openings between them. What the journal then says about an operation, and what the
 retrievable history then rests on.
 */
module Sittings {
  import opened Wrappers
  import opened JournalText
  import opened Trace
  import opened Retrieval
  import opened Cycle
  import opened CycleTheorems
  import opened Service
  import opened AuditReaders
  import opened AuditFile
  import opened JournalRuns
  import opened VerifiedHistory
  import opened Durability

  /** What happens to the journal before the run (it holds no Save), the run, the faults its calls meet,
      one for each call that returned, and the fault of the Save it was torn out of, if any. */
  datatype Sitting = Sitting(
    prelude: seq<Op>, cfg: ServiceConfig, signals: seq<Signal>, faults: seq<SaveFault>, inFlight: Option<SaveFault>)

  ghost function Cycles(s: Sitting): seq<CycleRun> {
    Serve(s.cfg, s.signals).cycles
  }

  ghost function Calls(s: Sitting): seq<Event> {
    Flat(Cycles(s))
  }

  predicate NoSaves(ops: seq<Op>) {
    forall i | 0 <= i < |ops| :: !ops[i].Save?
  }

  /** The journal after a sitting; None when its run could not have gone so. */
  ghost function After(c: Codec, j: Journal, s: Sitting): Option<Journal> {
    var open := Run(c, j, s.prelude);
    var events := Calls(s);
    if !NoSaves(s.prelude) || open.session.Down? || |s.faults| > |events| then None
    else
      match Replay(c, open, events[..|s.faults|], s.faults)
      case None => None
      case Some(replayed) => Some(AtCrash(c, replayed, events, |s.faults|, s.inFlight))
  }

  ghost function AfterAll(c: Codec, start: Journal, sittings: seq<Sitting>): Option<Journal> {
    if sittings == [] then Some(start)
    else
      match AfterAll(c, start, sittings[..|sittings| - 1])
      case None => None
      case Some(j) => After(c, j, sittings[|sittings| - 1])
  }

  // ---------- what a sitting keeps ----------

  lemma {:induction false} PreludeKeepsHeld(c: Codec, j: Journal, ops: seq<Op>, k: nat, w: iset<CycleTrace>)
    requires ValidCodec(c) && Held(c, j, k, w) && NoSaves(ops)
    ensures Held(c, Run(c, j, ops), k, w) && j.acks <= Run(c, j, ops).acks
    decreases |ops|
  {
    if |ops| > 0 {
      StepKeepsHeld(c, j, ops[0], k, w);
      AcksOnlyGrow(c, j, ops[0]);
      PreludeKeepsHeld(c, Step(c, j, ops[0]), ops[1..], k, w);
    }
  }

  lemma SittingKeepsHeld(c: Codec, j: Journal, s: Sitting, k: nat, w: iset<CycleTrace>)
    requires ValidCodec(c) && Held(c, j, k, w) && After(c, j, s).Some?
    requires EventsIn(Begun(Calls(s), |s.faults|), w)
    ensures Held(c, After(c, j, s).value, k, w) && j.acks <= After(c, j, s).value.acks
  {
    PreludeKeepsHeld(c, j, s.prelude, k, w);
    CrashedRunKeepsHeld(c, Run(c, j, s.prelude), Calls(s), s.faults, s.inFlight, k, w);
  }

  /** All snapshots saved from sitting a on are members. */
  ghost predicate AllIn(sittings: seq<Sitting>, a: nat, w: iset<CycleTrace>) {
    forall b | a <= b < |sittings| :: EventsIn(Begun(Calls(sittings[b]), |sittings[b].faults|), w)
  }

  lemma FrontIn(sittings: seq<Sitting>, a: nat, w: iset<CycleTrace>)
    requires AllIn(sittings, a, w) && a < |sittings|
    ensures AllIn(sittings[..|sittings| - 1], a, w)
    ensures EventsIn(Begun(Calls(sittings[|sittings| - 1]), |sittings[|sittings| - 1].faults|), w)
  {
    var front := sittings[..|sittings| - 1];
    forall b | a <= b < |front| ensures EventsIn(Begun(Calls(front[b]), |front[b].faults|), w) {
      assert front[b] == sittings[b];
    }
  }

  /** The last sitting starts where the others end. */
  lemma LastSitting(c: Codec, start: Journal, sittings: seq<Sitting>)
    requires sittings != [] && AfterAll(c, start, sittings).Some?
    ensures var n := |sittings| - 1;
      AfterAll(c, start, sittings[..n]).Some?
      && After(c, AfterAll(c, start, sittings[..n]).value, sittings[n]) == AfterAll(c, start, sittings)
  {
  }

  lemma {:induction false} SittingsKeepHeld(c: Codec, start: Journal, sittings: seq<Sitting>, a: nat, k: nat,
                                            w: iset<CycleTrace>)
    requires a <= |sittings| && ValidCodec(c) && AfterAll(c, start, sittings).Some?
    requires AfterAll(c, start, sittings[..a]).Some? && Held(c, AfterAll(c, start, sittings[..a]).value, k, w)
    requires AllIn(sittings, a, w)
    ensures Held(c, AfterAll(c, start, sittings).value, k, w)
    ensures AfterAll(c, start, sittings[..a]).value.acks <= AfterAll(c, start, sittings).value.acks
    decreases |sittings|
  {
    if a == |sittings| {
      assert sittings[..a] == sittings;
    } else {
      var n := |sittings| - 1;
      assert sittings[..n][..a] == sittings[..a];
      LastSitting(c, start, sittings);
      FrontIn(sittings, a, w);
      SittingsKeepHeld(c, start, sittings[..n], a, k, w);
      SittingKeepsHeld(c, AfterAll(c, start, sittings[..n]).value, sittings[n], k, w);
    }
  }

  lemma {:induction false} EarlierSittings(c: Codec, start: Journal, sittings: seq<Sitting>, a: nat)
    requires a <= |sittings| && AfterAll(c, start, sittings).Some?
    ensures AfterAll(c, start, sittings[..a]).Some?
    decreases |sittings|
  {
    if a < |sittings| {
      assert sittings[..|sittings| - 1][..a] == sittings[..a];
      LastSitting(c, start, sittings);
      EarlierSittings(c, start, sittings[..|sittings| - 1], a);
    } else {
      assert sittings[..a] == sittings;
    }
  }

  lemma SittingsKeepGood(c: Codec, start: Journal, sittings: seq<Sitting>)
    requires ValidCodec(c) && Good(c, start) && AfterAll(c, start, sittings).Some?
    ensures Good(c, AfterAll(c, start, sittings).value)
  {
    assert sittings[..0] == [];
    SittingsKeepHeld(c, start, sittings, 0, 0, iset t: CycleTrace | t.id == "" || t.id != "");
  }

  // ---------- intents ----------

  /** Call x of cycle i is an execution, made before the sitting ended. */
  ghost predicate ExecutedIn(s: Sitting, i: nat, x: nat) {
    i < |Cycles(s)| && x < |Cycles(s)[i].log|
    && Cycles(s)[i].log[x].ExecuteCalled?
    && Place(Cycles(s), i, x) < |s.faults|
  }

  ghost predicate NeverDraws(s: Sitting, id: Option<string>) {
    forall k | 0 <= k < |Cycles(s)| && Cycles(s)[k].answers.newID.Some? :: Cycles(s)[k].answers.newID != id
  }

  lemma SittingCoversIntent(c: Codec, j: Journal, s: Sitting, i: nat, x: nat) returns (id: string, intent: Ack)
    requires ValidCodec(c) && Good(c, j) && After(c, j, s).Some?
    requires ExecutedIn(s, i, x) && DistinctCycleIds(Cycles(s))
    ensures Cycles(s)[i].answers.newID == Some(id)
    ensures Covered(c, After(c, j, s).value, intent, id, Cycles(s)[i].log[x].operation)
  {
    PreludeKeepsHeld(c, j, s.prelude, 0, iset t: CycleTrace | t.id == "" || t.id != "");
    EveryServiceRunIsGood(s.cfg, s.signals);
    var m := LocateIntent(s.cfg.runner, Cycles(s), i, x);
    id := Calls(s)[m].snapshot.id;
    intent := RunFromIntent(c, Calls(s), Run(c, j, s.prelude), s.faults, s.inFlight, m, Cycles(s)[i].log[x].operation);
  }

  /** Runs that never draw the id agree with whatever was recorded for it. */
  lemma OtherIdsAgree(s: Sitting, id: string, operation: string)
    requires NeverDraws(s, Some(id))
    ensures EventsIn(Begun(Calls(s), |s.faults|), Agreeing(id, operation))
  {
    EveryServiceRunIsGood(s.cfg, s.signals);
    var begun := Begun(Calls(s), |s.faults|);
    forall m | 0 <= m < |begun| && begun[m].Saved? ensures Covers(begun[m].snapshot, id, operation) {
      var i, x := CallOfCycle(Cycles(s), m);
      assert CycleGood(s.cfg.runner, Cycles(s)[i]);
    }
    CoveringEventsAgree(begun, id, operation);
  }

  /** An operation handed to the executor stays on record, whatever happens to the journal afterwards:
      the crash of its own service run, further runs, crashes, failed and repeated openings. */
  lemma IntentsStayOnRecord(c: Codec, start: Journal, sittings: seq<Sitting>, a: nat, i: nat, x: nat, keep: nat)
    requires ValidCodec(c) && Good(c, start) && AfterAll(c, start, sittings).Some?
    requires a < |sittings| && ExecutedIn(sittings[a], i, x) && DistinctCycleIds(Cycles(sittings[a]))
    requires forall b | a < b < |sittings| :: NeverDraws(sittings[b], Cycles(sittings[a])[i].answers.newID)
    ensures
      var cycle, j := Cycles(sittings[a])[i], AfterAll(c, start, sittings).value;
      cycle.answers.newID.Some?
      && OnRecord(c, AfterCrash(DiskOf(j.session), keep), cycle.answers.newID.value, cycle.log[x].operation)
  {
    var operation := Cycles(sittings[a])[i].log[x].operation;
    EarlierSittings(c, start, sittings, a);
    EarlierSittings(c, start, sittings, a + 1);
    SittingsKeepGood(c, start, sittings[..a]);
    assert sittings[..a + 1][..a] == sittings[..a] && sittings[..a + 1][a] == sittings[a];
    var id, intent := SittingCoversIntent(c, AfterAll(c, start, sittings[..a]).value, sittings[a], i, x);
    forall b | a + 1 <= b < |sittings|
      ensures EventsIn(Begun(Calls(sittings[b]), |sittings[b].faults|), Agreeing(id, operation))
    {
      OtherIdsAgree(sittings[b], id, operation);
    }
    SittingsKeepHeld(c, start, sittings, a + 1, intent.index, Agreeing(id, operation));
    CrashKeepsOnRecord(c, AfterAll(c, start, sittings).value, keep, intent, id, operation);
  }

  // ---------- the history ----------

  /** The document was made from this verified proposal of this snapshot, which a cycle of the sitting
      saved after executing the operation and, directly after that, seeing it verified. */
  ghost predicate RestsOnCall(s: Sitting, encode: EntryEncoder, d: Document, i: nat, x: nat, p: nat, v: nat) {
    i < |Cycles(s)| && x < |Cycles(s)[i].log|
    && var cycle := Cycles(s)[i];
       cycle.log[x].Saved? && Some(cycle.log[x].snapshot.id) == cycle.answers.newID
       && Place(Cycles(s), i, x) <= |s.faults|
       && p < |cycle.log[x].snapshot.proposals| && DocumentOf(encode, cycle.log[x].snapshot, p) == Some(d)
       && v < x - 1 && VerifiedAt(cycle.log, v, cycle.log[x].snapshot.proposals[p].proposal.operation)
  }

  ghost predicate RestsOn(s: Sitting, encode: EntryEncoder, d: Document) {
    exists i: nat, x: nat, p: nat, v: nat :: RestsOnCall(s, encode, d, i, x, p, v)
  }

  /** A snapshot some line of the file holds. */
  ghost predicate OnFile(c: Codec, data: seq<byte>, t: CycleTrace) {
    exists k | 0 <= k < |Lines(data)| :: DecodeToken(c, Lines(data)[k]) == Some(t)
  }

  ghost predicate FoundEarlier(c: Codec, data: seq<byte>, encode: EntryEncoder, d: Document) {
    exists t, p: nat :: OnFile(c, data, t) && p < |t.proposals| && DocumentOf(encode, t, p) == Some(d)
  }

  /** Saved by a call of the sitting that began before its crash. */
  ghost predicate SavedBy(s: Sitting, t: CycleTrace, i: nat, x: nat) {
    i < |Cycles(s)| && x < |Cycles(s)[i].log| && Cycles(s)[i].log[x].Saved?
    && Place(Cycles(s), i, x) <= |s.faults| && Cycles(s)[i].log[x].snapshot == t
  }

  ghost predicate SavedIn(s: Sitting, t: CycleTrace) {
    exists i: nat, x: nat :: SavedBy(s, t, i, x)
  }

  ghost function Accounted(c: Codec, data: seq<byte>, sittings: seq<Sitting>): iset<CycleTrace> {
    iset t: CycleTrace | OnFile(c, data, t) || exists a | 0 <= a < |sittings| :: SavedIn(sittings[a], t)
  }

  lemma CallsAreAccounted(c: Codec, data: seq<byte>, sittings: seq<Sitting>, a: nat)
    requires a < |sittings|
    ensures EventsIn(Begun(Calls(sittings[a]), |sittings[a].faults|), Accounted(c, data, sittings))
  {
    var s := sittings[a];
    EveryServiceRunIsGood(s.cfg, s.signals);
    var begun := Begun(Calls(s), |s.faults|);
    forall m | 0 <= m < |begun| && begun[m].Saved? ensures SafeCopy(begun[m].snapshot) in Accounted(c, data, sittings) {
      var i, x := CallOfCycle(Cycles(s), m);
      assert CycleGood(s.cfg.runner, Cycles(s)[i]);
      JournalWritesSnapshotsUnchanged(s.cfg.runner, Cycles(s)[i].log, x);
      assert SavedBy(s, begun[m].snapshot, i, x);
      assert SavedIn(s, begun[m].snapshot);
    }
  }

  lemma LinesAreAccounted(c: Codec, start: Journal, sittings: seq<Sitting>)
    requires ValidCodec(c) && Good(c, start) && AfterAll(c, start, sittings).Some?
    ensures Held(c, AfterAll(c, start, sittings).value, 0, Accounted(c, DiskOf(start.session).data, sittings))
  {
    var data := DiskOf(start.session).data;
    forall b | 0 <= b < |sittings|
      ensures EventsIn(Begun(Calls(sittings[b]), |sittings[b].faults|), Accounted(c, data, sittings))
    {
      CallsAreAccounted(c, data, sittings, b);
    }
    assert sittings[..0] == [];
    SittingsKeepHeld(c, start, sittings, 0, 0, Accounted(c, data, sittings));
  }

  /** What the bounded reader returns stands in the file. */
  lemma RecentIsOnFile(c: Codec, data: seq<byte>, limit: int, t: CycleTrace)
    requires ValidCodec(c) && AllReadable(c, RawTokens(data))
    requires RecentRecordsSpec(c, data, limit).Some? && t in RecentRecordsSpec(c, data, limit).value
    ensures exists k | 0 <= k < |RawTokens(data)| :: DecodeToken(c, RawTokens(data)[k]) == Some(t)
  {
    RecentRefinesRecords(c, data, limit);
    var ts, m := Decoded(c, RawTokens(data)), RecentMap(c, data, limit).value;
    assert t in m.Values;
    assert t.id in Latest(ts) && Latest(ts)[t.id] == t;
    LatestKeysAreIds(ts);
    var k :| 0 <= k < |ts| && ts[k].id == t.id;
    var p := LatestIsLast(ts, k);
    assert DecodeToken(c, RawTokens(data)[p]) == Some(t);
  }

  /** A verified proposal of a saved snapshot rests on calls of its cycle. */
  lemma SavedDocumentRests(s: Sitting, encode: EntryEncoder, t: CycleTrace, p: nat, d: Document)
    requires SavedIn(s, t) && p < |t.proposals| && DocumentOf(encode, t, p) == Some(d)
    ensures RestsOn(s, encode, d)
  {
    EveryServiceRunIsGood(s.cfg, s.signals);
    var i: nat, x: nat :| SavedBy(s, t, i, x);
    assert CycleGood(s.cfg.runner, Cycles(s)[i]);
    var log := Cycles(s)[i].log;
    VerifiedHasProvenance(s.cfg.runner, log, x, p);
    var v :| 0 <= v < x - 1 && VerifiedAt(log, v, t.proposals[p].proposal.operation);
    assert RestsOnCall(s, encode, d, i, x, p, v);
  }

  lemma AccountedDocument(c: Codec, data: seq<byte>, sittings: seq<Sitting>, encode: EntryEncoder, t: CycleTrace,
                          p: nat, d: Document)
    requires t in Accounted(c, data, sittings) && p < |t.proposals| && DocumentOf(encode, t, p) == Some(d)
    ensures FoundEarlier(c, data, encode, d) || exists a | 0 <= a < |sittings| :: RestsOn(sittings[a], encode, d)
  {
    if !OnFile(c, data, t) {
      var a :| 0 <= a < |sittings| && SavedIn(sittings[a], t);
      SavedDocumentRests(sittings[a], encode, t, p, d);
    }
  }

  /** After any sittings and a crash, the journal opens, its recent records can be read, and every history
      document made from them was either on the journal before the first sitting or rests on an execution
      that succeeded and a verification that came back true, made by a cycle of one of the sittings. */
  lemma HistoryRestsOnVerifiedExecutions(c: Codec, start: Journal, sittings: seq<Sitting>, keep: nat, limit: int,
                                         encode: EntryEncoder)
    requires ValidCodec(c) && Good(c, start) && AfterAll(c, start, sittings).Some?
    ensures
      var crashed := AfterCrash(DiskOf(AfterAll(c, start, sittings).value.session), keep);
      var (disk, sink) := OpenStep(c, crashed, OpenFault(false, false, false));
      sink.Some? && RecentRecordsSpec(c, disk.data, limit).Some?
      && forall d :: d in Chronicle(encode, RecentRecordsSpec(c, disk.data, limit).value) ==>
           FoundEarlier(c, DiskOf(start.session).data, encode, d)
           || exists a | 0 <= a < |sittings| :: RestsOn(sittings[a], encode, d)
  {
    var j, data := AfterAll(c, start, sittings).value, DiskOf(start.session).data;
    LinesAreAccounted(c, start, sittings);
    var disk := ReopenedLines(c, j, keep, Accounted(c, data, sittings));
    RecentRefinesRecords(c, disk.data, limit);
    var recent := RecentRecordsSpec(c, disk.data, limit).value;
    forall d | d in Chronicle(encode, recent)
      ensures FoundEarlier(c, data, encode, d) || exists a | 0 <= a < |sittings| :: RestsOn(sittings[a], encode, d)
    {
      var k, p := DocumentHasTrace(encode, recent, d);
      RecentIsOnFile(c, disk.data, limit, recent[k]);
      AccountedDocument(c, data, sittings, encode, recent[k], p, d);
    }
  }

  /** After a crash the journal opens, and what its lines hold are members still. */
  lemma ReopenedLines(c: Codec, j: Journal, keep: nat, w: iset<CycleTrace>) returns (disk: Disk)
    requires ValidCodec(c) && Held(c, j, 0, w)
    ensures var after := OpenStep(c, AfterCrash(DiskOf(j.session), keep), OpenFault(false, false, false));
      disk == after.0 && after.1.Some?
    ensures AllReadable(c, RawTokens(disk.data)) && LinesIn(c, RawTokens(disk.data), 0, w)
  {
    StepKeepsHeld(c, j, Crash(keep), 0, w);
    var crashed := AfterCrash(DiskOf(j.session), keep);
    GoodFileOpens(c, crashed, j.acks, OpenFault(false, false, false));
    disk := OpenStep(c, crashed, OpenFault(false, false, false)).0;
  }

  /** With a journal that started empty, nothing reaches the history that was not executed and verified. */
  lemma NewHistoryIsExecuted(c: Codec, sittings: seq<Sitting>, keep: nat, limit: int, encode: EntryEncoder, d: Document)
    requires ValidCodec(c) && AfterAll(c, Found([]), sittings).Some?
    requires
      var crashed := AfterCrash(DiskOf(AfterAll(c, Found([]), sittings).value.session), keep);
      var (disk, sink) := OpenStep(c, crashed, OpenFault(false, false, false));
      RecentRecordsSpec(c, disk.data, limit).Some?
      && d in Chronicle(encode, RecentRecordsSpec(c, disk.data, limit).value)
    ensures exists a | 0 <= a < |sittings| :: RestsOn(sittings[a], encode, d)
  {
    assert Good(c, Found([]));
    HistoryRestsOnVerifiedExecutions(c, Found([]), sittings, keep, limit, encode);
    assert Lines(DiskOf(Found([]).session).data) == [];
  }
}
