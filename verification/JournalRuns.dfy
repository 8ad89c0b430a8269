/**
 Every run of the journal: any sequence of successful, refused, torn or unsynced Saves, Closes,
 crashes and Opens.
 */
module JournalRuns {
  import opened Wrappers
  import opened Lists
  import opened JournalText
  import opened Trace
  import opened AuditReaders
  import opened AuditFile

  /** A Save that returned nil: the line it wrote and that line's place in the file. */
  datatype Ack = Ack(index: nat, record: seq<byte>)

  datatype Session = Down(disk: Disk) | Up(sink: Sink)

  datatype Journal = Journal(session: Session, acks: seq<Ack>)

  datatype Op =
    | Save(trace: CycleTrace, fault: SaveFault)
    | Close(end: CloseFault)
    | Crash(keep: nat)
    | Open(faults: OpenFault)

  function DiskOf(s: Session): Disk {
    match s
    case Down(disk) => disk
    case Up(sink) => sink.disk
  }

  /** A crash keeps the synced part and any prefix of what stands behind it, cut-off bytes included. */
  function AfterCrash(d: Disk, keep: nat): Disk {
    var full := d.data + d.undone;
    var least := Min(d.synced, |d.data|);
    var kept := if keep < least then least else Min(keep, |full|);
    Disk(full[..kept], kept, [])
  }

  ghost function Step(c: Codec, j: Journal, op: Op): Journal {
    match (op, j.session)
    case (Save(trace, fault), Up(sink)) =>
      var (after, ok) := SaveStep(c, sink, trace, fault);
      Journal(Up(after), if ok then j.acks + [Ack(|Lines(sink.disk.data)|, Record(c, trace))] else j.acks)
    case (Close(fault), Up(sink)) => j.(session := Up(CloseStep(sink, fault).0))
    case (Crash(keep), _) => j.(session := Down(AfterCrash(DiskOf(j.session), keep)))
    case (Open(faults), _) =>
      if j.session.Up? && !j.session.sink.closed then j
      else
        var (disk, sink) := OpenStep(c, DiskOf(j.session), faults);
        j.(session := if sink.Some? then Up(sink.value) else Down(disk))
    case _ => j
  }

  ghost function Run(c: Codec, j: Journal, ops: seq<Op>): Journal
    decreases |ops|
  {
    if |ops| == 0 then j else Run(c, Step(c, j, ops[0]), ops[1..])
  }

  /** The acknowledged records stand, in order, among the synced lines of a file. */
  ghost predicate AcksHeld(acks: seq<Ack>, lines: seq<seq<byte>>) {
    (forall i | 0 <= i < |acks| :: acks[i].index < |lines| && lines[acks[i].index] == acks[i].record)
    && forall i, k | 0 <= i < k < |acks| :: acks[i].index < acks[k].index
  }

  ghost predicate DiskGood(c: Codec, d: Disk, acks: seq<Ack>) {
    d.synced <= |d.data|
    && AllReadable(c, Lines(d.data))
    && NoNewline(d.undone)
    && (d.undone != [] ==> EndsWhole(d.data))
    && AcksHeld(acks, Lines(d.data[..d.synced]))
  }

  /** A sink that still accepts records stands behind whole, synced lines. */
  ghost predicate SessionGood(s: Session) {
    s.Up? ==>
      s.sink.disk.undone == []
      && (!s.sink.closed && !s.sink.broken ==>
            EndsWhole(s.sink.disk.data) && s.sink.disk.synced == |s.sink.disk.data|)
  }

  ghost predicate Good(c: Codec, j: Journal) {
    DiskGood(c, DiskOf(j.session), j.acks) && SessionGood(j.session)
  }

  // ---------- records ----------

  lemma RecordIsALine(c: Codec, t: CycleTrace)
    requires ValidCodec(c) && t.id != "" && |Record(c, t)| <= MAX_AUDIT_RECORD_BYTES
    ensures NoNewline(Record(c, t))
    ensures Readable(c, Record(c, t)) && DecodeToken(c, Record(c, t)) == Some(SafeCopy(t))
  {
    var r := Record(c, t);
    assert forall k | 0 <= k < |c.encode(SafeCopy(t))| :: c.encode(SafeCopy(t))[k] >= 32;
    assert r == [] || r[|r| - 1] != CARRIAGE_RETURN;
    assert DropCarriageReturn(r) == r;
    assert c.decode(c.encode(SafeCopy(t))) == Some(SafeCopy(t));
  }

  lemma AcksHeldLonger(acks: seq<Ack>, lines: seq<seq<byte>>, more: seq<seq<byte>>)
    requires AcksHeld(acks, lines) && lines <= more
    ensures AcksHeld(acks, more)
  {
  }

  lemma SyncedLinesGrow(d: seq<byte>, n: nat, e: seq<byte>, m: nat)
    requires n <= |d| && m <= |e| && d[..n] <= e[..m]
    ensures Lines(d[..n]) <= Lines(e[..m])
  {
    LinesOfPrefix(d[..n], e[..m]);
  }

  // ---------- each step ----------

  lemma TornWriteKeepsGood(c: Codec, d: Disk, acks: seq<Ack>, record: seq<byte>, kept: nat)
    requires DiskGood(c, d, acks) && EndsWhole(d.data) && d.synced == |d.data| && d.undone == []
    requires NoNewline(record) && kept <= |record|
    ensures DiskGood(c, Append(d, record[..kept]), acks)
  {
    AppendPartial(d.data, record[..kept]);
    assert (d.data + record[..kept])[..d.synced] == d.data[..d.synced];
  }

  lemma WholeWriteKeepsGood(c: Codec, d: Disk, acks: seq<Ack>, record: seq<byte>)
    requires DiskGood(c, d, acks) && EndsWhole(d.data) && d.synced == |d.data| && d.undone == []
    requires NoNewline(record) && Readable(c, record)
    ensures DiskGood(c, Append(d, record + [NEWLINE]), acks)
  {
    AppendRecord(d.data, record);
    var more := d.data + (record + [NEWLINE]);
    assert more[..d.synced] == d.data[..d.synced];
    forall i | 0 <= i < |Lines(more)| ensures Readable(c, Lines(more)[i]) {
      if i < |Lines(d.data)| {
        assert Lines(more)[i] == Lines(d.data)[i];
      }
    }
  }

  lemma SyncedWriteKeepsGood(c: Codec, d: Disk, acks: seq<Ack>, record: seq<byte>)
    requires DiskGood(c, d, acks) && EndsWhole(d.data) && d.synced == |d.data| && d.undone == []
    requires NoNewline(record) && Readable(c, record)
    ensures DiskGood(c, Synced(Append(d, record + [NEWLINE])), acks + [Ack(|Lines(d.data)|, record)])
    ensures EndsWhole(d.data + (record + [NEWLINE]))
  {
    WholeWriteKeepsGood(c, d, acks, record);
    var e := Append(d, record + [NEWLINE]);
    AppendRecord(d.data, record);
    assert e.data[..|e.data|] == e.data;
    assert d.data[..d.synced] == d.data;
    NewAckHeld(acks, Lines(d.data), record);
  }

  lemma NewAckHeld(acks: seq<Ack>, lines: seq<seq<byte>>, record: seq<byte>)
    requires AcksHeld(acks, lines)
    ensures AcksHeld(acks + [Ack(|lines|, record)], lines + [record])
  {
  }

  lemma SaveKeepsGood(c: Codec, j: Journal, t: CycleTrace, fault: SaveFault)
    requires ValidCodec(c) && Good(c, j) && j.session.Up?
    ensures Good(c, Step(c, j, Save(t, fault)))
  {
    if !Refuses(c, j.session.sink, t, fault) {
      RecordIsALine(c, t);
      AcceptedSaveKeepsGood(c, j, t, fault);
    }
  }

  lemma AcceptedSaveKeepsGood(c: Codec, j: Journal, t: CycleTrace, fault: SaveFault)
    requires Good(c, j) && j.session.Up? && !Refuses(c, j.session.sink, t, fault)
    requires NoNewline(Record(c, t)) && Readable(c, Record(c, t))
    ensures Good(c, Step(c, j, Save(t, fault)))
  {
    var d := j.session.sink.disk;
    var r := Record(c, t);
    var line := r + [NEWLINE];
    match fault
    case TornWrite(kept) =>
      if kept >= |line| {
        assert line[..Min(kept, |line|)] == line;
        WholeWriteKeepsGood(c, d, j.acks, r);
      } else {
        assert line[..kept] == r[..kept];
        TornWriteKeepsGood(c, d, j.acks, r, kept);
      }
    case SyncFailed => WholeWriteKeepsGood(c, d, j.acks, r);
    case NoFault => SyncedWriteKeepsGood(c, d, j.acks, r);
  }

  lemma CloseKeepsGood(c: Codec, j: Journal, fault: CloseFault)
    requires Good(c, j) && j.session.Up?
    ensures Good(c, Step(c, j, Close(fault)))
  {
    var d := j.session.sink.disk;
    SyncKeepsGood(c, d, j.acks);
  }

  lemma SyncKeepsGood(c: Codec, d: Disk, acks: seq<Ack>)
    requires DiskGood(c, d, acks)
    ensures DiskGood(c, Synced(d), acks)
  {
    assert d.data[..|d.data|] == d.data;
    SyncedLinesGrow(d.data, d.synced, d.data, |d.data|);
    AcksHeldLonger(acks, Lines(d.data[..d.synced]), Lines(d.data));
  }

  lemma UndoneBytesAddNoLine(d: Disk)
    requires NoNewline(d.undone) && (d.undone != [] ==> EndsWhole(d.data))
    ensures Lines(d.data + d.undone) == Lines(d.data)
  {
    if d.undone == [] {
      assert d.data + d.undone == d.data;
    } else {
      AppendPartial(d.data, d.undone);
    }
  }

  lemma PrefixIsReadable(c: Codec, p: seq<byte>, d: seq<byte>)
    requires p <= d && AllReadable(c, Lines(d))
    ensures AllReadable(c, Lines(p))
  {
    LinesOfPrefix(p, d);
    assert forall i | 0 <= i < |Lines(p)| :: Lines(p)[i] == Lines(d)[i];
  }

  lemma CrashKeepsGood(c: Codec, d: Disk, acks: seq<Ack>, keep: nat)
    requires DiskGood(c, d, acks)
    ensures DiskGood(c, AfterCrash(d, keep), acks)
  {
    var after := AfterCrash(d, keep);
    UndoneBytesAddNoLine(d);
    PrefixIsReadable(c, after.data, d.data + d.undone);
    assert after.data[..after.synced] == after.data;
    SyncedLinesGrow(d.data, d.synced, after.data, after.synced);
    AcksHeldLonger(acks, Lines(d.data[..d.synced]), Lines(after.data));
  }

  lemma RecoveryKeepsGood(c: Codec, d: Disk, acks: seq<Ack>)
    requires DiskGood(c, d, acks)
    ensures DiskGood(c, Recovered(d), acks)
    ensures Lines(Recovered(d).data) == Lines(d.data) && EndsWhole(Recovered(d).data)
  {
    LinesOfWhole(d.data);
    if !EndsWhole(d.data) {
      CutKeepsAcks(d.data, d.synced, TailStart(d.data), acks);
      TailHasNoNewline(d.data);
    }
  }

  lemma CutKeepsAcks(data: seq<byte>, synced: nat, n: nat, acks: seq<Ack>)
    requires synced <= |data| && n <= |data| && Lines(data[..n]) == Lines(data)
    requires AcksHeld(acks, Lines(data[..synced]))
    ensures AcksHeld(acks, Lines(data[..n][..Min(synced, n)]))
  {
    PrefixOfPrefix(data, n, Min(synced, n));
    if synced > n {
      LinesOfPrefix(data[..synced], data);
      AcksHeldLonger(acks, Lines(data[..synced]), Lines(data));
    }
  }

  /** Barring an I/O failure, a good file opens. */
  lemma GoodFileOpens(c: Codec, d: Disk, acks: seq<Ack>, fault: OpenFault)
    requires DiskGood(c, d, acks)
    requires !fault.readFails && !fault.truncateFails && !fault.syncFails
    ensures OpenStep(c, d, fault).1.Some?
    ensures RawTokens(OpenStep(c, d, fault).0.data) == Lines(d.data)
  {
    RecoveryKeepsGood(c, d, acks);
    var clean := Synced(Recovered(d));
    assert RawTokens(clean.data) == Lines(d.data) + [];
    assert AllReadable(c, RawTokens(clean.data));
  }

  lemma OpenKeepsDiskGood(c: Codec, d: Disk, acks: seq<Ack>, fault: OpenFault)
    requires DiskGood(c, d, acks)
    ensures var (disk, sink) := OpenStep(c, d, fault);
      DiskGood(c, disk, acks)
      && (sink.Some? ==> sink.value == Sink(disk, false, false) && SessionGood(Up(sink.value)))
  {
    RecoveryKeepsGood(c, d, acks);
    SyncKeepsGood(c, Recovered(d), acks);
  }

  lemma OpenKeepsGood(c: Codec, j: Journal, fault: OpenFault)
    requires Good(c, j)
    ensures Good(c, Step(c, j, Open(fault)))
  {
    OpenKeepsDiskGood(c, DiskOf(j.session), j.acks, fault);
  }

  lemma StepKeepsGood(c: Codec, j: Journal, op: Op)
    requires ValidCodec(c) && Good(c, j)
    ensures Good(c, Step(c, j, op))
  {
    match op
    case Save(t, fault) => if j.session.Up? { SaveKeepsGood(c, j, t, fault); }
    case Close(fault) => if j.session.Up? { CloseKeepsGood(c, j, fault); }
    case Crash(keep) => CrashKeepsGood(c, DiskOf(j.session), j.acks, keep);
    case Open(fault) => OpenKeepsGood(c, j, fault);
  }

  lemma AcksOnlyGrow(c: Codec, j: Journal, op: Op)
    ensures j.acks <= Step(c, j, op).acks
  {
  }

  // ---------- every run ----------

  lemma {:induction false} RunKeepsGood(c: Codec, j: Journal, ops: seq<Op>)
    requires ValidCodec(c) && Good(c, j)
    ensures Good(c, Run(c, j, ops))
    ensures j.acks <= Run(c, j, ops).acks
    decreases |ops|
  {
    if |ops| != 0 {
      StepKeepsGood(c, j, ops[0]);
      AcksOnlyGrow(c, j, ops[0]);
      RunKeepsGood(c, Step(c, j, ops[0]), ops[1..]);
    }
  }

  /** A journal found on disk: readable lines, then any incomplete tail. */
  function Found(data: seq<byte>): Journal {
    Journal(Down(Disk(data, |data|, [])), [])
  }

  /** In every reachable state the file is readable lines plus at most one newline-free tail,
      and a Save that writes anything writes it directly behind a newline (or at the very start). */
  lemma JournalStaysWhole(c: Codec, data: seq<byte>, ops: seq<Op>, t: CycleTrace, fault: SaveFault)
    requires ValidCodec(c) && AllReadable(c, Lines(data))
    ensures var j := Run(c, Found(data), ops);
      AllReadable(c, Lines(DiskOf(j.session).data)) && NoNewline(Tail(DiskOf(j.session).data))
    ensures var j := Run(c, Found(data), ops);
      j.session.Up? && SaveStep(c, j.session.sink, t, fault).0.disk.data != j.session.sink.disk.data ==>
        EndsWhole(j.session.sink.disk.data)
  {
    assert data[..|data|] == data;
    RunKeepsGood(c, Found(data), ops);
  }

  /** The full reader answers an acknowledged record with the newest snapshot of its id, which is that
      record or one written behind it. */
  ghost predicate Answered(c: Codec, ack: Ack, tokens: seq<seq<byte>>, records: seq<CycleTrace>)
    requires AllReadable(c, tokens)
  {
    DecodeToken(c, ack.record).Some?
    && exists p | ack.index <= p < |tokens| ::
         LastWithId(Decoded(c, tokens), p)
         && Decoded(c, tokens)[p].id == DecodeToken(c, ack.record).value.id
         && Decoded(c, tokens)[p] in records
  }

  lemma ReaderAnswers(c: Codec, acks: seq<Ack>, tokens: seq<seq<byte>>, i: nat)
    requires AllReadable(c, tokens) && AcksHeld(acks, tokens) && i < |acks|
    ensures Answered(c, acks[i], tokens, InOrder(Latest(Decoded(c, tokens))))
  {
    var ts := Decoded(c, tokens);
    var k := acks[i].index;
    assert Some(ts[k]) == DecodeToken(c, tokens[k]);
    var p := LatestIsLast(ts, k);
    assert ts[p] in Latest(ts).Values;
    assert ts[p] in InOrder(Latest(ts));
  }

  /** Whatever happened before and after it, an acknowledged record survives a crash at any moment: the
      file opens again, holds all acknowledged records at their places in order, and its reader returns
      for each of them that snapshot or a later one of the same cycle. */
  lemma AcknowledgedRecordsSurvive(c: Codec, data: seq<byte>, before: seq<Op>, after: seq<Op>, keep: nat)
    requires ValidCodec(c) && AllReadable(c, Lines(data))
    ensures var early, late := Run(c, Found(data), before), Run(c, Run(c, Found(data), before), after);
      early.acks <= late.acks
    ensures
      var late := Run(c, Run(c, Found(data), before), after);
      var crashed := AfterCrash(DiskOf(late.session), keep);
      var (disk, sink) := OpenStep(c, crashed, OpenFault(false, false, false));
      sink.Some?
      && RawTokens(disk.data) == Lines(crashed.data)
      && AcksHeld(late.acks, RawTokens(disk.data))
      && RecordsSpec(c, disk.data).Some?
      && forall i | 0 <= i < |late.acks| ::
           Answered(c, late.acks[i], RawTokens(disk.data), RecordsSpec(c, disk.data).value)
  {
    assert data[..|data|] == data;
    var early := Run(c, Found(data), before);
    RunKeepsGood(c, Found(data), before);
    RunKeepsGood(c, early, after);
    var late := Run(c, early, after);
    CrashKeepsGood(c, DiskOf(late.session), late.acks, keep);
    var crashed := AfterCrash(DiskOf(late.session), keep);
    assert crashed.data[..crashed.synced] == crashed.data;
    GoodFileOpens(c, crashed, late.acks, OpenFault(false, false, false));
    forall i | 0 <= i < |late.acks|
      ensures Answered(c, late.acks[i], Lines(crashed.data), InOrder(Latest(Decoded(c, Lines(crashed.data)))))
    {
      ReaderAnswers(c, late.acks, Lines(crashed.data), i);
    }
  }

  /** Opening cuts exactly the bytes after the last newline: every line stays, the tail goes. */
  lemma OpenCutsExactlyTheTail(c: Codec, d: Disk, fault: OpenFault)
    requires OpenStep(c, d, fault).1.Some?
    ensures var clean := OpenStep(c, d, fault).0;
      clean.data + Tail(d.data) == d.data && EndsWhole(clean.data)
      && Lines(clean.data) == Lines(d.data)
  {
    TailHasNoNewline(d.data);
    LinesOfWhole(d.data);
    if EndsWhole(d.data) {
      WholeTextHasNoTail(d.data);
      assert d.data + [] == d.data;
    }
  }

  // ---------- what Save, Close and Open do when nothing stands in the way ----------

  /** A Save returns nil exactly when the context lives, nothing fails, the trace has an id, its record
      fits and the sink is open and unbroken; then the record and a newline stand at the end, on disk. */
  lemma SaveSucceedsExactlyWhen(c: Codec, s: Sink, t: CycleTrace, fault: SaveFault)
    ensures SaveStep(c, s, t, fault).1 <==>
      fault.NoFault? && t.id != "" && |c.encode(SafeCopy(t))| <= 1048576 && !s.closed && !s.broken
    ensures SaveStep(c, s, t, fault).1 ==>
      SaveStep(c, s, t, fault).0 ==
        s.(disk := Disk(s.disk.data + (c.encode(SafeCopy(t)) + [NEWLINE]),
                        |s.disk.data| + |c.encode(SafeCopy(t))| + 1, []))
  {
  }

  /** A Save that fails leaves the file alone, or breaks the sink for good. */
  lemma FailedSaveBreaksOrRefuses(c: Codec, s: Sink, t: CycleTrace, fault: SaveFault, u: CycleTrace, next: SaveFault)
    requires !SaveStep(c, s, t, fault).1
    ensures var after := SaveStep(c, s, t, fault).0;
      after == s || (after.broken && SaveStep(c, after, u, next) == (after, false))
  {
  }

  lemma SyncedCrashKeepsAll(d: Disk, keep: nat)
    requires d.synced == |d.data| && d.undone == []
    ensures AfterCrash(d, keep).data == d.data
  {
    assert d.data + d.undone == d.data;
  }

  /** What a Save acknowledged is read back at once, and after any crash. */
  lemma SavedRecordIsReadBack(c: Codec, j: Journal, t: CycleTrace, keep: nat)
    requires ValidCodec(c) && Good(c, j) && j.session.Up? && !j.session.sink.closed && !j.session.sink.broken
    requires t.id != "" && |c.encode(SafeCopy(t))| <= 1048576
    ensures
      var after := Step(c, j, Save(t, NoFault));
      var data := DiskOf(after.session).data;
      |after.acks| == |j.acks| + 1
      && AfterCrash(DiskOf(after.session), keep).data == data
      && RecordsSpec(c, data).Some? && SafeCopy(t) in RecordsSpec(c, data).value
  {
    var d := j.session.sink.disk;
    RecordIsALine(c, t);
    SaveSucceedsExactlyWhen(c, j.session.sink, t, NoFault);
    SyncedCrashKeepsAll(DiskOf(Step(c, j, Save(t, NoFault)).session), keep);
    SavedLineIsRead(c, d.data, Record(c, t), SafeCopy(t));
  }

  lemma SavedLineIsRead(c: Codec, data: seq<byte>, record: seq<byte>, t: CycleTrace)
    requires EndsWhole(data) && AllReadable(c, Lines(data))
    requires NoNewline(record) && Readable(c, record) && DecodeToken(c, record) == Some(t)
    ensures RecordsSpec(c, data + (record + [NEWLINE])).Some?
    ensures t in RecordsSpec(c, data + (record + [NEWLINE])).value
  {
    AppendRecord(data, record);
    assert Lines(data) + [record] + [] == Lines(data) + [record];
    LastLineIsRead(c, Lines(data), record, t);
  }

  lemma LastLineIsRead(c: Codec, lines: seq<seq<byte>>, record: seq<byte>, t: CycleTrace)
    requires AllReadable(c, lines + [record]) && DecodeToken(c, record) == Some(t)
    ensures t in InOrder(Latest(Decoded(c, lines + [record])))
  {
    var ts := Decoded(c, lines + [record]);
    var n := |ts| - 1;
    assert Some(ts[n]) == DecodeToken(c, (lines + [record])[n]);
    assert t.id in Latest(ts) && Latest(ts)[t.id] == t;
    assert t in Latest(ts).Values;
  }

  /** A journal that was found good opens, and takes the first Save. */
  lemma OpenedJournalSaves(c: Codec, d: Disk, acks: seq<Ack>, t: CycleTrace)
    requires DiskGood(c, d, acks) && t.id != "" && |c.encode(SafeCopy(t))| <= 1048576
    ensures var j := Step(c, Step(c, Journal(Down(d), acks), Open(OpenFault(false, false, false))), Save(t, NoFault));
      j.session.Up? && |j.acks| == |acks| + 1
  {
    GoodFileOpens(c, d, acks, OpenFault(false, false, false));
  }

  /** Opening succeeds exactly when reading, cutting a tail if there is one, and syncing succeed and every
      complete line is a readable record. */
  lemma OpensExactlyWhen(c: Codec, d: Disk, fault: OpenFault)
    ensures OpenStep(c, d, fault).1.Some? <==>
      !fault.readFails && (Tail(d.data) != [] ==> !fault.truncateFails) && !fault.syncFails
      && AllReadable(c, Lines(d.data))
  {
    WholeTextHasNoTail(d.data);
    LinesOfWhole(d.data);
    assert Lines(d.data) + [] == Lines(d.data);
    assert EndsWhole(Recovered(d).data) && Lines(Recovered(d).data) == Lines(d.data);
    assert RawTokens(Recovered(d).data) == Lines(d.data);
  }

  /** The first Close succeeds exactly when syncing and closing do, and then a crash loses nothing. */
  lemma ClosedJournalLosesNothing(s: Sink, fault: CloseFault, keep: nat)
    requires !s.closed
    ensures CloseStep(s, fault).0.closed && CloseStep(s, fault).0.disk.data == s.disk.data
    ensures CloseStep(s, fault).1 <==> !fault.syncFails && !fault.closeFails
    ensures CloseStep(s, fault).1 ==> AfterCrash(CloseStep(s, fault).0.disk, keep).data == s.disk.data
  {
    if !fault.syncFails {
      SyncedCrashKeepsAll(Synced(s.disk), keep);
    }
  }
}
