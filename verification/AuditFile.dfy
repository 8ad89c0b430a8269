/**
 The append-only audit journal (agent/audit_file.go): the file it owns, the transitions of one sink
 and the object whose methods perform them.
 */
module AuditFile {
  import opened Wrappers
  import opened Lists
  import opened JournalText
  import opened Trace
  import opened AuditReaders

  // ---------- the file and what the environment may do to it ----------

  /** File contents, the length known to be on disk, and bytes cut off since the last sync.
      A crash may bring cut-off bytes back. */
  datatype Disk = Disk(data: seq<byte>, synced: nat, undone: seq<byte>)

  datatype SaveFault = NoFault | Cancelled | TornWrite(kept: nat) | SyncFailed

  /** The sync before closing fails, or closing the file itself does. */
  datatype CloseFault = CloseFault(syncFails: bool, closeFails: bool)

  datatype OpenFault = OpenFault(readFails: bool, truncateFails: bool, syncFails: bool)

  datatype Sink = Sink(disk: Disk, closed: bool, broken: bool)

  /** The record Save writes for a trace. */
  function Record(c: Codec, t: CycleTrace): seq<byte> {
    c.encode(SafeCopy(t))
  }

  function Append(d: Disk, bytes: seq<byte>): Disk {
    d.(data := d.data + bytes)
  }

  function Synced(d: Disk): Disk {
    Disk(d.data, |d.data|, [])
  }

  /** A sink refuses a Save without touching the file. */
  predicate Refuses(c: Codec, s: Sink, t: CycleTrace, fault: SaveFault) {
    fault.Cancelled? || t.id == "" || |Record(c, t)| > MAX_AUDIT_RECORD_BYTES || s.closed || s.broken
  }

  function SaveStep(c: Codec, s: Sink, t: CycleTrace, fault: SaveFault): (Sink, bool) {
    if Refuses(c, s, t, fault) then (s, false)
    else
      var line := Record(c, t) + [NEWLINE];
      match fault
      case TornWrite(kept) => (s.(disk := Append(s.disk, line[..Min(kept, |line|)]), broken := true), false)
      case SyncFailed => (s.(disk := Append(s.disk, line), broken := true), false)
      case _ => (s.(disk := Synced(Append(s.disk, line))), true)
  }

  function CloseStep(s: Sink, fault: CloseFault): (Sink, bool) {
    if s.closed then (s, true)
    else if fault.syncFails then (s.(closed := true), false)
    else (s.(closed := true, disk := Synced(s.disk)), !fault.closeFails)
  }

  /** The file after the incomplete tail, if any, was cut off. */
  function Recovered(d: Disk): Disk {
    if EndsWhole(d.data) then d
    else Disk(Whole(d.data), Min(d.synced, |Whole(d.data)|), Tail(d.data) + d.undone)
  }

  ghost function OpenStep(c: Codec, d: Disk, fault: OpenFault): (Disk, Option<Sink>) {
    if fault.readFails || (!EndsWhole(d.data) && fault.truncateFails) then (d, None)
    else if fault.syncFails then (Recovered(d), None)
    else
      var clean := Synced(Recovered(d));
      (clean, if RecordsSpec(c, clean.data).Some? then Some(Sink(clean, false, false)) else None)
  }

  // ---------- the objects ----------

  class JournalFile {
    var data: seq<byte>
    var synced: nat
    var undone: seq<byte>

    constructor (d: Disk)
      ensures State() == d
    {
      data, synced, undone := d.data, d.synced, d.undone;
    }

    ghost function State(): Disk
      reads this
    {
      Disk(data, synced, undone)
    }

    /** A write that fails keeps some part of the bytes. */
    method Write(bytes: seq<byte>, fault: SaveFault) returns (ok: bool)
      modifies this
      ensures ok == !fault.TornWrite?
      ensures State() == Append(old(State()),
        if fault.TornWrite? then bytes[..Min(fault.kept, |bytes|)] else bytes)
    {
      ok := !fault.TornWrite?;
      data := data + if fault.TornWrite? then bytes[..Min(fault.kept, |bytes|)] else bytes;
    }

    method Sync(fails: bool) returns (ok: bool)
      modifies this
      ensures ok == !fails
      ensures State() == if fails then old(State()) else Synced(old(State()))
    {
      ok := !fails;
      if !fails {
        synced, undone := |data|, [];
      }
    }

    /** Closing the handle changes no byte, whether it fails or not. */
    method Close(fails: bool) returns (ok: bool)
      ensures ok == !fails
    {
      ok := !fails;
    }

    method ReadAt(position: nat, size: nat) returns (chunk: seq<byte>)
      requires position + size <= |data|
      ensures chunk == data[position..position + size]
    {
      chunk := data[position..position + size];
    }

    method Truncate(size: nat)
      requires size <= |data|
      modifies this
      ensures State() == Disk(old(data)[..size], Min(old(synced), size), old(data)[size..] + old(undone))
    {
      data, synced, undone := data[..size], Min(synced, size), data[size..] + undone;
    }

    /** Scans backwards in 4096-byte chunks for the last newline and cuts the file after it. */
    method TruncateIncompleteTail(truncateFails: bool) returns (ok: bool)
      modifies this
      ensures ok == !(!EndsWhole(old(data)) && truncateFails)
      ensures State() == if ok then Recovered(old(State())) else old(State())
    {
      if |data| == 0 {
        return true;
      }
      var last := ReadAt(|data| - 1, 1);
      assert |last| == 1 && data[|data| - 1..|data| - 1 + 1][0] == data[|data| - 1];
      if last[0] == NEWLINE {
        return true;
      }
      var cut := FindTailStart();
      if truncateFails {
        return false;
      }
      Truncate(cut);
      ok := true;
    }

    /** Offset just after the last newline, 0 when there is none. */
    method FindTailStart() returns (cut: nat)
      ensures cut == TailStart(data)
    {
      var chunkSize := 4096;
      var position := |data|;
      while position > 0
        invariant 0 <= position <= |data|
        invariant forall k | position <= k < |data| :: data[k] != NEWLINE
      {
        var readSize := if position < chunkSize then position else chunkSize;
        ghost var end := position;
        position := position - readSize;
        var chunk := ReadAt(position, readSize);
        var i := |chunk| - 1;
        while i >= 0
          invariant -1 <= i < |chunk|
          invariant forall k | position + i < k < |data| :: data[k] != NEWLINE
        {
          if chunk[i] == NEWLINE {
            cut := position + i + 1;
            TailStartIs(data, cut);
            return;
          }
          i := i - 1;
        }
      }
      TailStartIs(data, 0);
      cut := 0;
    }
  }

  class JSONLAuditSink {
    const file: JournalFile
    var closed: bool
    var broken: bool

    constructor (f: JournalFile)
      ensures file == f && !closed && !broken
    {
      file, closed, broken := f, false, false;
    }

    ghost function State(): Sink
      reads this, file
    {
      Sink(file.State(), closed, broken)
    }

    method Close(fault: CloseFault) returns (ok: bool)
      modifies this`closed, file
      ensures (State(), ok) == CloseStep(old(State()), fault)
    {
      if closed {
        return true;
      }
      closed := true;
      var synced := file.Sync(fault.syncFails);
      if !synced {
        return false;
      }
      ok := file.Close(fault.closeFails);
    }

    method Save(c: Codec, trace: CycleTrace, fault: SaveFault) returns (ok: bool)
      modifies this`broken, file
      ensures (State(), ok) == SaveStep(c, old(State()), trace, fault)
    {
      if fault.Cancelled? || trace.id == "" {
        return false;
      }
      var encoded := c.encode(SafeCopy(trace));
      if |encoded| > MAX_AUDIT_RECORD_BYTES {
        return false;
      }
      encoded := encoded + [NEWLINE];
      if closed || broken {
        return false;
      }
      var written := file.Write(encoded, fault);
      if !written {
        broken := true;
        return false;
      }
      var synced := file.Sync(fault.SyncFailed?);
      if !synced {
        broken := true;
        return false;
      }
      ok := true;
    }

    method Records(c: Codec) returns (r: Option<seq<CycleTrace>>)
      ensures r == if closed then None else RecordsSpec(c, file.data)
    {
      if closed {
        return None;
      }
      r := ReadRecords(c, file.data);
    }

    method RecentRecords(c: Codec, limit: int) returns (r: Option<seq<CycleTrace>>)
      ensures r == if closed then None else RecentRecordsSpec(c, file.data, limit)
    {
      if closed {
        return None;
      }
      r := ReadRecentRecords(c, file.data, limit);
    }
  }

  /** Cut the incomplete tail off and sync. */
  method Recover(file: JournalFile, fault: OpenFault) returns (ok: bool)
    modifies file
    ensures ok ==> file.State() == Synced(Recovered(old(file.State())))
    ensures !ok ==> file.State() == if fault.readFails || (!EndsWhole(old(file.data)) && fault.truncateFails)
      then old(file.State()) else Recovered(old(file.State()))
    ensures ok == !(fault.readFails || (!EndsWhole(old(file.data)) && fault.truncateFails) || fault.syncFails)
  {
    if fault.readFails {
      return false;
    }
    var truncated := file.TruncateIncompleteTail(fault.truncateFails);
    if !truncated {
      return false;
    }
    ok := file.Sync(fault.syncFails);
  }

  method OpenJSONLAuditSink(c: Codec, file: JournalFile, fault: OpenFault) returns (sink: JSONLAuditSink?)
    modifies file
    ensures file.State() == OpenStep(c, old(file.State()), fault).0
    ensures sink == null <==> OpenStep(c, old(file.State()), fault).1.None?
    ensures sink != null ==> fresh(sink) && sink.file == file
    ensures sink != null ==> Some(sink.State()) == OpenStep(c, old(file.State()), fault).1
  {
    var ok := Recover(file, fault);
    if !ok {
      return null;
    }
    var candidate := new JSONLAuditSink(file);
    var records := candidate.Records(c);
    if records.None? {
      return null;
    }
    sink := candidate;
  }
}
