/**
 Verified history as retrievable documents (agent/history_retrieval.go): the newest verified proposals
 of the journal, selected by a newest-first scan and put back into chronological order in place.
 */
module VerifiedHistory {
  import opened Wrappers
  import opened Lists
  import opened Utf8
  import opened Sorting
  import opened Decimals
  import opened Sanitize
  import opened Policy
  import opened Trace
  import opened Retrieval
  import opened AuditReaders
  import opened Cycle
  import opened CycleHistory
  import opened CycleTheorems
  import opened CycleProgress

  const MAX_HISTORY_DOCUMENTS: nat := 1000

  datatype Entry = Entry(
    trigger: string, target: string, observations: JsonMap, operation: string, arguments: Args, result: JsonMap)

  /** The JSON encoding of an entry, None when it fails. */
  type EntryEncoder = Entry -> Option<Text>

  /** Encodings are non-empty and valid UTF-8. */
  ghost predicate ValidEncoder(encode: EntryEncoder) {
    forall e: Entry :: encode(e).Some? ==> encode(e).value != [] && ValidUtf8(encode(e).value)
  }

  function HistoryId(id: string, index: nat): string {
    "history-" + id + "-" + Decimal(index)
  }

  function EntryOf(t: CycleTrace, r: ProposalRecord): Entry {
    Entry(t.trigger, t.target, SanitizeMapSpec(t.observations, []), r.proposal.operation,
          SafeArgs(r.proposal.args), SanitizeMapSpec(r.result, []))
  }

  predicate Recorded(t: CycleTrace, p: nat)
    requires p < |t.proposals|
  {
    t.proposals[p].outcome == Verified && t.proposals[p].verified == Some(true)
  }

  /** The document of one proposal, None when it is not eligible. */
  function DocumentOf(encode: EntryEncoder, t: CycleTrace, p: nat): Option<Document>
    requires p < |t.proposals|
  {
    if t.result != CycleVerified || t.id == "" || !Recorded(t, p) then None
    else
      match encode(EntryOf(t, t.proposals[p]))
      case None => None
      case Some(text) => Some(Document(HistoryId(t.id, p), "verified_history", Truncated(text, MAX_DOCUMENT_BYTES)))
  }

  /** The eligible documents of a trace from proposal p on. */
  function OfTrace(encode: EntryEncoder, t: CycleTrace, p: nat): seq<Document>
    requires p <= |t.proposals|
    decreases |t.proposals| - p
  {
    if p == |t.proposals| then []
    else (match DocumentOf(encode, t, p) case None => [] case Some(d) => [d]) + OfTrace(encode, t, p + 1)
  }

  /** All eligible documents in chronological order. */
  function Chronicle(encode: EntryEncoder, records: seq<CycleTrace>): seq<Document> {
    if records == [] then [] else OfTrace(encode, records[0], 0) + Chronicle(encode, records[1..])
  }

  // ---------- the scan ----------

  /** a is the last n elements of s, newest first. */
  ghost predicate Mirrors<T>(a: seq<T>, s: seq<T>, n: nat) {
    |a| == (if |s| < n then |s| else n)
    && forall k | 0 <= k < |a| :: a[k] == s[|s| - 1 - k]
  }

  lemma MirrorsOneMore<T>(a: seq<T>, s: seq<T>, n: nat, d: T)
    requires Mirrors(a, s, n)
    ensures |a| < n ==> Mirrors(a + [d], [d] + s, n)
    ensures |a| == n ==> Mirrors(a, [d] + s, n)
  {
  }

  lemma MirrorsFull<T>(a: seq<T>, s: seq<T>, n: nat, more: seq<T>)
    requires Mirrors(a, s, n) && |a| == n
    ensures Mirrors(a, more + s, n)
  {
  }

  /** The inner loop: the proposals of one trace, newest first, until the limit is reached. */
  method ScanTrace(encode: EntryEncoder, t: CycleTrace, limit: nat, found: seq<Document>, ghost later: seq<Document>)
    returns (r: seq<Document>)
    requires Mirrors(found, later, limit)
    ensures Mirrors(r, OfTrace(encode, t, 0) + later, limit)
  {
    r := found;
    if t.result != CycleVerified || t.id == "" {
      NothingEligible(encode, t, 0);
      assert [] + later == later;
      return;
    }
    var p := |t.proposals|;
    assert [] + later == later;
    while p > 0 && |r| < limit
      invariant 0 <= p <= |t.proposals|
      invariant Mirrors(r, OfTrace(encode, t, p) + later, limit)
    {
      p := p - 1;
      ghost var rest := OfTrace(encode, t, p + 1) + later;
      if !Recorded(t, p) {
        assert OfTrace(encode, t, p) == [] + OfTrace(encode, t, p + 1);
        continue;
      }
      var encoded := encode(EntryOf(t, t.proposals[p]));
      if encoded.None? {
        assert OfTrace(encode, t, p) == [] + OfTrace(encode, t, p + 1);
        continue;
      }
      var text := Truncate(encoded.value, MAX_DOCUMENT_BYTES);
      var d := Document(HistoryId(t.id, p), "verified_history", text);
      MirrorsOneMore(r, rest, limit, d);
      AppendAssociates([d], OfTrace(encode, t, p + 1), later);
      r := r + [d];
    }
    if p > 0 {
      OlderChangeNothing(encode, t, p, r, later, limit);
    }
  }

  lemma {:induction false} NothingEligible(encode: EntryEncoder, t: CycleTrace, p: nat)
    requires p <= |t.proposals| && (t.result != CycleVerified || t.id == "")
    ensures OfTrace(encode, t, p) == []
    decreases |t.proposals| - p
  {
    if p < |t.proposals| {
      NothingEligible(encode, t, p + 1);
    }
  }

  lemma {:induction false} OlderChangeNothing(encode: EntryEncoder, t: CycleTrace, p: nat, r: seq<Document>,
                                              later: seq<Document>, limit: nat)
    requires p <= |t.proposals| && Mirrors(r, OfTrace(encode, t, p) + later, limit) && |r| == limit
    ensures Mirrors(r, OfTrace(encode, t, 0) + later, limit)
    decreases p
  {
    if p > 0 {
      var newer := match DocumentOf(encode, t, p - 1) case None => [] case Some(d) => [d];
      MirrorsFull(r, OfTrace(encode, t, p) + later, limit, newer);
      AppendAssociates(newer, OfTrace(encode, t, p), later);
      OlderChangeNothing(encode, t, p - 1, r, later, limit);
    }
  }

  /** The outer loop: newest trace first. */
  method ScanRecords(encode: EntryEncoder, records: seq<CycleTrace>, limit: nat) returns (found: seq<Document>)
    ensures Mirrors(found, Chronicle(encode, records), limit)
  {
    found := [];
    var i := |records|;
    while i > 0 && |found| < limit
      invariant 0 <= i <= |records|
      invariant Mirrors(found, Chronicle(encode, records[i..]), limit)
    {
      i := i - 1;
      assert records[i..][1..] == records[i + 1..];
      found := ScanTrace(encode, records[i], limit, found, Chronicle(encode, records[i + 1..]));
    }
    if i > 0 {
      EarlierChangeNothing(encode, records, i, found, limit);
    }
    assert records[0..] == records;
  }

  lemma {:induction false} EarlierChangeNothing(encode: EntryEncoder, records: seq<CycleTrace>, i: nat,
                                                found: seq<Document>, limit: nat)
    requires i <= |records| && Mirrors(found, Chronicle(encode, records[i..]), limit) && |found| == limit
    ensures Mirrors(found, Chronicle(encode, records[0..]), limit)
    decreases i
  {
    if i > 0 {
      assert records[i - 1..][1..] == records[i..];
      MirrorsFull(found, Chronicle(encode, records[i..]), limit, OfTrace(encode, records[i - 1], 0));
      EarlierChangeNothing(encode, records, i - 1, found, limit);
    }
  }

  /** The two-pointer reversal. */
  method ReverseDocuments(documents: array<Document>)
    modifies documents
    ensures forall k | 0 <= k < documents.Length :: documents[k] == old(documents[documents.Length - 1 - k])
  {
    var left, right := 0, documents.Length - 1;
    while left < right
      invariant 0 <= left && right == documents.Length - 1 - left
      invariant forall k | 0 <= k < documents.Length && (k < left || right < k) ::
        documents[k] == old(documents[documents.Length - 1 - k])
      invariant forall k | left <= k <= right :: documents[k] == old(documents[k])
    {
      documents[left], documents[right] := documents[right], documents[left];
      left, right := left + 1, right - 1;
    }
  }

  /** verifiedHistoryDocuments: the last eligible proposals, in chronological order. */
  method VerifiedHistoryDocuments(encode: EntryEncoder, records: seq<CycleTrace>, limit: int)
    returns (documents: seq<Document>)
    ensures documents == LastOf(Chronicle(encode, records), if limit <= 0 then 0 else limit)
  {
    if limit <= 0 {
      return [];
    }
    var found := ScanRecords(encode, records, limit);
    var list := new Document[|found|](i requires 0 <= i < |found| => found[i]);
    ReverseDocuments(list);
    documents := list[..];
  }

  // ---------- what is selected ----------

  /** A document of a trace belongs to one of its verified proposals. */
  lemma {:induction false} DocumentHasProposal(encode: EntryEncoder, t: CycleTrace, p: nat, d: Document)
    returns (i: nat)
    requires p <= |t.proposals| && d in OfTrace(encode, t, p)
    ensures p <= i < |t.proposals| && DocumentOf(encode, t, i) == Some(d)
    decreases |t.proposals| - p
  {
    if DocumentOf(encode, t, p) == Some(d) {
      i := p;
    } else {
      i := DocumentHasProposal(encode, t, p + 1, d);
    }
  }

  lemma {:induction false} DocumentHasTrace(encode: EntryEncoder, records: seq<CycleTrace>, d: Document)
    returns (k: nat, i: nat)
    requires d in Chronicle(encode, records)
    ensures k < |records| && i < |records[k].proposals| && DocumentOf(encode, records[k], i) == Some(d)
  {
    if d in OfTrace(encode, records[0], 0) {
      k := 0;
      i := DocumentHasProposal(encode, records[0], 0, d);
    } else {
      k, i := DocumentHasTrace(encode, records[1..], d);
      k := k + 1;
    }
  }

  /** Provenance: a document made from a snapshot the runner saved stands for an execution that succeeded
      and a verification, directly after it, that returned true without error. */
  lemma HistoryHasProvenance(cfg: RunnerConfig, log: seq<Event>, n: nat, encode: EntryEncoder, d: Document)
    requires History(cfg, log) && n < |log| && log[n].Saved? && d in OfTrace(encode, log[n].snapshot, 0)
    ensures exists i, j | 0 <= i < |log[n].snapshot.proposals| && 0 <= j < n - 1 ::
      DocumentOf(encode, log[n].snapshot, i) == Some(d)
      && VerifiedAt(log, j, log[n].snapshot.proposals[i].proposal.operation)
  {
    var i := DocumentHasProposal(encode, log[n].snapshot, 0, d);
    VerifiedHasProvenance(cfg, log, n, i);
  }

  // ---------- generated ids ----------

  predicate NoDashFrom(s: string, n: nat) {
    forall i | n <= i < |s| :: s[i] != '-'
  }

  lemma NoDashBehind(a: string, d: string)
    requires forall k | 0 <= k < |d| :: d[k] != '-'
    ensures NoDashFrom(a + "-" + d, |a| + 1) && (a + "-" + d)[|a|] == '-'
  {
    var s := a + "-" + d;
    forall i | |a| + 1 <= i < |s| ensures s[i] != '-' {
      assert s[i] == d[i - |a| - 1];
    }
  }

  /** The last dash separates, as nothing after it holds another. */
  lemma LastDashSeparates(a: string, d: string, b: string, e: string)
    requires a + "-" + d == b + "-" + e
    requires forall k | 0 <= k < |d| :: d[k] != '-'
    requires forall k | 0 <= k < |e| :: e[k] != '-'
    ensures a == b && d == e
  {
    var s := a + "-" + d;
    NoDashBehind(a, d);
    NoDashBehind(b, e);
    assert |a| == |b|;
    assert a == s[..|a|] && b == s[..|b|];
    assert d == s[|a| + 1..] && e == s[|b| + 1..];
  }

  /** Different traces, or different proposals of one trace, get different ids. */
  lemma HistoryIdIsInjective(a: string, i: nat, b: string, j: nat)
    requires HistoryId(a, i) == HistoryId(b, j)
    ensures a == b && i == j
  {
    DecimalHasNoDash(i);
    DecimalHasNoDash(j);
    LastDashSeparates("history-" + a, Decimal(i), "history-" + b, Decimal(j));
    assert a == ("history-" + a)[8..] && b == ("history-" + b)[8..];
    DecimalIsInjective(i, j);
  }

  ghost predicate TraceIdsDistinct(records: seq<CycleTrace>) {
    forall i, j | 0 <= i < j < |records| :: records[i].id != records[j].id
  }

  lemma {:induction false} TraceDocumentsDistinct(encode: EntryEncoder, t: CycleTrace, p: nat)
    requires p <= |t.proposals|
    ensures IdsDistinct(OfTrace(encode, t, p))
    decreases |t.proposals| - p
  {
    if p < |t.proposals| {
      TraceDocumentsDistinct(encode, t, p + 1);
      var rest := OfTrace(encode, t, p + 1);
      if DocumentOf(encode, t, p).Some? {
        forall k | 0 <= k < |rest| ensures rest[k].id != HistoryId(t.id, p) {
          var i := DocumentHasProposal(encode, t, p + 1, rest[k]);
          if rest[k].id == HistoryId(t.id, p) {
            HistoryIdIsInjective(t.id, i, t.id, p);
          }
        }
      }
    }
  }

  /** With distinct trace ids all generated ids are distinct. */
  lemma {:induction false} GeneratedIdsDistinct(encode: EntryEncoder, records: seq<CycleTrace>)
    requires TraceIdsDistinct(records)
    ensures IdsDistinct(Chronicle(encode, records))
  {
    if records != [] {
      TraceDocumentsDistinct(encode, records[0], 0);
      GeneratedIdsDistinct(encode, records[1..]);
      var first, rest := OfTrace(encode, records[0], 0), Chronicle(encode, records[1..]);
      forall a, b | 0 <= a < |first| && 0 <= b < |rest| ensures first[a].id != rest[b].id {
        var i := DocumentHasProposal(encode, records[0], 0, first[a]);
        var k, j := DocumentHasTrace(encode, records[1..], rest[b]);
        assert records[1..][k] == records[k + 1];
        if first[a].id == rest[b].id {
          HistoryIdIsInjective(records[0].id, i, records[k + 1].id, j);
        }
      }
    }
  }

  // ---------- the combined corpus ----------

  function Remaining(corpus: seq<Document>): int {
    if MAX_DOCUMENTS - |corpus| > MAX_HISTORY_DOCUMENTS then MAX_HISTORY_DOCUMENTS else MAX_DOCUMENTS - |corpus|
  }

  function Combined(encode: EntryEncoder, corpus: seq<Document>, records: seq<CycleTrace>): seq<Document> {
    corpus + LastOf(Chronicle(encode, records), if Remaining(corpus) <= 0 then 0 else Remaining(corpus))
  }

  lemma HistoryDocumentsFit(encode: EntryEncoder, records: seq<CycleTrace>, d: Document)
    requires ValidEncoder(encode) && d in Chronicle(encode, records)
    ensures DocumentFits(d)
  {
    var k, i := DocumentHasTrace(encode, records, d);
    var text := encode(EntryOf(records[k], records[k].proposals[i])).value;
    TruncationLosesAtMostThree(text, MAX_DOCUMENT_BYTES);
    assert d.id[0] == 'h' && d.source[0] == 'v';
  }

  ghost predicate IdClash(a: seq<Document>, b: seq<Document>) {
    exists i, j | 0 <= i < |a| && 0 <= j < |b| :: a[i].id == b[j].id
  }

  lemma IdsOfSum(a: seq<Document>, b: seq<Document>)
    requires IdsDistinct(a) && IdsDistinct(b)
    ensures IdsDistinct(a + b) <==> !IdClash(a, b)
  {
    var s := a + b;
    if IdClash(a, b) {
      var i, j :| 0 <= i < |a| && 0 <= j < |b| && a[i].id == b[j].id;
      assert s[i].id == s[|a| + j].id;
    }
  }

  lemma LastOfDistinct(s: seq<Document>, n: nat)
    requires IdsDistinct(s)
    ensures IdsDistinct(LastOf(s, n))
    ensures forall d :: d in LastOf(s, n) ==> d in s
  {
  }

  /** The combined list never exceeds the index, and the index takes it exactly when no corpus id is one
      that was generated. */
  lemma CombinedIsIndexable(encode: EntryEncoder, corpus: seq<Document>, records: seq<CycleTrace>)
    requires ValidEncoder(encode) && TraceIdsDistinct(records)
    requires |corpus| <= MAX_DOCUMENTS && CorpusFits(corpus)
    ensures |Combined(encode, corpus, records)| <= MAX_DOCUMENTS
    ensures CorpusFits(Combined(encode, corpus, records)) <==>
      !IdClash(corpus, Combined(encode, corpus, records)[|corpus|..])
  {
    GeneratedIdsDistinct(encode, records);
    var chronicle := Chronicle(encode, records);
    var n: nat := if Remaining(corpus) <= 0 then 0 else Remaining(corpus);
    LastOfDistinct(chronicle, n);
    var recent := LastOf(chronicle, n);
    assert Combined(encode, corpus, records) == corpus + recent;
    assert (corpus + recent)[|corpus|..] == recent;
    IdsOfSum(corpus, recent);
    forall d | d in recent ensures DocumentFits(d) {
      HistoryDocumentsFit(encode, records, d);
    }
  }

  /** What the bounded reader returns has one snapshot for each id. */
  lemma RecentTracesDiffer(c: Codec, data: seq<byte>, limit: int)
    requires RecentRecordsSpec(c, data, limit).Some?
    ensures TraceIdsDistinct(RecentRecordsSpec(c, data, limit).value)
  {
    var m := RecentMap(c, data, limit).value;
    var records := InOrder(m);
    TraceOrder();
    forall i, j | 0 <= i < j < |records| ensures records[i].id != records[j].id {
      assert records[i] in records && records[j] in records;
      assert TraceLess(records[i], records[j]);
      if records[i].id == records[j].id {
        OneSnapshot(m, records[i], records[j]);
      }
    }
  }

  lemma OneSnapshot(m: map<string, CycleTrace>, a: CycleTrace, b: CycleTrace)
    requires Filed(m) && a in m.Values && b in m.Values && a.id == b.id
    ensures a == b
  {
  }

  /** The history read back from the journal joins a fitting corpus exactly when no corpus id clashes. */
  lemma JournalHistoryIsIndexable(c: Codec, data: seq<byte>, limit: int, encode: EntryEncoder, corpus: seq<Document>)
    requires RecentRecordsSpec(c, data, limit).Some?
    requires ValidEncoder(encode) && |corpus| <= MAX_DOCUMENTS && CorpusFits(corpus)
    ensures var documents := Combined(encode, corpus, RecentRecordsSpec(c, data, limit).value);
      |documents| <= MAX_DOCUMENTS && (CorpusFits(documents) <==> !IdClash(corpus, documents[|corpus|..]))
  {
    RecentTracesDiffer(c, data, limit);
    CombinedIsIndexable(encode, corpus, RecentRecordsSpec(c, data, limit).value);
  }

  /** A corpus that keeps away from the "history-" prefix never clashes. */
  lemma ReservedPrefixAvoidsClashes(encode: EntryEncoder, corpus: seq<Document>, records: seq<CycleTrace>)
    requires forall i | 0 <= i < |corpus| :: !("history-" <= corpus[i].id)
    ensures !IdClash(corpus, Combined(encode, corpus, records)[|corpus|..])
  {
    var recent := Combined(encode, corpus, records)[|corpus|..];
    forall i, j | 0 <= i < |corpus| && 0 <= j < |recent| ensures corpus[i].id != recent[j].id {
      assert recent[j] in Chronicle(encode, records);
      var k, p := DocumentHasTrace(encode, records, recent[j]);
      assert "history-" <= recent[j].id;
    }
  }

  const SAMPLE := EMPTY_TRACE.(
    id := "x",
    result := CycleVerified,
    proposals := [ProposalRecord(Proposal("op", None), PolicyResult(Allow, PolicyPermits), Verified, map[],
      Some(true))])

  /** The corpus check alone does not keep the prefix free: a fitting corpus with the id "history-x-0" is
      refused together with the history of a verified cycle "x". */
  lemma ReservedIdIsRefused(encode: EntryEncoder)
    requires encode(EntryOf(SAMPLE, SAMPLE.proposals[0])).Some?
    ensures var corpus := [Document("history-x-0", "manual", [65])];
      CorpusFits(corpus) && !CorpusFits(Combined(encode, corpus, [SAMPLE]))
  {
    var corpus := [Document("history-x-0", "manual", [65])];
    assert corpus[0].id[0] == 'h' && corpus[0].source[0] == 'm';
    assert Decimal(0) == "0";
    assert HistoryId("x", 0) == "history-x-0";
    var d := DocumentOf(encode, SAMPLE, 0).value;
    assert OfTrace(encode, SAMPLE, 0) == [d];
    assert Chronicle(encode, [SAMPLE]) == [d];
    var both := Combined(encode, corpus, [SAMPLE]);
    assert both == corpus + [d];
    assert both[0].id == both[1].id;
  }

  // ---------- the newest are kept ----------

  /** Document d was made from proposal p of record i. */
  ghost predicate MadeFrom(encode: EntryEncoder, records: seq<CycleTrace>, d: Document, i: nat, p: nat) {
    i < |records| && p < |records[i].proposals| && DocumentOf(encode, records[i], p) == Some(d)
  }

  /** The chronicle follows the records: of two documents the later one comes from the same record or a
      later one. */
  lemma {:induction false} ChronicleFollowsRecords(encode: EntryEncoder, records: seq<CycleTrace>, a: nat, b: nat)
    returns (i: nat, p: nat, j: nat, q: nat)
    requires a < b < |Chronicle(encode, records)|
    ensures MadeFrom(encode, records, Chronicle(encode, records)[a], i, p)
    ensures MadeFrom(encode, records, Chronicle(encode, records)[b], j, q)
    ensures i <= j
  {
    var first, rest := OfTrace(encode, records[0], 0), Chronicle(encode, records[1..]);
    assert Chronicle(encode, records) == first + rest;
    if b < |first| {
      i, j := 0, 0;
      p := MadeFromFirst(encode, records, first[a]);
      q := MadeFromFirst(encode, records, first[b]);
    } else if a < |first| {
      i := 0;
      p := MadeFromFirst(encode, records, first[a]);
      j, q := MadeFromRest(encode, records, rest[b - |first|]);
    } else {
      i, p, j, q := ChronicleFollowsRecords(encode, records[1..], a - |first|, b - |first|);
      Shifted(encode, records, rest[a - |first|], i, p);
      Shifted(encode, records, rest[b - |first|], j, q);
      i, j := i + 1, j + 1;
    }
  }

  lemma MadeFromFirst(encode: EntryEncoder, records: seq<CycleTrace>, d: Document) returns (p: nat)
    requires records != [] && d in OfTrace(encode, records[0], 0)
    ensures MadeFrom(encode, records, d, 0, p)
  {
    p := DocumentHasProposal(encode, records[0], 0, d);
  }

  lemma MadeFromRest(encode: EntryEncoder, records: seq<CycleTrace>, d: Document) returns (i: nat, p: nat)
    requires records != [] && d in Chronicle(encode, records[1..])
    ensures MadeFrom(encode, records, d, i, p)
  {
    i, p := DocumentHasTrace(encode, records[1..], d);
    Shifted(encode, records, d, i, p);
    i := i + 1;
  }

  lemma Shifted(encode: EntryEncoder, records: seq<CycleTrace>, d: Document, i: nat, p: nat)
    requires records != [] && MadeFrom(encode, records[1..], d, i, p)
    ensures MadeFrom(encode, records, d, i + 1, p)
  {
    assert records[1..][i] == records[i + 1];
  }

  lemma MadeFromOneRecord(encode: EntryEncoder, records: seq<CycleTrace>, d: Document, i: nat, p: nat, j: nat, q: nat)
    requires TraceIdsDistinct(records) && MadeFrom(encode, records, d, i, p) && MadeFrom(encode, records, d, j, q)
    ensures i == j
  {
    HistoryIdIsInjective(records[i].id, p, records[j].id, q);
  }

  /** When the limit bites, what is dropped comes from cycles that started no later than those of what is
      kept. */
  lemma NewestHistoryIsKept(c: Codec, data: seq<byte>, requested: int, encode: EntryEncoder, n: nat, a: nat, b: nat,
                            i: nat, p: nat, j: nat, q: nat)
    requires RecentRecordsSpec(c, data, requested).Some?
    requires var records := RecentRecordsSpec(c, data, requested).value;
      var all := Chronicle(encode, records);
      a < |all| - n && b < |LastOf(all, n)|
      && MadeFrom(encode, records, all[a], i, p) && MadeFrom(encode, records, LastOf(all, n)[b], j, q)
    ensures RecentRecordsSpec(c, data, requested).value[i].startedAt
         <= RecentRecordsSpec(c, data, requested).value[j].startedAt
  {
    var records := RecentRecordsSpec(c, data, requested).value;
    var all := Chronicle(encode, records);
    var k := |all| - n + b;
    assert LastOf(all, n)[b] == all[k];
    var i', p', j', q' := ChronicleFollowsRecords(encode, records, a, k);
    RecentTracesDiffer(c, data, requested);
    MadeFromOneRecord(encode, records, all[a], i, p, i', p');
    MadeFromOneRecord(encode, records, all[k], j, q, j', q');
    ReadersReturnOldestFirst(c, data, requested);
    assert i < j ==> StartedBefore(records[i], records[j]);
  }

  // ---------- what a document tells ----------

  /** Two entries are equal exactly when trigger, target and operation are, and observations, arguments and
      result agree in everything that may be shown. */
  lemma EntryIsThePublicRecord(t: CycleTrace, r: ProposalRecord, u: CycleTrace, s: ProposalRecord)
    ensures EntryOf(t, r) == EntryOf(u, s) <==>
      t.trigger == u.trigger && t.target == u.target && r.proposal.operation == s.proposal.operation
      && SamePublicPart(JObject(t.observations), JObject(u.observations), {})
      && SamePublicPart(JObject(r.result), JObject(s.result), {})
      && (r.proposal.args.Some? <==> s.proposal.args.Some?)
      && (r.proposal.args.Some? && s.proposal.args.Some? ==>
            SamePublicPart(JObject(r.proposal.args.value), JObject(s.proposal.args.value), {}))
  {
    SameMaps(t.observations, u.observations);
    SameMaps(r.result, s.result);
    if r.proposal.args.Some? && s.proposal.args.Some? {
      SameMaps(r.proposal.args.value, s.proposal.args.value);
    }
  }

  lemma SameMaps(a: JsonMap, b: JsonMap)
    ensures SanitizeMapSpec(a, []) == SanitizeMapSpec(b, []) <==> SamePublicPart(JObject(a), JObject(b), {})
  {
    assert NormalizedSet([]) == {};
    OutputIsThePublicPart(JObject(a), JObject(b), {});
  }

  /** The entry of a redacted trace holds exactly what the trace holds. */
  lemma EntryOfRedacted(t: CycleTrace, p: nat)
    requires Redacted(t) && p < |t.proposals|
    ensures EntryOf(t, t.proposals[p]) ==
      Entry(t.trigger, t.target, t.observations, t.proposals[p].proposal.operation, t.proposals[p].proposal.args,
            t.proposals[p].result)
  {
    assert SafeRecord(t.proposals[p]) == t.proposals[p];
  }

  /** A proposal becomes a document exactly when its cycle ended verified with an id, the proposal itself
      is recorded as verified in outcome and flag, and its entry can be encoded. */
  lemma DocumentExactlyWhen(encode: EntryEncoder, t: CycleTrace, p: nat, d: Document)
    requires p < |t.proposals|
    ensures DocumentOf(encode, t, p) == Some(d) <==>
      t.result == CycleVerified && t.id != ""
      && t.proposals[p].outcome == Verified && t.proposals[p].verified == Some(true)
      && encode(EntryOf(t, t.proposals[p])).Some?
      && d == Document("history-" + t.id + "-" + Decimal(p), "verified_history",
                       Truncated(encode(EntryOf(t, t.proposals[p])).value, 65536))
  {
  }

  /** The entry encodes the request, the operation, and the redacted observations, arguments and result. */
  ghost predicate EntryTells(cfg: RunnerConfig, req: CycleRequest, a: CycleAnswers, entry: Entry)
    requires a.observe.Some? && Confirmed(cfg, a)
  {
    var p := a.plan.value[0];
    entry.trigger == req.trigger && entry.target == req.target && entry.operation == p.operation
    && RedactedCopy(JObject(a.observe.value), JObject(entry.observations), [])
    && RedactedCopy(JObject(a.proposal(0).execute.value), JObject(entry.result), [])
    && (entry.arguments.Some? <==> p.args.Some?)
    && (entry.arguments.Some? ==>
          RedactedCopy(JObject(p.args.value), JObject(entry.arguments.value), cfg.registry[p.operation].sensitiveArgs))
  }

  lemma SnapshotTellsTheEntry(cfg: RunnerConfig, req: CycleRequest, a: CycleAnswers, t: CycleTrace, r: ProposalRecord)
    requires a.newID.Some? && a.observe.Some? && Confirmed(cfg, a)
    requires TellsTheCycle(cfg, req, a, t) && TellsTheProposal(cfg, a.proposal(0), a.plan.value[0], r)
    ensures EntryTells(cfg, req, a,
              Entry(t.trigger, t.target, t.observations, r.proposal.operation, r.proposal.args, r.result))
  {
  }

  /** The whole way from a cycle to the history: when an undisturbed cycle executed its one proposal and the
      verifier confirmed it, its last snapshot yields exactly one document, under the id of the cycle, and
      the document's text encodes what was asked, seen, done and answered, redacted. */
  lemma VerifiedCycleBecomesHistory(cfg: RunnerConfig, req: CycleRequest, a: CycleAnswers, encode: EntryEncoder)
    returns (s: CycleTrace, entry: Entry)
    requires Complete(cfg) && Undisturbed(cfg, req, a) && Confirmed(cfg, a) && a.newID.value != ""
    ensures EndsIn(LogOf(RunCycle(cfg, req, a)), s)
    ensures EntryTells(cfg, req, a, entry)
    ensures encode(entry).Some? ==>
      OfTrace(encode, s, 0) ==
        [Document("history-" + a.newID.value + "-" + "0", "verified_history", Truncated(encode(entry).value, 65536))]
  {
    var log := LogOf(RunCycle(cfg, req, a));
    var t, r := ConfirmedCycle(cfg, req, a);
    s := FinishedTrace(a, t, r, CycleVerified);
    LogIsJustified(cfg, req, a, log);
    entry := LastSnapshotTells(cfg, log, s, encode);
    SnapshotTellsTheEntry(cfg, req, a, t, r);
  }

  /** What the last snapshot of a log with one verified proposal yields. */
  lemma LastSnapshotTells(cfg: RunnerConfig, log: seq<Event>, s: CycleTrace, encode: EntryEncoder)
    returns (entry: Entry)
    requires History(cfg, log) && EndsIn(log, s)
    requires |s.proposals| == 1 && s.result == CycleVerified && s.id != ""
    requires s.proposals[0].outcome == Verified && s.proposals[0].verified == Some(true)
    ensures entry == Entry(s.trigger, s.target, s.observations, s.proposals[0].proposal.operation,
                           s.proposals[0].proposal.args, s.proposals[0].result)
    ensures encode(entry).Some? ==>
      OfTrace(encode, s, 0) ==
        [Document("history-" + s.id + "-" + "0", "verified_history", Truncated(encode(entry).value, 65536))]
  {
    JournalWritesSnapshotsUnchanged(cfg, log, |log| - 1);
    SafeCopyOfRedacted(s);
    EntryOfRedacted(s, 0);
    entry := EntryOf(s, s.proposals[0]);
    assert Decimal(0) == "0";
    assert OfTrace(encode, s, 1) == [];
    var d := DocumentOf(encode, s, 0);
    assert d.Some? ==> OfTrace(encode, s, 0) == [d.value];
  }

  /** The index is built over the whole corpus followed by as much of the newest history as fits: at most
      1000 documents, and at most 10000 in all. */
  lemma CombinedHoldsTheNewest(encode: EntryEncoder, corpus: seq<Document>, records: seq<CycleTrace>)
    requires |corpus| <= MAX_DOCUMENTS
    ensures var all, combined := Chronicle(encode, records), Combined(encode, corpus, records);
      var n := Min(Min(1000, 10000 - |corpus|), |all|);
      combined == corpus + all[|all| - n..]
  {
  }
}
