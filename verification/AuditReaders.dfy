/**
 The two readers of the audit journal (agent/audit_file.go): the full scan that keeps the latest
 snapshot of every cycle, and the bounded scan that walks the end of the file backwards.
 */
module AuditReaders {
  import opened Wrappers
  import opened JournalText
  import opened Trace
  import opened Lists
  import opened Sorting

  const MAX_AUDIT_RECORD_BYTES: nat := 1048576
  const MAX_RECENT_AUDIT_RECORDS: nat := 10000
  const MAX_RECENT_AUDIT_BYTES: nat := 32 * 1024 * 1024

  /** JSON as the journal uses it. */
  datatype Codec = Codec(encode: CycleTrace -> seq<byte>, decode: seq<byte> -> Option<CycleTrace>)

  function DropCarriageReturn(l: seq<byte>): seq<byte> {
    if l != [] && l[|l| - 1] == CARRIAGE_RETURN then l[..|l| - 1] else l
  }

  /** What is assumed of JSON: decoding inverts encoding, an encoding holds no control byte, nothing is
      not a value, and white space after a value changes nothing. */
  ghost predicate ValidCodec(c: Codec) {
    (forall t :: c.decode(c.encode(t)) == Some(t))
    && (forall t :: forall k | 0 <= k < |c.encode(t)| :: c.encode(t)[k] >= 32)
    && (forall l {:trigger DropCarriageReturn(l)} :: c.decode(DropCarriageReturn(l)) == c.decode(l))
    && c.decode([]) == None
  }

  // ---------- the order of the records ----------

  predicate TraceLess(a: CycleTrace, b: CycleTrace) {
    if a.startedAt == b.startedAt then StringLess(a.id, b.id) else a.startedAt < b.startedAt
  }

  lemma TraceOrder()
    ensures StrictOrder(TraceLess)
  {
    StringOrder();
  }

  ghost predicate DistinctIds(s: set<CycleTrace>) {
    forall a, b | a in s && b in s && a.id == b.id :: a == b
  }

  lemma DistinctIdsAreComparable(s: set<CycleTrace>)
    requires DistinctIds(s)
    ensures Comparable(TraceLess, s)
  {
    forall a, b | a in s && b in s && a != b ensures TraceLess(a, b) || TraceLess(b, a) {
      assert a.id != b.id;
      StringLessConnected(a.id, b.id);
    }
  }

  /** Snapshots filed under their own ids. */
  ghost predicate Filed(m: map<string, CycleTrace>) {
    forall id | id in m :: m[id].id == id
  }

  /** The snapshots of a map in the order both readers return them. */
  ghost function InOrder(m: map<string, CycleTrace>): (r: seq<CycleTrace>)
    requires Filed(m)
    ensures Sorted(TraceLess, r)
    ensures forall t :: t in r <==> t in m.Values
  {
    TraceOrder();
    DistinctIdsAreComparable(m.Values);
    var r := SortedSet(TraceLess, m.Values);
    assert forall t :: t in r <==> t in Elements(r);
    r
  }

  lemma InOrderIsUnique(m: map<string, CycleTrace>, r: seq<CycleTrace>)
    requires Filed(m) && Sorted(TraceLess, r) && Elements(r) == m.Values
    ensures r == InOrder(m)
  {
    TraceOrder();
    DistinctIdsAreComparable(m.Values);
    SortedListIsSortedSet(TraceLess, r, m.Values);
  }

  // ---------- the full reader ----------

  /** What the line scanner yields: the lines, then the tail if there is one. */
  function RawTokens(data: seq<byte>): seq<seq<byte>> {
    Lines(data) + (if EndsWhole(data) then [] else [Tail(data)])
  }

  function DecodeToken(c: Codec, token: seq<byte>): Option<CycleTrace> {
    var t := c.decode(DropCarriageReturn(token));
    if t.Some? && t.value.id != "" then t else None
  }

  /** A token the scanner's buffer holds (record plus newline) and the decoder accepts. */
  predicate Readable(c: Codec, token: seq<byte>) {
    |token| + 1 <= MAX_AUDIT_RECORD_BYTES + 1 && DecodeToken(c, token).Some?
  }

  predicate AllReadable(c: Codec, tokens: seq<seq<byte>>) {
    forall i | 0 <= i < |tokens| :: Readable(c, tokens[i])
  }

  function Decoded(c: Codec, tokens: seq<seq<byte>>): (ts: seq<CycleTrace>)
    requires AllReadable(c, tokens)
    ensures |ts| == |tokens|
    ensures forall i | 0 <= i < |ts| :: ts[i].id != "" && Some(ts[i]) == DecodeToken(c, tokens[i])
  {
    seq(|tokens|, i requires 0 <= i < |tokens| => DecodeToken(c, tokens[i]).value)
  }

  /** The last snapshot of every id. */
  function Latest(ts: seq<CycleTrace>): (m: map<string, CycleTrace>)
    ensures Filed(m)
  {
    if ts == [] then map[]
    else
      var n := |ts| - 1;
      Latest(ts[..n])[ts[n].id := ts[n]]
  }

  ghost function RecordsSpec(c: Codec, data: seq<byte>): Option<seq<CycleTrace>> {
    if AllReadable(c, RawTokens(data)) then Some(InOrder(Latest(Decoded(c, RawTokens(data))))) else None
  }

  method ReadRecords(c: Codec, data: seq<byte>) returns (r: Option<seq<CycleTrace>>)
    ensures r == RecordsSpec(c, data)
  {
    var tokens := RawTokens(data);
    var latest: map<string, CycleTrace> := map[];
    for i := 0 to |tokens|
      invariant AllReadable(c, tokens[..i])
      invariant latest == Latest(Decoded(c, tokens[..i]))
    {
      if !Readable(c, tokens[i]) {
        return None;
      }
      var trace := DecodeToken(c, tokens[i]).value;
      ghost var before, after := Decoded(c, tokens[..i]), Decoded(c, tokens[..i + 1]);
      assert after[..i] == before;
      latest := latest[trace.id := trace];
    }
    assert tokens[..|tokens|] == tokens;
    var sorted := SortedValues(latest);
    r := Some(sorted);
  }

  method SortedValues(latest: map<string, CycleTrace>) returns (records: seq<CycleTrace>)
    requires Filed(latest)
    ensures records == InOrder(latest)
  {
    records := [];
    var rest := latest.Keys;
    while rest != {}
      invariant rest <= latest.Keys
      invariant Distinct(records)
      invariant forall t :: t in records <==> exists id | id in latest && id !in rest :: latest[id] == t
      decreases rest
    {
      var id :| id in rest;
      NewElement(records, latest[id]);
      records := records + [latest[id]];
      rest := rest - {id};
    }
    assert Elements(records) == latest.Values;
    records := SortFound(records, latest);
  }

  lemma NewElement<T>(s: seq<T>, x: T)
    requires Distinct(s) && x !in s
    ensures Distinct(s + [x])
  {
  }

  // ---------- the bounded reader ----------

  /** Where the whole lines of the last 32 MiB start; None when that window holds no line end. */
  function WindowStart(data: seq<byte>): (start: Option<nat>)
    ensures start.Some? ==> start.value <= |data|
    ensures start.Some? && start.value > 0 ==> data[start.value - 1] == NEWLINE
  {
    if |data| <= MAX_RECENT_AUDIT_BYTES then Some(0)
    else
      var offset := |data| - MAX_RECENT_AUDIT_BYTES;
      var first := FirstNewline(data[offset..]);
      if first == |data| - offset then None else Some(offset + first + 1)
  }

  function Split(data: seq<byte>): seq<seq<byte>> {
    Lines(data) + [Tail(data)]
  }

  /** The backward walk over segments: a segment is looked at only while fewer than limit ids are found. */
  function ScanBack(c: Codec, segments: seq<seq<byte>>, limit: nat): (m: Option<map<string, CycleTrace>>)
    ensures m.Some? ==> Filed(m.value)
  {
    if segments == [] then Some(map[])
    else
      var later := ScanBack(c, segments[1..], limit);
      if later.None? || |later.value| >= limit || segments[0] == [] then later
      else
        var t := c.decode(segments[0]);
        if t.None? || t.value.id == "" then None
        else if t.value.id in later.value then later
        else Some(later.value[t.value.id := t.value])
  }

  function EffectiveLimit(limit: int): nat {
    if limit <= 0 || limit > MAX_RECENT_AUDIT_RECORDS then MAX_RECENT_AUDIT_RECORDS else limit
  }

  function RecentMap(c: Codec, data: seq<byte>, limit: int): (m: Option<map<string, CycleTrace>>)
    ensures m.Some? ==> Filed(m.value)
  {
    var start := WindowStart(data);
    if data == [] || start.None? then Some(map[])
    else ScanBack(c, Split(data[start.value..]), EffectiveLimit(limit))
  }

  ghost function RecentRecordsSpec(c: Codec, data: seq<byte>, limit: int): Option<seq<CycleTrace>> {
    var m := RecentMap(c, data, limit);
    if m.None? then None else Some(InOrder(m.value))
  }

  method ReadRecentRecords(c: Codec, data: seq<byte>, requested: int) returns (r: Option<seq<CycleTrace>>)
    ensures r == RecentRecordsSpec(c, data, requested)
  {
    var limit := requested;
    if limit <= 0 || limit > MAX_RECENT_AUDIT_RECORDS {
      limit := MAX_RECENT_AUDIT_RECORDS;
    }
    var window := ReadWindow(data);
    if window.None? {
      var none := NothingRecent();
      return Some(none);
    }
    r := WalkBack(c, Split(window.value), limit);
  }

  /** The whole lines of the last 32 MiB, or nothing when the file is empty or the window holds no line end. */
  method ReadWindow(data: seq<byte>) returns (w: Option<seq<byte>>)
    ensures w == if data == [] || WindowStart(data).None? then None else Some(data[WindowStart(data).value..])
  {
    var readSize := if |data| < MAX_RECENT_AUDIT_BYTES then |data| else MAX_RECENT_AUDIT_BYTES;
    if readSize == 0 {
      return None;
    }
    var offset := |data| - readSize;
    var window := data[offset..];
    if offset > 0 {
      var firstNewline := FirstNewline(window);
      if firstNewline == |window| {
        return None;
      }
      assert window[firstNewline + 1..] == data[offset + firstNewline + 1..];
      window := window[firstNewline + 1..];
    }
    w := Some(window);
  }

  method WalkBack(c: Codec, lines: seq<seq<byte>>, limit: nat) returns (r: Option<seq<CycleTrace>>)
    ensures var m := ScanBack(c, lines, limit); r == if m.None? then None else Some(InOrder(m.value))
  {
    var seen: map<string, CycleTrace> := map[];
    var records: seq<CycleTrace> := [];
    var i := |lines| - 1;
    while i >= 0 && |records| < limit
      invariant -1 <= i < |lines|
      invariant Some(seen) == ScanBack(c, lines[i + 1..], limit)
      invariant Listed(records, seen)
    {
      ScanOneMore(c, lines, limit, i);
      if lines[i] != [] {
        var t := c.decode(lines[i]);
        if t.None? || t.value.id == "" {
          StuckScan(c, lines, limit, i);
          return None;
        }
        if t.value.id !in seen {
          AddDistinct(records, seen, t.value);
          seen := seen[t.value.id := t.value];
          records := records + [t.value];
        }
      }
      i := i - 1;
    }
    SkippedScan(c, lines, limit, i + 1);
    records := SortFound(records, seen);
    r := Some(records);
  }

  lemma ScanOneMore(c: Codec, segments: seq<seq<byte>>, limit: nat, i: nat)
    requires i < |segments|
    requires var later := ScanBack(c, segments[i + 1..], limit); later.Some? && |later.value| < limit
    ensures var later := ScanBack(c, segments[i + 1..], limit);
      var t := c.decode(segments[i]);
      ScanBack(c, segments[i..], limit) ==
        if segments[i] == [] then later
        else if t.None? || t.value.id == "" then None
        else if t.value.id in later.value then later
        else Some(later.value[t.value.id := t.value])
  {
    assert segments[i..][0] == segments[i] && segments[i..][1..] == segments[i + 1..];
  }

  /** A list without repetition of exactly the snapshots of a map. */
  ghost predicate Listed(records: seq<CycleTrace>, seen: map<string, CycleTrace>) {
    |records| == |seen| && Distinct(records) && Elements(records) == seen.Values
  }

  method SortFound(found: seq<CycleTrace>, seen: map<string, CycleTrace>) returns (records: seq<CycleTrace>)
    requires Filed(seen) && Distinct(found) && Elements(found) == seen.Values
    ensures records == InOrder(seen)
  {
    TraceOrder();
    DistinctIdsAreComparable(seen.Values);
    records := SortSlice(TraceLess, found);
    InOrderIsUnique(seen, records);
  }

  method NothingRecent() returns (r: seq<CycleTrace>)
    ensures r == InOrder(map[])
  {
    r := [];
    InOrderIsUnique(map[], r);
  }

  lemma AddDistinct(records: seq<CycleTrace>, seen: map<string, CycleTrace>, t: CycleTrace)
    requires Filed(seen) && t.id !in seen && Listed(records, seen)
    ensures Listed(records + [t], seen[t.id := t])
  {
    assert t !in seen.Values;
    assert forall x :: x in records <==> x in Elements(records);
    NewElement(records, t);
    ValuesOfUpdate(seen, t.id, t);
    SizeOfUpdate(seen, t.id, t);
    assert Elements(records + [t]) == Elements(records) + {t};
  }

  lemma ValuesOfUpdate<K, V>(m: map<K, V>, k: K, v: V)
    requires k !in m
    ensures m[k := v].Values == m.Values + {v}
  {
    var more := m[k := v];
    assert more[k] == v;
    forall x | x in m.Values ensures x in more.Values {
      var j :| j in m && m[j] == x;
      assert more[j] == x;
    }
  }

  lemma SizeOfUpdate<K, V>(m: map<K, V>, k: K, v: V)
    requires k !in m
    ensures |m[k := v]| == |m| + 1
  {
    assert m[k := v].Keys == m.Keys + {k};
    assert |m[k := v]| == |m[k := v].Keys| && |m| == |m.Keys|;
  }

  /** Once the walk has failed, or has its limit, earlier segments change nothing. */
  lemma {:induction false} StuckScan(c: Codec, segments: seq<seq<byte>>, limit: nat, i: nat)
    requires i <= |segments| && ScanBack(c, segments[i..], limit).None?
    ensures ScanBack(c, segments, limit).None?
    decreases i
  {
    if i > 0 {
      assert segments[i - 1..][1..] == segments[i..];
      StuckScan(c, segments, limit, i - 1);
    }
  }

  lemma {:induction false} SkippedScan(c: Codec, segments: seq<seq<byte>>, limit: nat, i: nat)
    requires i <= |segments|
    requires var m := ScanBack(c, segments[i..], limit); m.Some? && (i == 0 || |m.value| >= limit)
    ensures ScanBack(c, segments, limit) == ScanBack(c, segments[i..], limit)
    decreases i
  {
    if i > 0 {
      assert segments[i - 1..][1..] == segments[i..];
      SkippedScan(c, segments, limit, i - 1);
    } else {
      assert segments[0..] == segments;
    }
  }

  // ---------- the bounded reader refines the full one ----------

  /** The snapshots in the window, in file order. */
  function WindowTokens(data: seq<byte>): seq<seq<byte>> {
    var start := WindowStart(data);
    if start.None? then [] else RawTokens(data[start.value..])
  }

  /** Ids met walking back from the newest snapshot until limit distinct ones are found. */
  function RecentIds(ts: seq<CycleTrace>, limit: nat): set<string> {
    if ts == [] then {}
    else
      var later := RecentIds(ts[1..], limit);
      if |later| >= limit then later else later + {ts[0].id}
  }

  function Ids(ts: seq<CycleTrace>): set<string> {
    set i | 0 <= i < |ts| :: ts[i].id
  }

  /** The window's tokens are the last tokens of the journal, wherever the window cut the file. */
  lemma WindowIsASuffix(data: seq<byte>)
    ensures |WindowTokens(data)| <= |RawTokens(data)|
    ensures WindowTokens(data) == RawTokens(data)[|RawTokens(data)| - |WindowTokens(data)|..]
  {
    var start := WindowStart(data);
    if start.Some? {
      var front, window := data[..start.value], data[start.value..];
      TokensAppend(front, window);
      assert data == front + window;
      SuffixOfSum(Lines(front), RawTokens(window));
    } else {
      SuffixOfSum(RawTokens(data), []);
    }
  }

  lemma SuffixOfSum<T>(a: seq<T>, b: seq<T>)
    ensures (a + b)[|a + b| - |b|..] == b
  {
  }

  lemma TokensAppend(front: seq<byte>, rest: seq<byte>)
    requires EndsWhole(front)
    ensures RawTokens(front + rest) == Lines(front) + RawTokens(rest)
  {
    LinesBefore(front, rest);
    TailBehindWhole(front, rest);
    AppendAssociates(Lines(front), Lines(rest), if EndsWhole(rest) then [] else [Tail(rest)]);
  }

  /** Tokens both readers decode alike. */
  ghost predicate Plain(c: Codec, tokens: seq<seq<byte>>) {
    forall i | 0 <= i < |tokens| :: tokens[i] != [] && c.decode(tokens[i]) == DecodeToken(c, tokens[i])
  }

  lemma ReadableTokensArePlain(c: Codec, tokens: seq<seq<byte>>)
    requires ValidCodec(c) && AllReadable(c, tokens)
    ensures Plain(c, tokens)
  {
    forall i | 0 <= i < |tokens|
      ensures tokens[i] != [] && c.decode(tokens[i]) == DecodeToken(c, tokens[i])
    {
      assert Readable(c, tokens[i]);
      assert c.decode(DropCarriageReturn(tokens[i])) == c.decode(tokens[i]);
    }
  }

  lemma {:induction false} ScanBackFindsRecentIds(c: Codec, tokens: seq<seq<byte>>, limit: nat)
    requires Plain(c, tokens) && AllReadable(c, tokens)
    ensures var m := ScanBack(c, tokens, limit);
      m.Some? && m.value.Keys == RecentIds(Decoded(c, tokens), limit)
      && forall id | id in m.value :: id in Latest(Decoded(c, tokens)) && m.value[id] == Latest(Decoded(c, tokens))[id]
  {
    if tokens != [] {
      var rest := tokens[1..];
      assert forall i | 0 <= i < |rest| :: rest[i] == tokens[i + 1];
      ScanBackFindsRecentIds(c, rest, limit);
      var ts := Decoded(c, tokens);
      assert ts[1..] == Decoded(c, rest);
      LatestCons(ts);
      assert ScanBack(c, rest, limit).Some? ==>
          |ScanBack(c, rest, limit).value| == |ScanBack(c, rest, limit).value.Keys|;
      if |RecentIds(ts[1..], limit)| < limit {
        RecentIdsBelowLimit(ts[1..], limit);
        LatestKeysAreIds(ts[1..]);
      }
      ScanStep(c, tokens, ts, limit);
    }
  }

  lemma ScanStep(c: Codec, tokens: seq<seq<byte>>, ts: seq<CycleTrace>, limit: nat)
    requires tokens != [] && tokens[0] != [] && |ts| == |tokens|
    requires ts[0].id != "" && c.decode(tokens[0]) == Some(ts[0])
    requires var m := ScanBack(c, tokens[1..], limit);
      m.Some? && m.value.Keys == RecentIds(ts[1..], limit) && |m.value| == |m.value.Keys|
      && forall id | id in m.value :: id in Latest(ts[1..]) && m.value[id] == Latest(ts[1..])[id]
    requires |RecentIds(ts[1..], limit)| < limit ==> RecentIds(ts[1..], limit) == Latest(ts[1..]).Keys
    requires Latest(ts) ==
      if ts[0].id in Latest(ts[1..]) then Latest(ts[1..]) else Latest(ts[1..])[ts[0].id := ts[0]]
    ensures var m := ScanBack(c, tokens, limit);
      m.Some? && m.value.Keys == RecentIds(ts, limit)
      && forall id | id in m.value :: id in Latest(ts) && m.value[id] == Latest(ts)[id]
  {
    var rest := ScanBack(c, tokens[1..], limit).value;
    var full := |rest| >= limit;
    OneTraceMore(rest, Latest(ts[1..]), ts[0], full);
    ScanOne(c, tokens, limit, ts[0]);
  }

  /** What the walk makes of one more readable segment. */
  lemma ScanOne(c: Codec, tokens: seq<seq<byte>>, limit: nat, t: CycleTrace)
    requires tokens != [] && tokens[0] != [] && t.id != "" && c.decode(tokens[0]) == Some(t)
    requires ScanBack(c, tokens[1..], limit).Some?
    ensures var rest := ScanBack(c, tokens[1..], limit).value;
      ScanBack(c, tokens, limit) == Some(if |rest| >= limit || t.id in rest then rest else rest[t.id := t])
  {
  }

  /** A first snapshot joins what was found behind it, unless that is enough or bears its id. */
  lemma OneTraceMore(rest: map<string, CycleTrace>, later: map<string, CycleTrace>, t: CycleTrace, full: bool)
    requires forall id | id in rest :: id in later && rest[id] == later[id]
    requires !full ==> rest.Keys == later.Keys
    ensures var next := if full || t.id in rest then rest else rest[t.id := t];
      var all := if t.id in later then later else later[t.id := t];
      next.Keys == (if full then rest.Keys else rest.Keys + {t.id})
      && forall id | id in next :: id in all && next[id] == all[id]
  {
  }

  /** Entry p is the last one with its id. */
  predicate LastWithId(ts: seq<CycleTrace>, p: nat) {
    p < |ts| && forall q | p < q < |ts| :: ts[q].id != ts[p].id
  }

  /** The latest snapshot of an id is the last one written, at k or later when k bears the id. */
  lemma {:induction false} LatestIsLast(ts: seq<CycleTrace>, k: nat) returns (p: nat)
    requires k < |ts|
    ensures k <= p && LastWithId(ts, p) && ts[p].id == ts[k].id
    ensures ts[k].id in Latest(ts) && Latest(ts)[ts[k].id] == ts[p]
    decreases |ts|
  {
    var n := |ts| - 1;
    if ts[n].id == ts[k].id {
      p := n;
    } else {
      assert ts[..n][k] == ts[k];
      p := LatestIsLast(ts[..n], k);
      assert forall q | 0 <= q < n :: ts[..n][q] == ts[q];
    }
  }

  /** A later part of the journal decides the latest snapshot of the ids it mentions. */
  lemma {:induction false} LatestOfSuffix(ts: seq<CycleTrace>, k: nat)
    requires k <= |ts|
    ensures forall id | id in Latest(ts[k..]) :: id in Latest(ts) && Latest(ts)[id] == Latest(ts[k..])[id]
    decreases |ts|
  {
    if k < |ts| {
      var n := |ts| - 1;
      assert ts[k..][..n - k] == ts[..n][k..];
      assert ts[k..][n - k] == ts[n];
      LatestOfSuffix(ts[..n], k);
      assert Latest(ts[k..]) == Latest(ts[..n][k..])[ts[n].id := ts[n]];
    }
  }

  /** A first snapshot counts only when nothing later bears its id. */
  lemma {:induction false} LatestCons(ts: seq<CycleTrace>)
    requires ts != []
    ensures Latest(ts) ==
      if ts[0].id in Latest(ts[1..]) then Latest(ts[1..]) else Latest(ts[1..])[ts[0].id := ts[0]]
    decreases |ts|
  {
    var n := |ts| - 1;
    if n == 0 {
      assert ts[..0] == [] && ts[1..] == [];
    } else {
      assert ts[..n][1..] == ts[1..][..n - 1];
      assert ts[1..][n - 1] == ts[n];
      LatestCons(ts[..n]);
    }
  }

  lemma {:induction false} RecentIdsBelowLimit(ts: seq<CycleTrace>, limit: nat)
    requires |RecentIds(ts, limit)| < limit
    ensures RecentIds(ts, limit) == Ids(ts)
  {
    if ts != [] {
      var later := RecentIds(ts[1..], limit);
      assert later <= RecentIds(ts, limit);
      Subset(later, RecentIds(ts, limit));
      RecentIdsBelowLimit(ts[1..], limit);
      IdsCons(ts);
    }
  }

  lemma IdsCons(ts: seq<CycleTrace>)
    requires ts != []
    ensures Ids(ts) == Ids(ts[1..]) + {ts[0].id}
  {
    forall i | 0 <= i < |ts| ensures ts[i].id in Ids(ts[1..]) + {ts[0].id} {
      if i > 0 {
        assert ts[1..][i - 1] == ts[i];
      }
    }
    forall i | 0 <= i < |ts| - 1 ensures ts[1..][i].id in Ids(ts) {
      assert ts[1..][i] == ts[i + 1];
    }
  }

  /** An id is found exactly when fewer than limit distinct ids were checkpointed after its own last snapshot. */
  lemma {:induction false} RecentIdsAreTheNewest(ts: seq<CycleTrace>, limit: nat, id: string)
    ensures id in RecentIds(ts, limit) <==>
      exists p | 0 <= p < |ts| :: ts[p].id == id && id !in Ids(ts[p + 1..]) && |Ids(ts[p + 1..])| < limit
  {
    if ts != [] {
      var rest := ts[1..];
      var later := RecentIds(rest, limit);
      RecentIdsAreTheNewest(rest, limit, id);
      forall p | 0 <= p < |rest| ensures rest[p] == ts[p + 1] && rest[p + 1..] == ts[p + 2..] {}
      assert ts[0 + 1..] == rest;
      if |later| < limit {
        RecentIdsBelowLimit(rest, limit);
        if id in later {
          var p :| 0 <= p < |rest| && rest[p].id == id && id !in Ids(rest[p + 1..]) && |Ids(rest[p + 1..])| < limit;
          assert ts[p + 1].id == id && ts[p + 1 + 1..] == rest[p + 1..];
        } else if id == ts[0].id {
          assert id !in Ids(ts[0 + 1..]);
        }
      } else {
        RecentIdsWithinIds(rest, limit);
        Subset(later, Ids(rest));
        if id in later {
          var p :| 0 <= p < |rest| && rest[p].id == id && id !in Ids(rest[p + 1..]) && |Ids(rest[p + 1..])| < limit;
          assert ts[p + 1].id == id && ts[p + 1 + 1..] == rest[p + 1..];
        }
      }
      if q: int :| 0 <= q < |ts| && ts[q].id == id && id !in Ids(ts[q + 1..]) && |Ids(ts[q + 1..])| < limit {
        if q > 0 {
          assert rest[q - 1].id == id && rest[q - 1 + 1..] == ts[q + 1..];
        }
      }
    }
  }

  lemma {:induction false} RecentIdsWithinIds(ts: seq<CycleTrace>, limit: nat)
    ensures RecentIds(ts, limit) <= Ids(ts)
  {
    if ts != [] {
      RecentIdsWithinIds(ts[1..], limit);
      IdsCons(ts);
    }
  }

  lemma {:induction false} ScanBackSkipsEmpty(c: Codec, segments: seq<seq<byte>>, limit: nat)
    ensures ScanBack(c, segments + [[]], limit) == ScanBack(c, segments, limit)
  {
    if segments == [] {
      assert segments + [[]] == [[]];
      assert ScanBack(c, [[]][1..], limit) == Some(map[]);
    } else {
      assert (segments + [[]])[1..] == segments[1..] + [[]];
      ScanBackSkipsEmpty(c, segments[1..], limit);
    }
  }

  lemma SuffixDecodes(c: Codec, all: seq<seq<byte>>, k: nat)
    requires k <= |all| && AllReadable(c, all)
    ensures AllReadable(c, all[k..]) && Decoded(c, all)[k..] == Decoded(c, all[k..])
  {
    var w := all[k..];
    assert forall i | 0 <= i < |w| :: w[i] == all[k + i];
  }

  /** The newest ids of a window, each with its latest snapshot in the whole journal. */
  ghost predicate NewestOf(m: Option<map<string, CycleTrace>>, window: seq<CycleTrace>, all: seq<CycleTrace>,
                           limit: nat)
  {
    m.Some?
    && m.value.Keys == RecentIds(window, limit)
    && forall id | id in m.value :: id in Latest(all) && m.value[id] == Latest(all)[id]
  }

  /** Whenever the full reader accepts the journal, the bounded one succeeds: it returns, for the newest
      ids of its window, exactly the snapshots the full reader holds for them. */
  lemma RecentRefinesRecords(c: Codec, data: seq<byte>, limit: int)
    requires ValidCodec(c) && AllReadable(c, RawTokens(data))
    ensures AllReadable(c, WindowTokens(data))
    ensures NewestOf(RecentMap(c, data, limit), Decoded(c, WindowTokens(data)), Decoded(c, RawTokens(data)),
      EffectiveLimit(limit))
  {
    WindowIsASuffix(data);
    RecentMapScansTheWindow(c, data, limit);
    ReadableSuffix(c, RawTokens(data), WindowTokens(data));
    ReadableTokensArePlain(c, WindowTokens(data));
    RefinesOnSuffix(c, RawTokens(data), WindowTokens(data), EffectiveLimit(limit));
  }

  /** Scanning the last tokens of a journal backwards finds what the whole journal says. */
  lemma RefinesOnSuffix(c: Codec, all: seq<seq<byte>>, window: seq<seq<byte>>, limit: nat)
    requires AllReadable(c, all) && AllReadable(c, window) && Plain(c, window)
    requires |window| <= |all| && Decoded(c, window) == Decoded(c, all)[|all| - |window|..]
    ensures NewestOf(ScanBack(c, window, limit), Decoded(c, window), Decoded(c, all), limit)
  {
    ScanBackFindsRecentIds(c, window, limit);
    NewestOnSuffix(ScanBack(c, window, limit), Decoded(c, window), Decoded(c, all), limit);
  }

  lemma NewestOnSuffix(m: Option<map<string, CycleTrace>>, window: seq<CycleTrace>, all: seq<CycleTrace>, limit: nat)
    requires m.Some? && m.value.Keys == RecentIds(window, limit)
    requires forall id | id in m.value :: id in Latest(window) && m.value[id] == Latest(window)[id]
    requires |window| <= |all| && window == all[|all| - |window|..]
    ensures NewestOf(m, window, all, limit)
  {
    AgreeOnSuffix(m.value, all, |all| - |window|);
  }

  lemma ReadableSuffix(c: Codec, all: seq<seq<byte>>, window: seq<seq<byte>>)
    requires AllReadable(c, all) && |window| <= |all| && window == all[|all| - |window|..]
    ensures AllReadable(c, window) && Decoded(c, window) == Decoded(c, all)[|all| - |window|..]
  {
    SuffixDecodes(c, all, |all| - |window|);
  }

  lemma AgreeOnSuffix(m: map<string, CycleTrace>, ts: seq<CycleTrace>, k: nat)
    requires k <= |ts|
    requires forall id | id in m :: id in Latest(ts[k..]) && m[id] == Latest(ts[k..])[id]
    ensures forall id | id in m :: id in Latest(ts) && m[id] == Latest(ts)[id]
  {
    LatestOfSuffix(ts, k);
  }

  lemma RecentMapScansTheWindow(c: Codec, data: seq<byte>, limit: int)
    ensures RecentMap(c, data, limit) == ScanBack(c, WindowTokens(data), EffectiveLimit(limit))
  {
    var start := WindowStart(data);
    if start.Some? {
      var window := data[start.value..];
      WholeTextHasNoTail(window);
      if EndsWhole(window) {
        ScanBackSkipsEmpty(c, Lines(window), EffectiveLimit(limit));
        assert Split(window) == Lines(window) + [[]];
        assert RawTokens(window) == Lines(window);
      }
    }
  }

  /** The two readers return the same list when the journal fits the window and its ids fit the limit. */
  lemma ReadersAgree(c: Codec, data: seq<byte>, limit: int)
    requires ValidCodec(c) && AllReadable(c, RawTokens(data))
    requires |data| <= MAX_RECENT_AUDIT_BYTES
    requires |Latest(Decoded(c, RawTokens(data)))| <= EffectiveLimit(limit)
    ensures RecentRecordsSpec(c, data, limit) == RecordsSpec(c, data)
  {
    RecentRefinesRecords(c, data, limit);
    assert data[0..] == data;
    var ts := Decoded(c, RawTokens(data));
    SameSnapshots(ts, RecentMap(c, data, limit).value, EffectiveLimit(limit));
  }

  lemma SameSnapshots(ts: seq<CycleTrace>, m: map<string, CycleTrace>, limit: nat)
    requires |Latest(ts)| <= limit && m.Keys == RecentIds(ts, limit)
    requires forall id | id in m :: id in Latest(ts) && m[id] == Latest(ts)[id]
    ensures m == Latest(ts)
  {
    LatestKeysAreIds(ts);
    assert |Latest(ts)| == |Latest(ts).Keys|;
    AllIdsFit(ts, limit);
  }

  lemma {:induction false} LatestKeysAreIds(ts: seq<CycleTrace>)
    ensures Latest(ts).Keys == Ids(ts)
  {
    if ts != [] {
      var n := |ts| - 1;
      LatestKeysAreIds(ts[..n]);
      assert forall i | 0 <= i < n :: ts[..n][i] == ts[i];
      assert Ids(ts) == Ids(ts[..n]) + {ts[n].id};
    }
  }

  lemma {:induction false} AllIdsFit(ts: seq<CycleTrace>, limit: nat)
    requires |Ids(ts)| <= limit
    ensures RecentIds(ts, limit) == Ids(ts)
  {
    if ts != [] {
      IdsCons(ts);
      Subset(Ids(ts[1..]), Ids(ts));
      AllIdsFit(ts[1..], limit);
      assert ts[0].id !in Ids(ts[1..]) ==> |Ids(ts)| == |Ids(ts[1..])| + 1;
    }
  }

  // ---------- the order both readers return ----------

  /** By start time; cycles that started together by id, at the first character that differs. */
  ghost predicate StartedBefore(a: CycleTrace, b: CycleTrace) {
    a.startedAt < b.startedAt
    || (a.startedAt == b.startedAt && exists k: nat :: FirstDifference(a.id, b.id, k))
  }

  lemma TracesAreInOrder(r: seq<CycleTrace>, i: nat, j: nat)
    requires Sorted(TraceLess, r) && i < j < |r|
    ensures StartedBefore(r[i], r[j])
  {
    assert TraceLess(r[i], r[j]);
    if r[i].startedAt == r[j].startedAt {
      var k := StringLessDiffers(r[i].id, r[j].id);
    }
  }

  /** Both readers return the cycles oldest first. */
  lemma ReadersReturnOldestFirst(c: Codec, data: seq<byte>, limit: int)
    ensures RecordsSpec(c, data).Some? ==>
      forall i, j | 0 <= i < j < |RecordsSpec(c, data).value| ::
        StartedBefore(RecordsSpec(c, data).value[i], RecordsSpec(c, data).value[j])
    ensures RecentRecordsSpec(c, data, limit).Some? ==>
      forall i, j | 0 <= i < j < |RecentRecordsSpec(c, data, limit).value| ::
        StartedBefore(RecentRecordsSpec(c, data, limit).value[i], RecentRecordsSpec(c, data, limit).value[j])
  {
    if RecordsSpec(c, data).Some? {
      var r := RecordsSpec(c, data).value;
      forall i, j | 0 <= i < j < |r| ensures StartedBefore(r[i], r[j]) { TracesAreInOrder(r, i, j); }
    }
    if RecentRecordsSpec(c, data, limit).Some? {
      var r := RecentRecordsSpec(c, data, limit).value;
      forall i, j | 0 <= i < j < |r| ensures StartedBefore(r[i], r[j]) { TracesAreInOrder(r, i, j); }
    }
  }

  // ---------- how much the bounded reader returns ----------

  /** As many ids as there are, up to the limit. */
  lemma {:induction false} RecentIdsFillTheLimit(ts: seq<CycleTrace>, limit: nat)
    ensures |RecentIds(ts, limit)| == Min(limit, |Ids(ts)|)
  {
    if ts == [] {
      assert Ids(ts) == {};
    } else {
      RecentIdsFillTheLimit(ts[1..], limit);
      IdsCons(ts);
      if |RecentIds(ts[1..], limit)| < limit {
        RecentIdsBelowLimit(ts[1..], limit);
      } else {
        Subset(Ids(ts[1..]), Ids(ts));
      }
    }
  }

  /** Records that fit behind a line end within less than 32 MiB all stand in the window. */
  lemma WindowHoldsWhatFits(data: seq<byte>, front: seq<byte>, rest: seq<byte>)
    requires data == front + rest && EndsWhole(front) && |rest| < MAX_RECENT_AUDIT_BYTES
    ensures |RawTokens(rest)| <= |WindowTokens(data)|
    ensures WindowTokens(data)[|WindowTokens(data)| - |RawTokens(rest)|..] == RawTokens(rest)
  {
    var start := WindowStart(data);
    if |data| > MAX_RECENT_AUDIT_BYTES {
      var offset := |data| - MAX_RECENT_AUDIT_BYTES;
      assert data[offset..][|front| - 1 - offset] == NEWLINE;
      assert start.Some? && start.value <= |front|;
    }
    var middle := front[start.value..];
    assert data[start.value..] == middle + rest;
    TokensAppend(middle, rest);
    SuffixOfSum(Lines(middle), RawTokens(rest));
  }

  // ---------- what the readers refuse ----------

  /** What the full reader stumbles over: a line of more than 1 MiB, one that is no record, or one without
      an id. */
  predicate Unreadable(c: Codec, token: seq<byte>) {
    |token| > 1048576 || c.decode(DropCarriageReturn(token)).None?
    || c.decode(DropCarriageReturn(token)).value.id == ""
  }

  lemma FullReaderRefusesExactlyWhen(c: Codec, data: seq<byte>)
    ensures RecordsSpec(c, data).None? <==>
      exists i | 0 <= i < |RawTokens(data)| :: Unreadable(c, RawTokens(data)[i])
  {
    forall i | 0 <= i < |RawTokens(data)|
      ensures Readable(c, RawTokens(data)[i]) <==> !Unreadable(c, RawTokens(data)[i])
    {
    }
  }

  /** Lines one behind the other, each closed by the same bytes. */
  function Closed(lines: seq<seq<byte>>, end: seq<byte>): seq<byte> {
    if lines == [] then [] else Closed(lines[..|lines| - 1], end) + (lines[|lines| - 1] + end)
  }

  lemma {:induction false} ClosedLines(lines: seq<seq<byte>>, before: seq<byte>, end: seq<byte>)
    requires NoNewline(before) && end == before + [NEWLINE]
    requires forall i | 0 <= i < |lines| :: NoNewline(lines[i])
    ensures EndsWhole(Closed(lines, end)) && |Lines(Closed(lines, end))| == |lines|
    ensures forall i | 0 <= i < |lines| :: Lines(Closed(lines, end))[i] == lines[i] + before
  {
    if lines != [] {
      var last := lines[|lines| - 1];
      ClosedLines(lines[..|lines| - 1], before, end);
      assert last + end == (last + before) + [NEWLINE];
      AppendRecord(Closed(lines[..|lines| - 1], end), last + before);
    }
  }

  lemma ReturnIsDropped(c: Codec, line: seq<byte>)
    requires |line| < 1048576 && (line != [] ==> line[|line| - 1] != CARRIAGE_RETURN)
    ensures Readable(c, line + [CARRIAGE_RETURN]) == Readable(c, line + [])
    ensures DecodeToken(c, line + [CARRIAGE_RETURN]) == DecodeToken(c, line + [])
  {
    assert (line + [CARRIAGE_RETURN])[..|line|] == line == line + [];
  }

  /** The full reader reads the same cycles from a journal whose lines end in a carriage return and a newline. */
  lemma CarriageReturnsAreIgnored(c: Codec, lines: seq<seq<byte>>)
    requires forall i | 0 <= i < |lines| :: NoNewline(lines[i]) && |lines[i]| < 1048576
    requires forall i | 0 <= i < |lines| :: lines[i] != [] ==> lines[i][|lines[i]| - 1] != CARRIAGE_RETURN
    ensures RecordsSpec(c, Closed(lines, [CARRIAGE_RETURN, NEWLINE])) == RecordsSpec(c, Closed(lines, [NEWLINE]))
  {
    ClosedLines(lines, [], [NEWLINE]);
    ClosedLines(lines, [CARRIAGE_RETURN], [CARRIAGE_RETURN, NEWLINE]);
    var plain, ended := Lines(Closed(lines, [NEWLINE])), Lines(Closed(lines, [CARRIAGE_RETURN, NEWLINE]));
    forall i | 0 <= i < |lines|
      ensures Readable(c, plain[i]) == Readable(c, ended[i]) && DecodeToken(c, plain[i]) == DecodeToken(c, ended[i])
    {
      ReturnIsDropped(c, lines[i]);
    }
    SameTokensReadTheSame(c, plain, ended);
    TokensOfWhole(Closed(lines, [NEWLINE]));
    TokensOfWhole(Closed(lines, [CARRIAGE_RETURN, NEWLINE]));
  }

  lemma TokensOfWhole(data: seq<byte>)
    requires EndsWhole(data)
    ensures RawTokens(data) == Lines(data)
  {
  }

  lemma SameTokensReadTheSame(c: Codec, a: seq<seq<byte>>, b: seq<seq<byte>>)
    requires |a| == |b|
    requires forall i | 0 <= i < |a| ::
      Readable(c, a[i]) == Readable(c, b[i]) && DecodeToken(c, a[i]) == DecodeToken(c, b[i])
    ensures AllReadable(c, a) <==> AllReadable(c, b)
    ensures AllReadable(c, a) ==> Decoded(c, a) == Decoded(c, b)
  {
    if AllReadable(c, a) {
      assert Decoded(c, a) == Decoded(c, b);
    }
  }

  /** The backward walk gets to segment i with fewer ids than asked for and cannot read it. */
  ghost predicate StopsAt(c: Codec, segments: seq<seq<byte>>, limit: nat, i: nat) {
    i < |segments| && segments[i] != [] && (c.decode(segments[i]).None? || c.decode(segments[i]).value.id == "")
    && ScanBack(c, segments[i + 1..], limit).Some? && |ScanBack(c, segments[i + 1..], limit).value| < limit
  }

  /** The bounded reader fails exactly on a segment it needs; older ones it does not look at. */
  lemma {:induction false} BoundedReaderRefusesExactlyWhen(c: Codec, segments: seq<seq<byte>>, limit: nat)
    ensures ScanBack(c, segments, limit).None? <==> exists i: nat :: StopsAt(c, segments, limit, i)
  {
    if segments != [] {
      var rest := segments[1..];
      BoundedReaderRefusesExactlyWhen(c, rest, limit);
      forall i: nat ensures StopsAt(c, rest, limit, i) <==> StopsAt(c, segments, limit, i + 1) {
        if i < |rest| {
          assert rest[i] == segments[i + 1] && rest[i + 1..] == segments[i + 1 + 1..];
        }
      }
      assert segments[0 + 1..] == rest;
      if ScanBack(c, rest, limit).None? {
        var i: nat :| StopsAt(c, rest, limit, i);
        assert StopsAt(c, segments, limit, i + 1);
      } else if ScanBack(c, segments, limit).None? {
        assert StopsAt(c, segments, limit, 0);
      }
      if i: nat :| StopsAt(c, segments, limit, i) {
        if i > 0 {
          assert StopsAt(c, rest, limit, i - 1);
        }
      }
    }
  }

  lemma IdsOfList(m: map<string, CycleTrace>)
    requires Filed(m)
    ensures Ids(InOrder(m)) == m.Keys
  {
    var r := InOrder(m);
    forall id | id in m.Keys ensures id in Ids(r) {
      assert m[id] in r;
    }
    forall i | 0 <= i < |r| ensures r[i].id in m.Keys {
      assert r[i] in r;
    }
  }

  /** The bounded reader returns as many cycles as its window holds, up to the number asked for, which is
      10000 when none or more than that are. */
  lemma RecentCount(c: Codec, data: seq<byte>, limit: int)
    requires ValidCodec(c) && AllReadable(c, RawTokens(data))
    ensures AllReadable(c, WindowTokens(data)) && RecentRecordsSpec(c, data, limit).Some?
    ensures |Ids(RecentRecordsSpec(c, data, limit).value)|
         == Min(if 1 <= limit <= 10000 then limit else 10000, |Ids(Decoded(c, WindowTokens(data)))|)
  {
    RecentRefinesRecords(c, data, limit);
    IdsOfList(RecentMap(c, data, limit).value);
    RecentIdsFillTheLimit(Decoded(c, WindowTokens(data)), EffectiveLimit(limit));
  }
}
