/**
 The journal as text: newline-terminated lines followed by a possibly incomplete tail.
 */
module JournalText {
  import opened Wrappers
  import opened Lists

  const NEWLINE: byte := 10
  const CARRIAGE_RETURN: byte := 13

  predicate NoNewline(d: seq<byte>) {
    forall k | 0 <= k < |d| :: d[k] != NEWLINE
  }

  /** Index of the first newline, or the length when there is none. */
  function FirstNewline(d: seq<byte>): (i: nat)
    ensures i <= |d|
    ensures forall k | 0 <= k < i :: d[k] != NEWLINE
    ensures i < |d| ==> d[i] == NEWLINE
  {
    if |d| == 0 || d[0] == NEWLINE then 0 else 1 + FirstNewline(d[1..])
  }

  /** The complete lines of a byte string, without their newlines. */
  function Lines(d: seq<byte>): seq<seq<byte>>
    decreases |d|
  {
    var i := FirstNewline(d);
    if i == |d| then [] else [d[..i]] + Lines(d[i + 1..])
  }

  /** Offset just behind the last newline, 0 when there is none. */
  function TailStart(d: seq<byte>): (n: nat)
    ensures n <= |d|
    ensures forall k | n <= k < |d| :: d[k] != NEWLINE
    ensures n > 0 ==> d[n - 1] == NEWLINE
  {
    if |d| == 0 then 0
    else if d[|d| - 1] == NEWLINE then |d|
    else TailStart(d[..|d| - 1])
  }

  /** What follows the last newline. */
  function Tail(d: seq<byte>): seq<byte> {
    d[TailStart(d)..]
  }

  /** Everything up to and including the last newline. */
  function Whole(d: seq<byte>): seq<byte> {
    d[..TailStart(d)]
  }

  /** The tail is the only newline-free suffix that starts the text or follows a newline. */
  lemma TailStartIs(d: seq<byte>, n: nat)
    requires n <= |d| && forall k | n <= k < |d| :: d[k] != NEWLINE
    requires n > 0 ==> d[n - 1] == NEWLINE
    ensures TailStart(d) == n
  {
  }

  lemma FirstNewlineIs(d: seq<byte>, i: nat)
    requires i <= |d| && forall k | 0 <= k < i :: d[k] != NEWLINE
    requires i < |d| ==> d[i] == NEWLINE
    ensures FirstNewline(d) == i
  {
  }

  lemma TailHasNoNewline(d: seq<byte>)
    ensures NoNewline(Tail(d)) && Whole(d) + Tail(d) == d
  {
  }

  lemma {:induction false} LinesHaveNoNewline(d: seq<byte>)
    ensures forall i | 0 <= i < |Lines(d)| :: NoNewline(Lines(d)[i])
    decreases |d|
  {
    var i := FirstNewline(d);
    if i < |d| {
      LinesHaveNoNewline(d[i + 1..]);
    }
  }

  lemma NoLines(d: seq<byte>)
    requires NoNewline(d)
    ensures Lines(d) == [] && TailStart(d) == 0 && Tail(d) == d
  {
    FirstNewlineIs(d, |d|);
    TailStartIs(d, 0);
  }

  /** The first line and the rest. */
  lemma SplitFirst(line: seq<byte>, rest: seq<byte>)
    requires NoNewline(line)
    ensures Lines(line + [NEWLINE] + rest) == [line] + Lines(rest)
  {
    var d := line + [NEWLINE] + rest;
    FirstNewlineIs(d, |line|);
    assert d[..|line|] == line && d[|line| + 1..] == rest;
  }

  /** A text of whole lines. */
  predicate EndsWhole(d: seq<byte>) {
    |d| > 0 ==> d[|d| - 1] == NEWLINE
  }

  lemma WholeTextHasNoTail(d: seq<byte>)
    ensures EndsWhole(d) <==> Tail(d) == []
    ensures EndsWhole(d) <==> TailStart(d) == |d|
  {
  }

  lemma CutAt(a: seq<byte>, i: nat, b: seq<byte>)
    requires i < |a|
    ensures a == a[..i] + [a[i]] + a[i + 1..]
    ensures a + b == a[..i] + [a[i]] + (a[i + 1..] + b)
  {
  }

  /** Whole lines in front of a text: their lines come first. */
  lemma {:induction false} LinesBefore(a: seq<byte>, b: seq<byte>)
    requires EndsWhole(a)
    ensures Lines(a + b) == Lines(a) + Lines(b)
    decreases |a|
  {
    if |a| == 0 {
      assert a + b == b;
    } else {
      var i := FirstNewline(a);
      var line, rest := a[..i], a[i + 1..];
      LinesBefore(rest, b);
      CutAt(a, i, b);
      SplitFirst(line, rest);
      SplitFirst(line, rest + b);
      AppendAssociates([line], Lines(rest), Lines(b));
    }
  }

  lemma LinesOfWhole(d: seq<byte>)
    ensures Lines(Whole(d)) == Lines(d) && EndsWhole(Whole(d))
  {
    var w := Whole(d);
    TailHasNoNewline(d);
    LinesBefore(w, Tail(d));
    NoLines(Tail(d));
  }

  /** Appending bytes keeps every complete line and continues the tail. */
  lemma LinesAppend(a: seq<byte>, b: seq<byte>)
    ensures Lines(a + b) == Lines(a) + Lines(Tail(a) + b)
  {
    TailHasNoNewline(a);
    LinesOfWhole(a);
    AppendAssociates(Whole(a), Tail(a), b);
    LinesBefore(Whole(a), Tail(a) + b);
  }

  lemma OneLine(record: seq<byte>)
    requires NoNewline(record)
    ensures Lines(record + [NEWLINE]) == [record]
  {
    SplitFirst(record, []);
    NoLines([]);
    assert record + [NEWLINE] + [] == record + [NEWLINE];
  }

  /** A record written with its newline after whole lines adds exactly one line. */
  lemma AppendRecord(d: seq<byte>, record: seq<byte>)
    requires EndsWhole(d) && NoNewline(record)
    ensures Lines(d + (record + [NEWLINE])) == Lines(d) + [record]
    ensures EndsWhole(d + (record + [NEWLINE]))
  {
    LinesBefore(d, record + [NEWLINE]);
    OneLine(record);
  }

  /** A torn record adds no line, only a tail. */
  lemma AppendPartial(d: seq<byte>, part: seq<byte>)
    requires EndsWhole(d) && NoNewline(part)
    ensures Lines(d + part) == Lines(d) && Tail(d + part) == part
  {
    LinesBefore(d, part);
    NoLines(part);
    TailStartIs(d + part, |d|);
  }

  lemma TailBehindWhole(a: seq<byte>, b: seq<byte>)
    requires EndsWhole(a)
    ensures Tail(a + b) == Tail(b)
    ensures EndsWhole(a + b) <==> EndsWhole(b)
  {
    TailStartIs(a + b, |a| + TailStart(b));
    assert (a + b)[|a| + TailStart(b)..] == b[TailStart(b)..];
  }

  /** The lines of a prefix are the first lines of the whole. */
  lemma LinesOfPrefix(p: seq<byte>, d: seq<byte>)
    requires p <= d
    ensures Lines(p) <= Lines(d)
  {
    assert d == p + d[|p|..];
    LinesAppend(p, d[|p|..]);
  }
}
