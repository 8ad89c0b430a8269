/**
 UTF-8 on bytes: validity after section 4 of RFC 3629, and the truncation loop that the retriever and
 the embedder share (agent/history_retrieval.go, agent/retrieval.go, agent/embeddings.go).
 */
module Utf8 {
  import opened Wrappers

  type Text = seq<byte>

  predicate Tail(b: byte) {
    0x80 <= b <= 0xBF
  }

  /** The length of the encoded character in front, 0 when no character starts the bytes. */
  function CharLen(s: Text): (n: nat)
    ensures n <= 4 && n <= |s|
  {
    if s == [] then 0
    else if s[0] <= 0x7F then 1
    else if |s| < 2 || !Tail(s[1]) then 0
    else if 0xC2 <= s[0] <= 0xDF then 2
    else if |s| < 3 || !Tail(s[2]) then 0
    else if (s[0] == 0xE0 && 0xA0 <= s[1]) || 0xE1 <= s[0] <= 0xEC || (s[0] == 0xED && s[1] <= 0x9F)
      || 0xEE <= s[0] <= 0xEF then 3
    else if |s| < 4 || !Tail(s[3]) then 0
    else if (s[0] == 0xF0 && 0x90 <= s[1]) || 0xF1 <= s[0] <= 0xF3 || (s[0] == 0xF4 && s[1] <= 0x8F) then 4
    else 0
  }

  predicate ValidUtf8(s: Text)
    decreases |s|
  {
    s == [] || (CharLen(s) > 0 && ValidUtf8(s[CharLen(s)..]))
  }

  /** The bytes of the front character decide alone. */
  lemma CharLenOfPrefix(s: Text, n: nat)
    requires CharLen(s) <= n <= |s| && CharLen(s) > 0
    ensures CharLen(s[..n]) == CharLen(s)
  {
  }

  // ---------- validity means: the encoding of some characters ----------

  predicate Scalar(c: nat) {
    c <= 0xD7FF || 0xE000 <= c <= 0x10FFFF
  }

  /** e is the encoding of one character after section 3 of RFC 3629: the least length the character
      fits, the payload bits of the bytes in order. */
  predicate Encodes(c: nat, e: Text) {
    Scalar(c)
    && match |e|
       case 1 => c <= 0x7F && e[0] == c
       case 2 => 0x80 <= c <= 0x7FF && 0xC0 <= e[0] && Tail(e[1])
         && c == (e[0] as int - 0xC0) * 64 + (e[1] as int - 0x80)
       case 3 =>
         0x800 <= c <= 0xFFFF && 0xE0 <= e[0] && Tail(e[1]) && Tail(e[2])
         && c == (e[0] as int - 0xE0) * 4096 + (e[1] as int - 0x80) * 64 + (e[2] as int - 0x80)
       case 4 =>
         0x10000 <= c && 0xF0 <= e[0] && Tail(e[1]) && Tail(e[2]) && Tail(e[3])
         && c == (e[0] as int - 0xF0) * 262144 + (e[1] as int - 0x80) * 4096 + (e[2] as int - 0x80) * 64
           + (e[3] as int - 0x80)
       case _ => false
  }

  /** The bytes are the encodings of these characters one after another. */
  ghost predicate Spells(cs: seq<nat>, s: Text) {
    if cs == [] then s == []
    else exists n | 0 < n <= |s| :: Encodes(cs[0], s[..n]) && Spells(cs[1..], s[n..])
  }

  lemma FrontOfEncoding(c: nat, s: Text, n: nat)
    requires n <= |s| && Encodes(c, s[..n])
    ensures CharLen(s) == n
  {
    var e := s[..n];
    assert forall i | 0 <= i < n :: e[i] == s[i];
  }

  lemma FrontIsEncoded(s: Text) returns (c: nat)
    requires CharLen(s) > 0
    ensures Encodes(c, s[..CharLen(s)])
  {
    var e := s[..CharLen(s)];
    match |e|
    case 1 => c := e[0];
    case 2 => c := (e[0] as int - 0xC0) * 64 + (e[1] as int - 0x80);
    case 3 => c := (e[0] as int - 0xE0) * 4096 + (e[1] as int - 0x80) * 64 + (e[2] as int - 0x80);
    case _ => c := (e[0] as int - 0xF0) * 262144 + (e[1] as int - 0x80) * 4096 + (e[2] as int - 0x80) * 64
      + (e[3] as int - 0x80);
  }

  lemma {:induction false} SpelledIsValid(cs: seq<nat>, s: Text)
    requires Spells(cs, s)
    ensures ValidUtf8(s)
  {
    if cs != [] {
      var n :| 0 < n <= |s| && Encodes(cs[0], s[..n]) && Spells(cs[1..], s[n..]);
      FrontOfEncoding(cs[0], s, n);
      SpelledIsValid(cs[1..], s[n..]);
    }
  }

  lemma {:induction false} ValidIsSpelled(s: Text) returns (cs: seq<nat>)
    requires ValidUtf8(s)
    ensures Spells(cs, s)
    decreases |s|
  {
    if s == [] {
      cs := [];
    } else {
      var c := FrontIsEncoded(s);
      var rest := ValidIsSpelled(s[CharLen(s)..]);
      cs := [c] + rest;
      SpellsCons(c, rest, s, CharLen(s));
    }
  }

  lemma SpellsCons(c: nat, cs: seq<nat>, s: Text, n: nat)
    requires 0 < n <= |s| && Encodes(c, s[..n]) && Spells(cs, s[n..])
    ensures Spells([c] + cs, s)
  {
    assert ([c] + cs)[1..] == cs;
  }

  ghost predicate IsEncoding(s: Text) {
    exists cs: seq<nat> :: Spells(cs, s)
  }

  /** Bytes are valid exactly when they encode some sequence of characters. */
  lemma ValidMeansEncoding(s: Text)
    ensures ValidUtf8(s) <==> IsEncoding(s)
  {
    if ValidUtf8(s) {
      var cs := ValidIsSpelled(s);
      assert Spells(cs, s);
    }
    if IsEncoding(s) {
      var cs: seq<nat> :| Spells(cs, s);
      SpelledIsValid(cs, s);
    }
  }

  // ---------- truncation ----------

  /** The longest valid prefix of at most limit bytes. */
  ghost predicate LongestValidPrefix(value: Text, limit: nat, r: Text) {
    |r| <= limit && r <= value && ValidUtf8(r)
    && forall k | |r| < k <= |value| && k <= limit :: !ValidUtf8(value[..k])
  }

  /** The cut, then one byte less as long as the rest is not valid. */
  method TruncateUTF8(value: Text, limit: nat) returns (r: Text)
    ensures |value| <= limit ==> r == value
    ensures |value| > limit ==> LongestValidPrefix(value, limit, r)
  {
    if |value| <= limit {
      return value;
    }
    r := value[..limit];
    while !ValidUtf8(r)
      invariant |r| <= limit && r == value[..|r|]
      invariant forall k | |r| < k <= limit :: !ValidUtf8(value[..k])
      decreases |r|
    {
      r := r[..|r| - 1];
    }
  }

  /** The prefix is determined: one function stands for the loop. */
  function Truncated(value: Text, limit: nat): Text {
    if |value| <= limit then value else ValidFrom(value, limit)
  }

  function ValidFrom(value: Text, n: nat): (r: Text)
    requires n <= |value|
  {
    if ValidUtf8(value[..n]) then value[..n] else ValidFrom(value, n - 1)
  }

  lemma {:induction false} LongestPrefixIsTruncated(value: Text, n: nat, r: Text)
    requires n <= |value| && LongestValidPrefix(value, n, r)
    ensures r == ValidFrom(value, n)
  {
    assert r == value[..|r|];
    if |r| < n {
      assert !ValidUtf8(value[..n]);
      LongestPrefixIsTruncated(value, n - 1, r);
    }
  }

  method Truncate(value: Text, limit: nat) returns (r: Text)
    ensures r == Truncated(value, limit)
  {
    r := TruncateUTF8(value, limit);
    if |value| > limit {
      LongestPrefixIsTruncated(value, limit, r);
    }
  }

  /** In a valid text every cut is at most three bytes behind a character boundary. */
  lemma {:induction false} BoundaryBelow(s: Text, n: nat) returns (k: nat)
    requires ValidUtf8(s) && n <= |s|
    ensures k <= n <= k + 3 && ValidUtf8(s[..k])
    decreases |s|
  {
    var c := CharLen(s);
    if s == [] || n < c {
      k := 0;
      assert s[..0] == [];
    } else {
      var j := BoundaryBelow(s[c..], n - c);
      k := c + j;
      CharLenOfPrefix(s, k);
      assert s[..k][c..] == s[c..][..j];
    }
  }

  /** Truncating a valid text loses at most three bytes below the limit, and keeps it valid. */
  lemma TruncationLosesAtMostThree(s: Text, limit: nat)
    requires ValidUtf8(s)
    ensures ValidUtf8(Truncated(s, limit)) && Truncated(s, limit) <= s
    ensures |Truncated(s, limit)| <= limit
    ensures |s| > limit ==> limit <= |Truncated(s, limit)| + 3
  {
    if |s| > limit {
      var k := BoundaryBelow(s, limit);
      AtLeastValid(s, limit, k);
    }
  }

  lemma {:induction false} AtLeastValid(s: Text, n: nat, k: nat)
    requires k <= n <= |s| && ValidUtf8(s[..k])
    ensures ValidUtf8(ValidFrom(s, n)) && ValidFrom(s, n) <= s && k <= |ValidFrom(s, n)| <= n
  {
    if !ValidUtf8(s[..n]) {
      AtLeastValid(s, n - 1, k);
    }
  }
}
