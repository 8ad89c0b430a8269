/**
 The lexical index (agent/retrieval.go): term counts, document frequencies, and a BM25-style ranking
 over exact reals. Tokenisation (lower-cased runs of letters and digits) and the digest are parameters.
 */
module Retrieval {
  import opened Wrappers
  import opened Spaces
  import opened Utf8

  type Token = seq<byte>
  type Tokenizer = Text -> seq<Token>
  type Digest = Text -> string
  type Terms = map<Token, nat>

  const MAX_DOCUMENTS: nat := 10000
  const MAX_DOCUMENT_BYTES: nat := 64 * 1024
  const MAX_RESULTS: nat := 5
  const MAX_EXCERPT: nat := 4096
  const MAX_TOKEN_BYTES: nat := 64

  datatype Document = Document(id: string, source: string, text: Text)

  datatype Indexed = Indexed(document: Document, hash: string, terms: Terms, length: nat)

  datatype Index = Index(documents: seq<Indexed>, avgLength: real, documentFrequency: map<Token, nat>)

  datatype Match = Match(id: string, source: string, hash: string, score: real, text: Text)

  // ---------- term counts ----------

  /** The tokens that count: those of at most 64 bytes. */
  function Counted(tokens: seq<Token>): seq<Token> {
    if tokens == [] then []
    else if |tokens[0]| > MAX_TOKEN_BYTES then Counted(tokens[1..])
    else [tokens[0]] + Counted(tokens[1..])
  }

  /** How often each counted token occurs. */
  ghost function TermsOf(tokenizer: Tokenizer, text: Text): Terms {
    Multiplicities(multiset(Counted(tokenizer(text))))
  }

  ghost function Multiplicities(m: multiset<Token>): Terms {
    map t | t in m :: m[t]
  }

  lemma {:induction false} CountedSnoc(tokens: seq<Token>, t: Token)
    ensures Counted(tokens + [t]) == Counted(tokens) + if |t| > MAX_TOKEN_BYTES then [] else [t]
  {
    if tokens != [] {
      assert (tokens + [t])[1..] == tokens[1..] + [t];
      CountedSnoc(tokens[1..], t);
    }
  }

  lemma OneMore(m: multiset<Token>, t: Token)
    ensures Multiplicities(m + multiset{t}) == Multiplicities(m)[t := m[t] + 1]
  {
  }

  method TermCounts(tokenizer: Tokenizer, text: Text) returns (counts: Terms)
    ensures counts == TermsOf(tokenizer, text)
  {
    counts := map[];
    var tokens := tokenizer(text);
    for i := 0 to |tokens|
      invariant counts == Multiplicities(multiset(Counted(tokens[..i])))
    {
      assert tokens[..i + 1] == tokens[..i] + [tokens[i]];
      CountedSnoc(tokens[..i], tokens[i]);
      if |tokens[i]| > MAX_TOKEN_BYTES {
        assert Counted(tokens[..i + 1]) == Counted(tokens[..i]);
        continue;
      }
      OneMore(multiset(Counted(tokens[..i])), tokens[i]);
      counts := counts[tokens[i] := (if tokens[i] in counts then counts[tokens[i]] else 0) + 1];
    }
    assert tokens[..|tokens|] == tokens;
  }

  /** Adding up the counts gives the number of counted tokens. */
  method TotalCount(counts: Terms, ghost m: multiset<Token>) returns (length: nat)
    requires counts == Multiplicities(m)
    ensures length == |m|
  {
    length := 0;
    var rest := counts.Keys;
    ghost var left := m;
    while rest != {}
      invariant rest <= counts.Keys
      invariant forall t :: left[t] == if t in rest then m[t] else 0
      invariant length + |left| == |m|
      decreases |rest|
    {
      var t :| t in rest;
      length := length + counts[t];
      left := left[t := 0];
      rest := rest - {t};
    }
    assert left == multiset{};
  }

  // ---------- the index ----------

  predicate DocumentFits(d: Document) {
    !Blank(d.id) && !Blank(d.source) && 0 < |d.text| <= MAX_DOCUMENT_BYTES
  }

  ghost predicate IdsDistinct(documents: seq<Document>) {
    forall i, j | 0 <= i < j < |documents| :: documents[i].id != documents[j].id
  }

  ghost predicate CorpusFits(documents: seq<Document>) {
    IdsDistinct(documents) && forall i | 0 <= i < |documents| :: DocumentFits(documents[i])
  }

  ghost function IndexedAs(tokenizer: Tokenizer, digest: Digest, d: Document): Indexed {
    Indexed(d, digest(d.text), TermsOf(tokenizer, d.text), |Counted(tokenizer(d.text))|)
  }

  ghost predicate EachIndexed(tokenizer: Tokenizer, digest: Digest, documents: seq<Document>, indexed: seq<Indexed>) {
    |indexed| == |documents|
    && forall i | 0 <= i < |documents| :: indexed[i] == IndexedAs(tokenizer, digest, documents[i])
  }

  ghost function DocumentsWith(documents: seq<Indexed>, t: Token): set<nat> {
    set i: nat | i < |documents| && t in documents[i].terms
  }

  /** In how many documents a term occurs. */
  ghost function Frequency(documents: seq<Indexed>, t: Token): nat {
    |DocumentsWith(documents, t)|
  }

  lemma FrequencySnoc(documents: seq<Indexed>, d: Indexed, t: Token)
    ensures Frequency(documents + [d], t) == Frequency(documents, t) + if t in d.terms then 1 else 0
  {
    assert DocumentsWith(documents + [d], t)
        == DocumentsWith(documents, t) + if t in d.terms then {|documents|} else {};
  }

  lemma {:induction false} FrequencyAtMostAll(documents: seq<Indexed>, t: Token)
    ensures Frequency(documents, t) <= |documents|
  {
    if documents != [] {
      var front, last := documents[..|documents| - 1], documents[|documents| - 1];
      assert documents == front + [last];
      FrequencySnoc(front, last, t);
      FrequencyAtMostAll(front, t);
    }
  }

  lemma OccurringHasFrequency(documents: seq<Indexed>, t: Token, i: nat)
    requires i < |documents| && t in documents[i].terms
    ensures Frequency(documents, t) > 0
  {
    assert i in DocumentsWith(documents, t);
  }

  /** The table holds the frequency of every term that occurs, and nothing else. */
  ghost predicate FrequenciesCounted(documents: seq<Indexed>, df: map<Token, nat>) {
    forall t :: (t in df <==> Frequency(documents, t) > 0) && (t in df ==> df[t] == Frequency(documents, t))
  }

  function TotalLength(documents: seq<Indexed>): nat {
    if documents == [] then 0 else TotalLength(documents[..|documents| - 1]) + documents[|documents| - 1].length
  }

  ghost function AverageLength(documents: seq<Indexed>): real
    requires documents != []
  {
    TotalLength(documents) as real / |documents| as real
  }

  /** An index is what its definition says. */
  ghost predicate WellIndexed(tokenizer: Tokenizer, digest: Digest, documents: seq<Document>, index: Index) {
    documents != [] && |documents| <= MAX_DOCUMENTS && CorpusFits(documents)
    && EachIndexed(tokenizer, digest, documents, index.documents)
    && index.avgLength == AverageLength(index.documents)
    && FrequenciesCounted(index.documents, index.documentFrequency)
  }

  /** The table with the terms outside rest of one more document counted. */
  ghost predicate CountedExcept(df: map<Token, nat>, d: Indexed, rest: set<Token>, r: map<Token, nat>) {
    forall t ::
      (t in r <==> t in df || (t in d.terms && t !in rest))
      && (t in r ==> r[t] == (if t in df then df[t] else 0) + if t in d.terms && t !in rest then 1 else 0)
  }

  /** documentFrequency[term]++ for the terms of one more document. */
  method CountDocument(df: map<Token, nat>, ghost documents: seq<Indexed>, d: Indexed) returns (r: map<Token, nat>)
    requires FrequenciesCounted(documents, df)
    ensures FrequenciesCounted(documents + [d], r)
  {
    r := df;
    var rest := d.terms.Keys;
    while rest != {}
      invariant rest <= d.terms.Keys
      invariant CountedExcept(df, d, rest, r)
      decreases |rest|
    {
      var t :| t in rest;
      r := r[t := (if t in r then r[t] else 0) + 1];
      rest := rest - {t};
    }
    forall t
      ensures (t in r <==> Frequency(documents + [d], t) > 0) && (t in r ==> r[t] == Frequency(documents + [d], t))
    {
      FrequencySnoc(documents, d, t);
    }
  }

  method IndexDocument(tokenizer: Tokenizer, digest: Digest, d: Document) returns (r: Indexed)
    ensures r == IndexedAs(tokenizer, digest, d)
  {
    var terms := TermCounts(tokenizer, d.text);
    var length := TotalCount(terms, multiset(Counted(tokenizer(d.text))));
    r := Indexed(d, digest(d.text), terms, length);
  }

  ghost predicate IdsSeen(documents: seq<Document>, seen: set<string>) {
    forall id :: id in seen <==> exists j | 0 <= j < |documents| :: documents[j].id == id
  }

  lemma NextFits(documents: seq<Document>, i: nat, seen: set<string>)
    requires i < |documents| && CorpusFits(documents[..i]) && IdsSeen(documents[..i], seen)
    ensures DocumentFits(documents[i]) && documents[i].id !in seen ==> CorpusFits(documents[..i] + [documents[i]])
    ensures !DocumentFits(documents[i]) || documents[i].id in seen ==> !CorpusFits(documents)
  {
    if documents[i].id in seen {
      var j :| 0 <= j < i && documents[..i][j].id == documents[i].id;
      assert documents[j].id == documents[i].id;
    }
  }

  lemma SeenNext(documents: seq<Document>, d: Document, seen: set<string>)
    requires IdsSeen(documents, seen)
    ensures IdsSeen(documents + [d], seen + {d.id})
  {
    var more := documents + [d];
    forall id ensures id in seen + {d.id} <==> exists j | 0 <= j < |more| :: more[j].id == id {
      if id == d.id {
        assert more[|documents|].id == id;
      } else if id in seen {
        var j :| 0 <= j < |documents| && documents[j].id == id;
        assert more[j].id == id;
      }
    }
  }

  /** The index while the documents are added one by one; the lengths are still a sum. */
  ghost predicate PartlyIndexed(tokenizer: Tokenizer, digest: Digest, documents: seq<Document>,
      indexed: seq<Indexed>, df: map<Token, nat>, total: real) {
    EachIndexed(tokenizer, digest, documents, indexed) && FrequenciesCounted(indexed, df)
    && total == TotalLength(indexed) as real
  }

  method AddDocument(tokenizer: Tokenizer, digest: Digest, ghost documents: seq<Document>, d: Document,
      indexed: seq<Indexed>, df: map<Token, nat>, total: real)
    returns (indexed': seq<Indexed>, df': map<Token, nat>, total': real)
    requires PartlyIndexed(tokenizer, digest, documents, indexed, df, total)
    ensures PartlyIndexed(tokenizer, digest, documents + [d], indexed', df', total')
  {
    var entry := IndexDocument(tokenizer, digest, d);
    df' := CountDocument(df, indexed, entry);
    total' := total + entry.length as real;
    assert (indexed + [entry])[..|indexed|] == indexed;
    indexed' := indexed + [entry];
  }

  /** The constructor: it takes exactly the corpora that fit, and builds the index they define. */
  method NewLocalRetriever(tokenizer: Tokenizer, digest: Digest, documents: seq<Document>)
    returns (index: Option<Index>)
    ensures index.Some? <==> 1 <= |documents| <= MAX_DOCUMENTS && CorpusFits(documents)
    ensures index.Some? ==> WellIndexed(tokenizer, digest, documents, index.value)
  {
    if |documents| == 0 || |documents| > MAX_DOCUMENTS {
      return None;
    }
    var seen: set<string> := {};
    var indexed: seq<Indexed> := [];
    var df: map<Token, nat> := map[];
    var total: real := 0.0;
    assert forall t :: Frequency(indexed, t) == 0;
    for i := 0 to |documents|
      invariant CorpusFits(documents[..i]) && IdsSeen(documents[..i], seen)
      invariant PartlyIndexed(tokenizer, digest, documents[..i], indexed, df, total)
    {
      NextFits(documents, i, seen);
      if !DocumentFits(documents[i]) || documents[i].id in seen {
        return None;
      }
      SeenNext(documents[..i], documents[i], seen);
      seen := seen + {documents[i].id};
      indexed, df, total := AddDocument(tokenizer, digest, documents[..i], documents[i], indexed, df, total);
      assert documents[..i + 1] == documents[..i] + [documents[i]];
    }
    assert documents[..|documents|] == documents;
    index := Some(Index(indexed, total / |documents| as real, df));
  }

  // ---------- lengths ----------

  lemma {:induction false} TotalOfSum(a: seq<Indexed>, b: seq<Indexed>)
    ensures TotalLength(a + b) == TotalLength(a) + TotalLength(b)
    decreases |b|
  {
    if b == [] {
      assert a + b == a;
    } else {
      assert (a + b)[..|a + b| - 1] == a + b[..|b| - 1];
      TotalOfSum(a, b[..|b| - 1]);
    }
  }

  lemma TotalOfOne(d: Indexed)
    ensures TotalLength([d]) == d.length
  {
    assert [d][..0] == [];
  }

  lemma TotalOfParts(front: seq<Indexed>, d: Indexed, back: seq<Indexed>)
    ensures TotalLength(front + ([d] + back)) == TotalLength(front) + d.length + TotalLength(back)
  {
    TotalOfOne(d);
    TotalOfSum([d], back);
    TotalOfSum(front, [d] + back);
  }

  /** The average is the mean of the documents' numbers of counted tokens. */
  lemma AverageIsTheMean(documents: seq<Indexed>)
    requires documents != []
    ensures AverageLength(documents) * |documents| as real == TotalLength(documents) as real
  {
    var total, n := TotalLength(documents) as real, |documents| as real;
    Undivided(total, n);
  }

  lemma Undivided(x: real, n: real)
    requires n != 0.0
    ensures (x / n) * n == x
  {
  }

  /** What the index holds of a document: its digest, and as length the number of tokens its counts add up
      to, none of them longer than 64 bytes. */
  lemma IndexedDocumentIsCounted(tokenizer: Tokenizer, digest: Digest, d: Document) returns (m: multiset<Token>)
    ensures var x := IndexedAs(tokenizer, digest, d);
      x.document == d && x.hash == digest(d.text) && x.length == |m|
      && (forall t :: t in x.terms <==> t in m) && (forall t | t in m :: x.terms[t] == m[t])
    ensures forall t | t in m :: |t| <= 64 && m[t] == multiset(tokenizer(d.text))[t]
  {
    m := multiset(Counted(tokenizer(d.text)));
    forall t | t in m ensures |t| <= 64 && m[t] == multiset(tokenizer(d.text))[t] {
      ShortTokensCount(tokenizer(d.text), t);
    }
  }

  /** Leaving out the long tokens changes the count of no short one. */
  lemma {:induction false} ShortTokensCount(tokens: seq<Token>, t: Token)
    ensures multiset(Counted(tokens))[t] == if |t| <= 64 then multiset(tokens)[t] else 0
  {
    if tokens != [] {
      ShortTokensCount(tokens[1..], t);
      assert tokens == [tokens[0]] + tokens[1..];
    }
  }
}
