/**
 The verified-history retriever as the source has it (agent/history_retrieval.go): its vector cache and
 failure counters are fields, and each retrieval fills maps and slices step by step.
 */
module HistoryRetriever {
  import opened Wrappers
  import opened Utf8
  import opened Sorting
  import opened Trace
  import opened Retrieval
  import opened Ranking
  import opened Candidates
  import opened Vectors
  import opened SemanticSpec
  import opened SemanticCache
  import opened VerifiedHistory

  // ---------- the lexical table ----------

  function LexicalOf(scores: map<string, real>, id: string): real {
    if id in scores then scores[id] else 0.0
  }

  ghost predicate AmongFirst(ranked: seq<Scored>, n: nat, x: Scored)
    requires n <= |ranked|
  {
    exists k | 0 <= k < n :: ranked[k] == x
  }

  ghost predicate RankedDocuments(docs: seq<Indexed>, ranked: seq<Scored>) {
    forall k | 0 <= k < |ranked| :: ranked[k].index < |docs|
  }

  /** The scores of the first n ranked documents, by id. */
  ghost predicate IdTable(docs: seq<Indexed>, ranked: seq<Scored>, n: nat, scores: map<string, real>)
    requires n <= |ranked| && RankedDocuments(docs, ranked)
  {
    (forall i | 0 <= i < |docs| && docs[i].document.id in scores ::
      AmongFirst(ranked, n, Scored(i, scores[docs[i].document.id])))
    && forall k | 0 <= k < n :: docs[ranked[k].index].document.id in scores
  }

  ghost predicate LargestOf(ranked: seq<Scored>, n: nat, largest: real)
    requires n <= |ranked|
  {
    largest >= 0.0
    && (forall k | 0 <= k < n :: ranked[k].score <= largest)
    && (largest == 0.0 || exists k | 0 <= k < n :: ranked[k].score == largest)
  }

  lemma IdTableNext(docs: seq<Indexed>, ranked: seq<Scored>, n: nat, scores: map<string, real>)
    requires DocumentIdsDistinct(docs) && n < |ranked| && RankedDocuments(docs, ranked)
      && IdTable(docs, ranked, n, scores)
    ensures IdTable(docs, ranked, n + 1, scores[docs[ranked[n].index].document.id := ranked[n].score])
  {
    var me := docs[ranked[n].index].document.id;
    var more := scores[me := ranked[n].score];
    forall i | 0 <= i < |docs| && docs[i].document.id in more
      ensures AmongFirst(ranked, n + 1, Scored(i, more[docs[i].document.id]))
    {
      if i == ranked[n].index {
        assert ranked[n] == Scored(i, more[me]);
      } else {
        assert docs[i].document.id != me;
        assert AmongFirst(ranked, n, Scored(i, scores[docs[i].document.id]));
      }
    }
  }

  method LexicalTable(docs: seq<Indexed>, lexical: seq<Match>, ghost ranked: seq<Scored>)
    returns (scores: map<string, real>, largest: real)
    requires DocumentIdsDistinct(docs) && RankedDocuments(docs, ranked) && |lexical| == |ranked|
    requires forall k | 0 <= k < |ranked| ::
      lexical[k].id == docs[ranked[k].index].document.id && lexical[k].score == ranked[k].score
    ensures IdTable(docs, ranked, |ranked|, scores) && LargestOf(ranked, |ranked|, largest)
  {
    scores, largest := map[], 0.0;
    for k := 0 to |lexical|
      invariant IdTable(docs, ranked, k, scores) && LargestOf(ranked, k, largest)
    {
      IdTableNext(docs, ranked, k, scores);
      scores := scores[lexical[k].id := lexical[k].score];
      if lexical[k].score > largest {
        largest := lexical[k].score;
      }
    }
  }

  /** The complete ranking of the documents with a score. */
  ghost predicate FullRanking(docs: seq<Indexed>, q: Terms, ranked: seq<Scored>) {
    forall x :: x in ranked <==> x.index < |docs| && x.score == Score(docs, q, x.index) && x.score != 0.0
  }

  /** With distinct ids the table answers every document's score. */
  lemma TableHolds(docs: seq<Indexed>, q: Terms, ranked: seq<Scored>, scores: map<string, real>, i: nat)
    requires i < |docs| && FullRanking(docs, q, ranked) && RankedDocuments(docs, ranked)
    requires IdTable(docs, ranked, |ranked|, scores)
    ensures LexicalOf(scores, docs[i].document.id) == Score(docs, q, i)
  {
    var me := Scored(i, Score(docs, q, i));
    assert me.score != 0.0 ==> me in ranked;
    assert me in ranked ==> exists k | 0 <= k < |ranked| :: ranked[k] == me;
    if docs[i].document.id in scores {
      assert Scored(i, scores[docs[i].document.id]) in ranked;
    }
  }

  lemma LargestIsMaximum(docs: seq<Indexed>, q: Terms, ranked: seq<Scored>, largest: real)
    requires FullRanking(docs, q, ranked) && LargestOf(ranked, |ranked|, largest)
    ensures largest == MaxScore(docs, q)
  {
    forall i | 0 <= i < |docs| ensures Score(docs, q, i) <= largest {
      var me := Scored(i, Score(docs, q, i));
      if me.score != 0.0 {
        assert me in ranked;
      }
    }
    if largest != 0.0 {
      var k :| 0 <= k < |ranked| && ranked[k].score == largest;
      assert ranked[k] in ranked;
    }
    MaximumIsUnique(docs, q, largest, MaxScore(docs, q));
  }

  lemma MaximumIsUnique(docs: seq<Indexed>, q: Terms, a: real, b: real)
    requires IsMaximum(docs, q, a) && IsMaximum(docs, q, b)
    ensures a == b
  {
    if a != 0.0 {
      var i :| 0 <= i < |docs| && Score(docs, q, i) == a;
    }
    if b != 0.0 {
      var i :| 0 <= i < |docs| && Score(docs, q, i) == b;
    }
  }

  // ---------- ranking the blend ----------

  ghost predicate SemanticTable(known: Cache, u: Vector, scores: map<string, real>) {
    scores.Keys == known.Keys && forall h | h in known :: scores[h] == Cosine(u, Some(known[h]))
  }

  method ScoreKnown(known: Cache, u: Vector) returns (scores: map<string, real>)
    ensures SemanticTable(known, u, scores)
  {
    scores := map[];
    var rest := known.Keys;
    while rest != {}
      invariant rest <= known.Keys
      invariant forall h :: h in scores <==> h in known && h !in rest
      invariant forall h | h in scores :: scores[h] == Cosine(u, Some(known[h]))
      decreases |rest|
    {
      var key :| key in rest;
      var cosine := CosineSimilarity(u, known[key]);
      scores := scores[key := cosine];
      rest := rest - {key};
    }
  }

  /** The tables answer what the definition of the blend asks for. */
  ghost predicate TablesFit(e: Engine, docs: seq<Indexed>, q: Terms, sel: seq<nat>, u: Vector,
      lexical: map<string, real>, largest: real, semantic: map<string, real>)
    requires InRange(docs, sel)
  {
    largest == MaxScore(docs, q)
    && (forall i | 0 <= i < |docs| :: LexicalOf(lexical, docs[i].document.id) == Score(docs, q, i))
    && forall i | 0 <= i < |docs| ::
         (docs[i].hash in semantic <==> Covered(docs, sel, i))
         && (docs[i].hash in semantic ==> semantic[docs[i].hash] == Cosine(u, VectorOf(e, TextAt(docs, i))))
  }

  lemma SemanticTableFits(e: Engine, docs: seq<Indexed>, sel: seq<nat>, u: Vector, known: Cache,
                          scores: map<string, real>, i: nat)
    requires InRange(docs, sel) && HashesRight(e, docs) && Faithful(e, known) && known.Keys == Active(docs, sel)
    requires SemanticTable(known, u, scores) && i < |docs|
    ensures docs[i].hash in scores <==> Covered(docs, sel, i)
    ensures docs[i].hash in scores ==> scores[docs[i].hash] == Cosine(u, VectorOf(e, TextAt(docs, i)))
  {
    assert docs[i].hash == HashOf(e, TextAt(docs, i));
  }

  /** One document's blended score from the tables. */
  function BlendFrom(d: Indexed, lexical: map<string, real>, largest: real, semantic: map<string, real>): real {
    Mix(if d.hash in semantic then semantic[d.hash] else 0.0, LexicalOf(lexical, d.document.id), largest)
  }

  lemma ZeroMix(largest: real)
    ensures Mix(0.0, 0.0, largest) == 0.0
  {
  }

  method BlendAll(e: Engine, docs: seq<Indexed>, ghost q: Terms, ghost sel: seq<nat>, ghost u: Vector,
      lexical: map<string, real>, largest: real, semantic: map<string, real>) returns (list: seq<Scored>)
    requires InRange(docs, sel) && TablesFit(e, docs, q, sel, u, lexical, largest, semantic)
    ensures Distinct(list) && Elements(list) == Blended(e, docs, q, sel, u)
  {
    list := [];
    for i := 0 to |docs|
      invariant forall x :: x in list <==>
        x.index < i && x.score == Blend(e, docs, q, sel, u, x.index) && x.score != 0.0
      invariant Distinct(list)
    {
      ghost var expected := Blend(e, docs, q, sel, u, i);
      assert expected == BlendFrom(docs[i], lexical, largest, semantic);
      var lexicalScore := LexicalOf(lexical, docs[i].document.id);
      if docs[i].hash !in semantic && lexicalScore == 0.0 {
        ZeroMix(largest);
        continue;
      }
      var score := 0.0;
      if docs[i].hash in semantic {
        score := score + 0.65 * NotBelowZero(semantic[docs[i].hash]);
      }
      if largest > 0.0 {
        score := score + 0.35 * lexicalScore / largest;
      }
      assert score == expected;
      if score == 0.0 {
        continue;
      }
      list := list + [Scored(i, score)];
    }
  }

  method RankBlended(e: Engine, docs: seq<Indexed>, ghost q: Terms, ghost sel: seq<nat>, ghost u: Vector,
      lexical: map<string, real>, largest: real, semantic: map<string, real>, n: nat) returns (top: seq<Scored>)
    requires InRange(docs, sel) && TablesFit(e, docs, q, sel, u, lexical, largest, semantic)
    ensures top == TopBlended(e, docs, q, sel, u, n)
  {
    var list := BlendAll(e, docs, q, sel, u, lexical, largest, semantic);
    top := SortScored(list);
    if |top| > n {
      top := top[..n];
    }
  }

  // ---------- the query ----------

  ghost function QueryVector(e: Engine, query: Text, known: Cache): Result<Vector, SemanticError> {
    match e.embed(Input(query))
    case None => Failure(EmbedFailed)
    case Some(v) =>
      match Normalized(e.root, v)
      case None => Failure(InvalidQueryVector)
      case Some(u) => if forall h | h in known :: |known[h]| == |u| then Success(u) else Failure(DimensionsChanged)
  }

  /** The query vector, its dimension checked against every known one. */
  method EmbedQuery(e: Engine, query: Text, known: Cache) returns (r: Result<Vector, SemanticError>)
    requires ValidEngine(e)
    ensures r == QueryVector(e, query, known)
  {
    var text := Truncate(query, MAX_EXCERPT);
    var vectors := Embed(e, [text]);
    assert vectors.Some? <==> e.embed([text][0]).Some?;
    if vectors.None? {
      return Failure(EmbedFailed);
    }
    if |vectors.value| != 1 || |vectors.value[0]| == 0 {
      return Failure(InvalidQueryVector);
    }
    var normalized := NormalizeEmbeddingVector(e.root, vectors.value[0]);
    if normalized.None? {
      return Failure(InvalidQueryVector);
    }
    var rest := known.Keys;
    while rest != {}
      invariant rest <= known.Keys
      invariant forall h | h in known && h !in rest :: |known[h]| == |normalized.value|
      decreases |rest|
    {
      var key :| key in rest;
      if |known[key]| != |normalized.value| {
        return Failure(DimensionsChanged);
      }
      rest := rest - {key};
    }
    r := Success(normalized.value);
  }

  // ---------- glue ----------

  lemma RankingIsFull(docs: seq<Indexed>, q: Terms)
    ensures var ranked := Ranked(Matching(docs, q));
      FullRanking(docs, q, ranked) && RankedDocuments(docs, ranked) && |ranked| <= |docs|
      && forall x :: x in ranked ==> x.index < |docs|
  {
    RankedAreDocuments(docs, q);
    var ranked := Ranked(Matching(docs, q));
    forall k | 0 <= k < |ranked| ensures ranked[k].index < |docs| {
      assert ranked[k] in ranked;
    }
    FewerThanDocuments(docs, q, ranked);
  }

  /** Each document is ranked at most once. */
  lemma FewerThanDocuments(docs: seq<Indexed>, q: Terms, ranked: seq<Scored>)
    requires FullRanking(docs, q, ranked) && RankedDocuments(docs, ranked) && Sorted(Before, ranked)
    ensures |ranked| <= |docs|
  {
    var indices := seq(|ranked|, k requires 0 <= k < |ranked| => ranked[k].index);
    forall j, k | 0 <= j < k < |indices| ensures indices[j] != indices[k] {
      assert ranked[j] in ranked && ranked[k] in ranked;
      assert Before(ranked[j], ranked[k]);
    }
    DistinctCount<nat>(indices);
    forall i | i in Elements<nat>(indices) ensures i < |docs| {
      var k :| 0 <= k < |indices| && indices[k] == i;
    }
    WithinBounds(Elements<nat>(indices), |docs|);
  }

  lemma IndexedIds(tokenizer: Tokenizer, digest: Digest, documents: seq<Document>, index: Index)
    requires WellIndexed(tokenizer, digest, documents, index)
    ensures DocumentIdsDistinct(index.documents)
  {
    forall i, j | 0 <= i < j < |index.documents|
      ensures index.documents[i].document.id != index.documents[j].document.id
    {
      assert index.documents[i] == IndexedAs(tokenizer, digest, documents[i]);
      assert index.documents[j] == IndexedAs(tokenizer, digest, documents[j]);
    }
  }

  lemma IndexedHashes(e: Engine, documents: seq<Document>, index: Index)
    requires WellIndexed(e.tokenizer, e.digest, documents, index)
    ensures HashesRight(e, index.documents) && index.documents == IndexAll(e, documents)
  {
    forall i | 0 <= i < |index.documents|
      ensures index.documents[i].hash == HashOf(e, index.documents[i].document.text)
    {
      assert index.documents[i] == IndexedAs(e.tokenizer, e.digest, documents[i]);
    }
  }

  /** The lexical part of a semantic retrieval: the candidates and the two tables. */
  method LexicalPart(e: Engine, ghost documents: seq<Document>, index: Index, query: Text)
    returns (selected: seq<nat>, scores: map<string, real>, largest: real)
    requires WellIndexed(e.tokenizer, e.digest, documents, index)
    ensures selected == Selected(index.documents, TermsOf(e.tokenizer, query))
    ensures largest == MaxScore(index.documents, TermsOf(e.tokenizer, query))
    ensures forall i | 0 <= i < |index.documents| ::
      LexicalOf(scores, index.documents[i].document.id) == Score(index.documents, TermsOf(e.tokenizer, query), i)
  {
    ghost var docs, q := index.documents, TermsOf(e.tokenizer, query);
    RankingIsFull(docs, q);
    IndexedIds(e.tokenizer, e.digest, documents, index);
    var ranked := RetrieveLexical(e.tokenizer, e.digest, documents, index, query, |index.documents|, MAX_DOCUMENTS);
    assert ranked == Ranked(Matching(docs, q));
    var lexical := Excerpts(index, ranked);
    scores, largest := LexicalTable(index.documents, lexical, ranked);
    LargestIsMaximum(docs, q, ranked, largest);
    forall i | 0 <= i < |docs| ensures LexicalOf(scores, docs[i].document.id) == Score(docs, q, i) {
      TableHolds(docs, q, ranked, scores, i);
    }
    selected := SemanticCandidateIndices(index.documents, lexical, ranked, MAX_SEMANTIC_DOCUMENTS);
  }

  /** The known vectors are those of the candidates. */
  ghost predicate Known(e: Engine, docs: seq<Indexed>, sel: seq<nat>, known: Cache)
    requires InRange(docs, sel)
  {
    AllEmbedded(e, docs, sel) && AllUsable(e, docs, sel)
    && Faithful(e, known) && OneDimension(known) && known.Keys == Active(docs, sel)
  }

  /** A query vector that fits every known vector fits the first candidate, and the other way round. */
  lemma DimensionOfKnown(e: Engine, docs: seq<Indexed>, sel: seq<nat>, known: Cache, n: nat)
    requires InRange(docs, sel) && HashesRight(e, docs) && sel != [] && Known(e, docs, sel, known)
    ensures (forall h | h in known :: |known[h]| == n) <==> |VectorOf(e, TextAt(docs, sel[0])).value| == n
  {
    var first := docs[sel[0]].hash;
    assert first in Active(docs, sel);
    assert HashOf(e, TextAt(docs, sel[0])) in known;
    assert VectorOf(e, TextAt(docs, sel[0])) == Some(known[first]);
  }

  method QueryPart(e: Engine, index: Index, ghost q: Terms, ghost sel: seq<nat>, query: Text, limit: int, known: Cache,
      scores: map<string, real>, largest: real) returns (r: Result<seq<Match>, SemanticError>)
    requires ValidEngine(e) && InRange(index.documents, sel) && HashesRight(e, index.documents) && sel != []
    requires Known(e, index.documents, sel, known) && largest == MaxScore(index.documents, q)
    requires forall i | 0 <= i < |index.documents| ::
      LexicalOf(scores, index.documents[i].document.id) == Score(index.documents, q, i)
    ensures r == AfterQuery(e, index.documents, q, sel, query, limit)
  {
    var vector := EmbedQuery(e, query, known);
    QueryDecides(e, index.documents, q, sel, query, limit, known);
    if vector.Failure? {
      return Failure(vector.error);
    }
    var semantic := ScoreKnown(known, vector.value);
    KnownTablesFit(e, index.documents, q, sel, vector.value, known, scores, largest, semantic);
    var top := RankBlended(e, index.documents, q, sel, vector.value, scores, largest, semantic,
      Bound(limit, MAX_RESULTS));
    var matches := Excerpts(index, top);
    r := Success(matches);
  }

  /** The check against all known vectors decides as the check against the first candidate's. */
  lemma QueryDecides(e: Engine, docs: seq<Indexed>, q: Terms, sel: seq<nat>, query: Text, limit: int, known: Cache)
    requires InRange(docs, sel) && HashesRight(e, docs) && sel != [] && Known(e, docs, sel, known)
    ensures AfterQuery(e, docs, q, sel, query, limit) ==
      match QueryVector(e, query, known)
      case Failure(error) => Failure(error)
      case Success(u) => Success(ToMatches(docs, TopBlended(e, docs, q, sel, u, Bound(limit, MAX_RESULTS))))
  {
    match e.embed(Input(query)) {
      case None =>
      case Some(v) =>
        match Normalized(e.root, v) {
          case None =>
          case Some(u) => DimensionOfKnown(e, docs, sel, known, |u|);
        }
    }
  }

  lemma KnownTablesFit(e: Engine, docs: seq<Indexed>, q: Terms, sel: seq<nat>, u: Vector, known: Cache,
      scores: map<string, real>, largest: real, semantic: map<string, real>)
    requires InRange(docs, sel) && HashesRight(e, docs) && Known(e, docs, sel, known)
    requires largest == MaxScore(docs, q) && SemanticTable(known, u, semantic)
    requires forall i | 0 <= i < |docs| :: LexicalOf(scores, docs[i].document.id) == Score(docs, q, i)
    ensures TablesFit(e, docs, q, sel, u, scores, largest, semantic)
  {
    forall i | 0 <= i < |docs|
      ensures docs[i].hash in semantic <==> Covered(docs, sel, i)
      ensures docs[i].hash in semantic ==> semantic[docs[i].hash] == Cosine(u, VectorOf(e, TextAt(docs, i)))
    {
      SemanticTableFits(e, docs, sel, u, known, semantic, i);
    }
  }

  lemma AfterEviction(e: Engine, docs: seq<Indexed>, sel: seq<nat>, cache: Cache, active: set<string>, known: Cache,
                      p: Pending, origin: seq<nat>)
    requires InRange(docs, sel) && CacheFits(e, cache) && |sel| <= MAX_SEMANTIC_DOCUMENTS
    requires Gathered(docs, sel, cache, active, known, p) && PendingFits(e, docs, sel, cache, p, origin)
    ensures Filing(e, docs, sel, known) && CacheFits(e, known) && PendingFits(e, docs, sel, known, p, origin)
  {
    FaithfulPart(e, cache, known);
    ActiveIsSmall(docs, sel);
    KeysAreFew(known, Active(docs, sel));
  }

  lemma KeptIsKnown(docs: seq<Indexed>, sel: seq<nat>, cache: Cache, active: set<string>, known: Cache, p: Pending,
                    kept: Cache)
    requires InRange(docs, sel) && Gathered(docs, sel, cache, active, known, p)
    requires forall h :: h in kept <==> h in cache && h in active
    requires forall h | h in kept :: kept[h] == cache[h]
    ensures kept == known
  {
  }

  const MINUTE := 60 * 1_000_000_000

  /** The pause after a number of failures in a row: one minute, doubled each time, at most sixteen. */
  function Pause(failures: nat): nat
    requires 1 <= failures <= 5
  {
    [1, 2, 4, 8, 16][failures - 1] * MINUTE
  }

  datatype RetrieveError = Cancelled | HistoryUnreadable | NotIndexable

  /** Failures of the embedder in a row, and when it may be asked again. */
  datatype Backoff = Backoff(failures: nat, retryAfter: Option<int>)

  const NO_BACKOFF := Backoff(0, None)

  predicate BackoffFits(b: Backoff) {
    b.failures <= 5 && (b.failures == 0 <==> b.retryAfter.None?)
  }

  /** The embedder may be asked outside of a pause. */
  predicate MayAsk(hasEmbedder: bool, b: Backoff, now: int) {
    hasEmbedder && (b.retryAfter.None? || b.retryAfter.value <= now)
  }

  function OneMoreFailure(b: Backoff, now: int): (after: Backoff)
    ensures BackoffFits(after) && after.retryAfter.Some? && now + MINUTE <= after.retryAfter.value <= now + 16 * MINUTE
  {
    var failures := if b.failures < 5 then b.failures + 1 else 5;
    Backoff(failures, Some(now + Pause(failures)))
  }

  class VerifiedHistoryRetriever {
    const engine: Engine
    const encode: EntryEncoder
    const corpus: seq<Document>
    const hasEmbedder: bool
    var vectors: Cache
    var failures: nat
    var retryAfter: Option<int>

    ghost function State(): Backoff
      reads this`failures, this`retryAfter
    {
      Backoff(failures, retryAfter)
    }

    ghost predicate Valid()
      reads this
    {
      ValidEngine(engine) && CacheFits(engine, vectors) && BackoffFits(State())
      && |corpus| <= MAX_DOCUMENTS && (corpus != [] ==> CorpusFits(corpus))
    }

    constructor (engine: Engine, encode: EntryEncoder, corpus: seq<Document>, hasEmbedder: bool)
      requires ValidEngine(engine) && |corpus| <= MAX_DOCUMENTS && (corpus != [] ==> CorpusFits(corpus))
      ensures Valid() && vectors == map[] && State() == NO_BACKOFF
      ensures this.engine == engine && this.encode == encode && this.corpus == corpus && this.hasEmbedder == hasEmbedder
    {
      this.engine, this.encode, this.corpus, this.hasEmbedder := engine, encode, corpus, hasEmbedder;
      vectors, failures, retryAfter := map[], 0, None;
    }

    /** The candidates the cache knows and those still to embed; everything else leaves the cache. */
    method SplitCandidates(docs: seq<Indexed>, sel: seq<nat>) returns (known: Cache, p: Pending, ghost origin: seq<nat>)
      requires Valid() && InRange(docs, sel) && HashesRight(engine, docs) && |sel| <= MAX_SEMANTIC_DOCUMENTS
      modifies this`vectors
      ensures Valid() && vectors == known && Filing(engine, docs, sel, known)
      ensures PendingFits(engine, docs, sel, known, p, origin)
      ensures AllEmbedded(engine, docs, sel) <==> Embed(engine, p.inputs).Some?
      ensures forall k | 0 <= k < |sel| :: docs[sel[k]].hash in known || docs[sel[k]].hash in p.ids
    {
      var active;
      active, known, p, origin := Gather(engine, docs, sel, vectors);
      PendingDecides(engine, docs, sel, vectors, active, known, p, origin);
      AfterEviction(engine, docs, sel, vectors, active, known, p, origin);
      var kept := Evict(vectors, active);
      KeptIsKnown(docs, sel, vectors, active, known, p, kept);
      vectors := kept;
    }

    /** The candidates' vectors: known ones from the cache, the others embedded and filed. The cache is
        whole again however this ends. */
    method CandidateVectors(docs: seq<Indexed>, sel: seq<nat>) returns (known: Cache, error: Option<SemanticError>)
      requires Valid() && InRange(docs, sel) && HashesRight(engine, docs) && |sel| <= MAX_SEMANTIC_DOCUMENTS
      modifies this`vectors
      ensures Valid()
      ensures error == if !AllEmbedded(engine, docs, sel) then Some(EmbedFailed)
                       else if !AllUsable(engine, docs, sel) then Some(InvalidDocumentVector) else None
      ensures error.None? ==> Known(engine, docs, sel, known)
    {
      var p;
      ghost var origin;
      known, p, origin := SplitCandidates(docs, sel);
      if |p.inputs| > 0 {
        var embedded := Embed(engine, p.inputs);
        if embedded.None? || |embedded.value| != |p.inputs| {
          return known, Some(EmbedFailed);
        }
        var filed;
        known, filed := FileVectors(engine, docs, sel, vectors, p, origin, embedded.value);
        vectors := known;
        ActiveIsSmall(docs, sel);
        KeysAreFew(vectors, Active(docs, sel));
        if !filed {
          return known, Some(InvalidDocumentVector);
        }
      }
      FiledIsUsable(engine, docs, sel, known);
      error := None;
    }

    /** semanticRetrieve: from any valid cache the answer is the one computed from scratch. */
    method SemanticRetrieve(ghost documents: seq<Document>, index: Index, query: Text, limit: int)
      returns (r: Result<seq<Match>, SemanticError>)
      requires Valid() && WellIndexed(engine.tokenizer, engine.digest, documents, index)
      modifies this`vectors
      ensures Valid()
      ensures r == Computed(engine, IndexAll(engine, documents), query, limit)
    {
      IndexedHashes(engine, documents, index);
      var q := TermCounts(engine.tokenizer, query);
      if |index.documents| == 0 || |q| == 0 {
        return Success([]);
      }
      SelectedAsDescribed(index.documents, q);
      var selected, scores, largest := LexicalPart(engine, documents, index, query);
      if |selected| == 0 {
        assert false;
        return Success([]);
      }
      var known, error := CandidateVectors(index.documents, selected);
      if error.Some? {
        return Failure(error.value);
      }
      r := QueryPart(engine, index, q, selected, query, limit, known, scores, largest);
    }

    method NoteSemanticFailure(now: int)
      requires Valid()
      modifies this`failures, this`retryAfter
      ensures Valid()
      ensures State() == OneMoreFailure(old(State()), now)
    {
      if failures < 5 {
        failures := failures + 1;
      }
      var delay := [1, 2, 4, 8, 16][failures - 1] * MINUTE;
      if delay > 16 * MINUTE {
        delay := 16 * MINUTE;
      }
      retryAfter := Some(now + delay);
    }

    predicate CoolingDown(now: int)
      reads this
    {
      retryAfter.Some? && now < retryAfter.value
    }

    /** The semantic answer, or the lexical one while the embedder is failing. */
    method RetrieveFrom(ghost documents: seq<Document>, index: Index, query: Text, limit: int,
                        cancelledDuring: bool, now: int, later: int)
      returns (r: Result<seq<Match>, RetrieveError>)
      requires Valid() && WellIndexed(engine.tokenizer, engine.digest, documents, index)
      modifies this
      ensures Valid()
      ensures r == AnswerFrom(engine, IndexAll(engine, documents), query, limit, cancelledDuring,
                              MayAsk(hasEmbedder, old(State()), now))
      ensures State() == BackoffFrom(engine, IndexAll(engine, documents), query, limit, cancelledDuring,
                                     MayAsk(hasEmbedder, old(State()), now), old(State()), later)
    {
      IndexedHashes(engine, documents, index);
      if hasEmbedder && !CoolingDown(now) {
        var matches := SemanticRetrieve(documents, index, query, limit);
        if matches.Success? {
          failures, retryAfter := 0, None;
          return Success(matches.value);
        }
        if cancelledDuring {
          return Failure(Cancelled);
        }
        NoteSemanticFailure(later);
      }
      var lexical := Ranking.Retrieve(engine.tokenizer, engine.digest, documents, index, query, limit);
      r := Success(lexical);
    }

    /** Retrieve: the newest verified history joins the corpus; the semantic answer where there is one,
        the lexical one otherwise. Neither the answer nor the pause that follows depends on the cache. */
    method Retrieve(records: Option<seq<CycleTrace>>, query: Text, limit: int, cancelled: bool, cancelledDuring: bool,
                    now: int, later: int)
      returns (r: Result<seq<Match>, RetrieveError>)
      requires Valid()
      modifies this
      ensures Valid()
      ensures r == Answer(engine, encode, corpus, records, query, limit, cancelled, cancelledDuring,
                          MayAsk(hasEmbedder, old(State()), now))
      ensures State() == NextBackoff(engine, encode, corpus, records, query, limit, cancelled, cancelledDuring,
                                     MayAsk(hasEmbedder, old(State()), now), old(State()), later)
    {
      if cancelled {
        return Failure(Cancelled);
      }
      if records.None? {
        return Failure(HistoryUnreadable);
      }
      var remaining := MAX_DOCUMENTS - |corpus|;
      if remaining > MAX_HISTORY_DOCUMENTS {
        remaining := MAX_HISTORY_DOCUMENTS;
      }
      var history := VerifiedHistoryDocuments(encode, records.value, remaining);
      var documents := corpus + history;
      assert documents == Combined(encode, corpus, records.value);
      if |documents| == 0 {
        return Success([]);
      }
      var index := NewLocalRetriever(engine.tokenizer, engine.digest, documents);
      CombinedLength(encode, corpus, records.value);
      if index.None? {
        return Failure(NotIndexable);
      }
      r := RetrieveFrom(documents, index.value, query, limit, cancelledDuring, now, later);
    }
  }

  method NewVerifiedHistoryRetriever(engine: Engine, encode: EntryEncoder, corpus: seq<Document>, hasAudit: bool,
                                     embedders: nat)
    returns (r: VerifiedHistoryRetriever?)
    requires ValidEngine(engine)
    ensures r != null <==>
      embedders <= 1 && |corpus| <= MAX_DOCUMENTS && (corpus == [] || CorpusFits(corpus)) && hasAudit
    ensures r != null ==>
      fresh(r) && r.Valid()
      && r.engine == engine && r.encode == encode && r.corpus == corpus && r.hasEmbedder == (embedders == 1)
      && r.vectors == map[] && r.State() == NO_BACKOFF
  {
    if embedders > 1 || |corpus| > MAX_DOCUMENTS {
      return null;
    }
    if |corpus| > 0 {
      var index := NewLocalRetriever(engine.tokenizer, engine.digest, corpus);
      if index.None? {
        return null;
      }
    }
    if !hasAudit {
      return null;
    }
    r := new VerifiedHistoryRetriever(engine, encode, corpus, embedders == 1);
  }

  lemma KeysAreFew(m: Cache, active: set<string>)
    requires m.Keys <= active
    ensures |m| <= |active|
  {
    Subset(m.Keys, active);
  }

  lemma CombinedLength(encode: EntryEncoder, corpus: seq<Document>, records: seq<CycleTrace>)
    requires |corpus| <= MAX_DOCUMENTS
    ensures |Combined(encode, corpus, records)| <= MAX_DOCUMENTS
  {
  }

  /** The answer over an indexed list of documents. */
  ghost function AnswerFrom(e: Engine, docs: seq<Indexed>, query: Text, limit: int, cancelledDuring: bool,
                            semantic: bool): Result<seq<Match>, RetrieveError>
  {
    if semantic && Computed(e, docs, query, limit).Success? then Success(Computed(e, docs, query, limit).value)
    else if semantic && cancelledDuring then Failure(Cancelled)
    else Success(LexicalMatches(docs, TermsOf(e.tokenizer, query), Bound(limit, MAX_RESULTS)))
  }

  /** The pause that follows: cleared by a semantic answer, prolonged by a failure that is not the end of
      the context, untouched when the embedder was not asked. */
  ghost function BackoffFrom(e: Engine, docs: seq<Indexed>, query: Text, limit: int, cancelledDuring: bool,
                             semantic: bool, before: Backoff, later: int): Backoff {
    if !semantic then before
    else if Computed(e, docs, query, limit).Success? then NO_BACKOFF
    else if cancelledDuring then before
    else OneMoreFailure(before, later)
  }

  /** Whether Retrieve gets as far as an index. */
  ghost predicate Indexes(encode: EntryEncoder, corpus: seq<Document>, records: Option<seq<CycleTrace>>,
                          cancelled: bool)
  {
    !cancelled && records.Some?
    && Combined(encode, corpus, records.value) != [] && CorpusFits(Combined(encode, corpus, records.value))
  }

  /** What Retrieve answers. */
  ghost function Answer(e: Engine, encode: EntryEncoder, corpus: seq<Document>, records: Option<seq<CycleTrace>>,
                        query: Text, limit: int, cancelled: bool, cancelledDuring: bool, semantic: bool)
    : Result<seq<Match>, RetrieveError>
  {
    if cancelled then Failure(Cancelled)
    else if records.None? then Failure(HistoryUnreadable)
    else if Combined(encode, corpus, records.value) == [] then Success([])
    else if !Indexes(encode, corpus, records, cancelled) then Failure(NotIndexable)
    else AnswerFrom(e, IndexAll(e, Combined(encode, corpus, records.value)), query, limit, cancelledDuring, semantic)
  }

  /** The pause after a Retrieve. */
  ghost function NextBackoff(e: Engine, encode: EntryEncoder, corpus: seq<Document>, records: Option<seq<CycleTrace>>,
                             query: Text, limit: int, cancelled: bool, cancelledDuring: bool, semantic: bool,
                             before: Backoff, later: int): Backoff
  {
    if !Indexes(encode, corpus, records, cancelled) then before
    else BackoffFrom(e, IndexAll(e, Combined(encode, corpus, records.value)), query, limit, cancelledDuring,
                     semantic, before, later)
  }

  // ---------- what a caller can rely on ----------

  /** Retrieval answers whatever becomes of the embedder: on a readable journal, with a context that lives
      and no corpus id that clashes with the history, it never fails. */
  lemma RetrievalSurvivesTheEmbedder(e: Engine, encode: EntryEncoder, corpus: seq<Document>, records: seq<CycleTrace>,
                                     query: Text, limit: int, semantic: bool)
    requires ValidEncoder(encode) && TraceIdsDistinct(records)
    requires |corpus| <= MAX_DOCUMENTS && CorpusFits(corpus)
    requires !IdClash(corpus, Combined(encode, corpus, records)[|corpus|..])
    ensures Answer(e, encode, corpus, Some(records), query, limit, false, false, semantic).Success?
  {
    CombinedIsIndexable(encode, corpus, records);
  }

  /** Failures in a row double the pause from one minute up to sixteen; one semantic answer ends it. */
  lemma PauseDoubles(b: Backoff, now: int, later: int)
    requires BackoffFits(b)
    ensures var once := OneMoreFailure(b, now);
      var twice := OneMoreFailure(once, later);
      (b == NO_BACKOFF ==> once.retryAfter == Some(now + 60_000_000_000))
      && (once.failures < 5 ==>
            twice.retryAfter.value - later == 2 * (once.retryAfter.value - now))
      && (once.failures == 5 ==> twice.retryAfter == Some(later + 16 * 60_000_000_000))
  {
  }

  /** What a retrieval that gets as far as its index answers, and what pause follows: with an embedder that
      may be asked, the semantic answer and no pause when it has vectors for everything; an error and the
      old pause when the context ended over it; the lexical answer and a longer pause when it just failed.
      With none that may be asked, the lexical answer and the old pause. */
  lemma AnswerFollowsTheEmbedder(e: Engine, encode: EntryEncoder, corpus: seq<Document>, records: seq<CycleTrace>,
                                 query: Text, limit: int, cancelledDuring: bool, semantic: bool, before: Backoff,
                                 later: int)
    requires CorpusFits(Combined(encode, corpus, records)) && Combined(encode, corpus, records) != []
    requires TermsOf(e.tokenizer, query) != map[]
    ensures
      var documents := Combined(encode, corpus, records);
      var docs := IndexAll(e, documents);
      var answer := Answer(e, encode, corpus, Some(records), query, limit, false, cancelledDuring, semantic);
      var next :=
        NextBackoff(e, encode, corpus, Some(records), query, limit, false, cancelledDuring, semantic, before, later);
      var lexical := Success(LexicalMatches(docs, TermsOf(e.tokenizer, query), Bound(limit, 5)));
      if !semantic then answer == lexical && next == before
      else if AllOfOneDimension(e, documents, query) then
        Computed(e, docs, query, limit).Success? && answer == Success(Computed(e, docs, query, limit).value)
        && next == Backoff(0, None)
      else if cancelledDuring then answer == Failure(Cancelled) && next == before
      else answer == lexical && next == OneMoreFailure(before, later)
  {
    SemanticAnswersExactlyWhen(e, Combined(encode, corpus, records), query, limit);
  }
}
