/**
 What semantic retrieval computes from scratch (agent/history_retrieval.go): the candidates' vectors,
 the blended scores, the ranking. No cache occurs here.
 */
module SemanticSpec {
  import opened Wrappers
  import opened Lists
  import opened Utf8
  import opened Sorting
  import opened Retrieval
  import opened Ranking
  import opened Candidates
  import opened Vectors

  /** The embedder works text by text and always answers alike; None is an error. */
  type Embedding = Text -> Option<Vector>

  datatype Engine = Engine(tokenizer: Tokenizer, digest: Digest, embed: Embedding, root: real -> real)

  datatype SemanticError = EmbedFailed | InvalidDocumentVector | InvalidQueryVector | DimensionsChanged

  function HashOf(e: Engine, text: Text): string {
    e.digest(text)
  }

  ghost predicate HashesDiffer(e: Engine) {
    forall a: Text, b: Text :: HashOf(e, a) == HashOf(e, b) ==> a == b
  }

  ghost predicate ValidEngine(e: Engine) {
    IsRoot(e.root) && HashesDiffer(e)
  }

  function Input(text: Text): Text {
    Truncated(text, MAX_EXCERPT)
  }

  /** The unit vector of a text. */
  function VectorOf(e: Engine, text: Text): Option<Vector> {
    match e.embed(Input(text))
    case None => None
    case Some(v) => Normalized(e.root, v)
  }

  ghost function IndexAll(e: Engine, documents: seq<Document>): seq<Indexed> {
    seq(|documents|, i requires 0 <= i < |documents| => IndexedAs(e.tokenizer, e.digest, documents[i]))
  }

  function TextAt(docs: seq<Indexed>, i: nat): Text
    requires i < |docs|
  {
    docs[i].document.text
  }

  ghost predicate HashesRight(e: Engine, docs: seq<Indexed>) {
    forall i | 0 <= i < |docs| :: docs[i].hash == HashOf(e, docs[i].document.text)
  }

  ghost predicate InRange(docs: seq<Indexed>, sel: seq<nat>) {
    forall k | 0 <= k < |sel| :: sel[k] < |docs|
  }

  ghost function Selected(docs: seq<Indexed>, q: Terms): seq<nat> {
    CandidatesOf(Ranked(Matching(docs, q)), |docs|, MAX_SEMANTIC_DOCUMENTS)
  }

  lemma AscendingIsDistinct(s: seq<nat>)
    requires Sorted(Ascending, s)
    ensures Distinct(s)
  {
  }

  lemma RankedAreDocuments(docs: seq<Indexed>, q: Terms)
    ensures forall x :: x in Ranked(Matching(docs, q)) <==>
      x.index < |docs| && x.score == Score(docs, q, x.index) && x.score != 0.0
  {
    var r := Ranked(Matching(docs, q));
    assert forall x :: x in r <==> x in Elements(r);
  }

  /** The candidates: distinct ascending indices, all of them or 512, the top lexical half and the newest
      of the remaining documents. */
  lemma SelectedAsDescribed(docs: seq<Indexed>, q: Terms)
    ensures InRange(docs, Selected(docs, q))
    ensures Sorted(Ascending, Selected(docs, q))
    ensures |Selected(docs, q)| == Min(MAX_SEMANTIC_DOCUMENTS, |docs|)
    ensures IsCandidateSet(TopIndices(Ranked(Matching(docs, q)), MAX_SEMANTIC_DOCUMENTS / 2), |docs|,
                           MAX_SEMANTIC_DOCUMENTS, Elements(Selected(docs, q)))
  {
    RankedAreDocuments(docs, q);
    CandidatesAreAsDescribed(Ranked(Matching(docs, q)), |docs|, MAX_SEMANTIC_DOCUMENTS);
    var sel := Selected(docs, q);
    AscendingIsDistinct(sel);
    DistinctCount<nat>(sel);
    forall k | 0 <= k < |sel| ensures sel[k] < |docs| {
      assert sel[k] in Elements<nat>(sel);
    }
  }

  // ---------- the vectors of the candidates ----------

  ghost predicate AllEmbedded(e: Engine, docs: seq<Indexed>, sel: seq<nat>)
    requires InRange(docs, sel)
  {
    forall k | 0 <= k < |sel| :: e.embed(Input(TextAt(docs, sel[k]))).Some?
  }

  /** Every candidate has a unit vector, and all have one dimension. */
  ghost predicate AllUsable(e: Engine, docs: seq<Indexed>, sel: seq<nat>)
    requires InRange(docs, sel)
  {
    (forall k | 0 <= k < |sel| :: VectorOf(e, TextAt(docs, sel[k])).Some?)
    && forall j, k | 0 <= j < |sel| && 0 <= k < |sel| ::
         |VectorOf(e, TextAt(docs, sel[j])).value| == |VectorOf(e, TextAt(docs, sel[k])).value|
  }

  // ---------- blended scores ----------

  ghost predicate IsMaximum(docs: seq<Indexed>, q: Terms, m: real) {
    (forall i | 0 <= i < |docs| :: Score(docs, q, i) <= m)
    && m >= 0.0
    && (m == 0.0 || exists i | 0 <= i < |docs| :: Score(docs, q, i) == m)
  }

  ghost function MaxUpTo(docs: seq<Indexed>, q: Terms, n: nat): (m: real)
    requires n <= |docs|
    ensures m >= 0.0
    ensures forall i | 0 <= i < n :: Score(docs, q, i) <= m
    ensures m == 0.0 || exists i | 0 <= i < n :: Score(docs, q, i) == m
  {
    if n == 0 then 0.0
    else if Score(docs, q, n - 1) > MaxUpTo(docs, q, n - 1) then Score(docs, q, n - 1)
    else MaxUpTo(docs, q, n - 1)
  }

  ghost function MaxScore(docs: seq<Indexed>, q: Terms): (m: real)
    ensures IsMaximum(docs, q, m)
  {
    MaxUpTo(docs, q, |docs|)
  }

  function Cosine(u: Vector, v: Option<Vector>): real {
    if v.Some? && |u| == |v.value| then Dot(u, v.value) else 0.0
  }

  function NotBelowZero(x: real): real {
    if x > 0.0 then x else 0.0
  }

  ghost predicate Covered(docs: seq<Indexed>, sel: seq<nat>, i: nat)
    requires InRange(docs, sel) && i < |docs|
  {
    exists k | 0 <= k < |sel| :: docs[sel[k]].hash == docs[i].hash
  }

  function Mix(semantic: real, lexical: real, maxLexical: real): real {
    0.65 * NotBelowZero(semantic) + if maxLexical > 0.0 then 0.35 * lexical / maxLexical else 0.0
  }

  /** The score of document i: the cosine where its text is a candidate's, and its share of the best
      lexical score. */
  ghost function Blend(e: Engine, docs: seq<Indexed>, q: Terms, sel: seq<nat>, u: Vector, i: nat): real
    requires InRange(docs, sel) && i < |docs|
  {
    var similarity := if Covered(docs, sel, i) then Cosine(u, VectorOf(e, TextAt(docs, i))) else 0.0;
    Mix(similarity, Score(docs, q, i), MaxScore(docs, q))
  }

  ghost function Blended(e: Engine, docs: seq<Indexed>, q: Terms, sel: seq<nat>, u: Vector): set<Scored>
    requires InRange(docs, sel)
  {
    set i: nat | i < |docs| && Blend(e, docs, q, sel, u, i) != 0.0 :: Scored(i, Blend(e, docs, q, sel, u, i))
  }

  ghost function TopBlended(e: Engine, docs: seq<Indexed>, q: Terms, sel: seq<nat>, u: Vector, n: nat): (r: seq<Scored>)
    requires InRange(docs, sel)
    ensures forall x :: x in r ==> x.index < |docs| && x.score != 0.0 && x.score == Blend(e, docs, q, sel, u, x.index)
  {
    var all := Ranked(Blended(e, docs, q, sel, u));
    assert forall x :: x in all <==> x in Elements(all);
    assert forall x :: x in FirstOf(all, n) ==> x in all;
    FirstOf(all, n)
  }

  // ---------- the outcome ----------

  ghost function AfterQuery(e: Engine, docs: seq<Indexed>, q: Terms, sel: seq<nat>, query: Text,
                            limit: int): Result<seq<Match>, SemanticError>
    requires InRange(docs, sel) && sel != [] && AllUsable(e, docs, sel)
  {
    match e.embed(Input(query))
    case None => Failure(EmbedFailed)
    case Some(v) =>
      match Normalized(e.root, v)
      case None => Failure(InvalidQueryVector)
      case Some(u) =>
        if |u| != |VectorOf(e, TextAt(docs, sel[0])).value| then Failure(DimensionsChanged)
        else Success(ToMatches(docs, TopBlended(e, docs, q, sel, u, Bound(limit, MAX_RESULTS))))
  }

  ghost function Computed(e: Engine, docs: seq<Indexed>, query: Text, limit: int): Result<seq<Match>, SemanticError> {
    var q := TermsOf(e.tokenizer, query);
    if docs == [] || q == map[] then Success([])
    else
      SelectedAsDescribed(docs, q);
      var sel := Selected(docs, q);
      if !AllEmbedded(e, docs, sel) then Failure(EmbedFailed)
      else if !AllUsable(e, docs, sel) then Failure(InvalidDocumentVector)
      else AfterQuery(e, docs, q, sel, query, limit)
  }

  // ---------- scores lie in (0, 1] ----------

  lemma Larger(d: real, m: real)
    requires d > 0.0 && m > 0.0
    ensures d * m > 0.0
  {
  }

  lemma ShareAtMostOne(x: real, m: real)
    requires 0.0 <= x <= m && m > 0.0
    ensures 0.0 <= 0.35 * x / m <= 0.35
  {
    var y := 0.35 * x / m;
    assert y * m == 0.35 * x;
    if y > 0.35 {
      Larger(y - 0.35, m);
    }
    if y < 0.0 {
      Larger(-y, m);
    }
  }

  lemma BlendInBounds(e: Engine, docs: seq<Indexed>, q: Terms, sel: seq<nat>, v: Vector, i: nat)
    requires ValidEngine(e) && InRange(docs, sel) && i < |docs| && AllPositive(docs) && Positive(q)
    requires Normalized(e.root, v).Some?
    ensures 0.0 <= Blend(e, docs, q, sel, Normalized(e.root, v).value, i) <= 1.0
  {
    var u := Normalized(e.root, v).value;
    ScoreSign(docs, q, i);
    if MaxScore(docs, q) > 0.0 {
      ShareAtMostOne(Score(docs, q, i), MaxScore(docs, q));
    }
    var w := VectorOf(e, TextAt(docs, i));
    if w.Some? && |u| == |w.value| {
      var raw := e.embed(Input(TextAt(docs, i))).value;
      NormalizedIsUnit(e.root, raw);
      NormalizedIsUnit(e.root, v);
      CosineAtMostOne(e.root, v, raw);
    }
  }

  /** Every semantic match has a score above zero and at most one. */
  lemma ScoresAreBounded(e: Engine, documents: seq<Document>, query: Text, limit: int, k: nat)
    requires ValidEngine(e) && Computed(e, IndexAll(e, documents), query, limit).Success?
    requires k < |Computed(e, IndexAll(e, documents), query, limit).value|
    ensures 0.0 < Computed(e, IndexAll(e, documents), query, limit).value[k].score <= 1.0
  {
    var docs, q := IndexAll(e, documents), TermsOf(e.tokenizer, query);
    forall i | 0 <= i < |docs| ensures Positive(docs[i].terms) {
      assert docs[i] == IndexedAs(e.tokenizer, e.digest, documents[i]);
    }
    assert Positive(q);
    SelectedAsDescribed(docs, q);
    var sel := Selected(docs, q);
    var v := e.embed(Input(query)).value;
    var u := Normalized(e.root, v).value;
    var top := TopBlended(e, docs, q, sel, u, Bound(limit, MAX_RESULTS));
    assert top[k] in top;
    BlendInBounds(e, docs, q, sel, v, top[k].index);
  }

  // ---------- what the ranking prefers ----------

  /** Semantic retrieval came to an answer: the candidates, the query's unit vector. */
  ghost predicate Answered(e: Engine, documents: seq<Document>, query: Text, limit: int) {
    documents != [] && TermsOf(e.tokenizer, query) != map[]
    && Computed(e, IndexAll(e, documents), query, limit).Success?
  }

  ghost function QueryVector(e: Engine, documents: seq<Document>, query: Text, limit: int): Vector
    requires Answered(e, documents, query, limit)
  {
    SelectedAsDescribed(IndexAll(e, documents), TermsOf(e.tokenizer, query));
    Normalized(e.root, e.embed(Input(query)).value).value
  }

  /** The score document i is ranked by. */
  ghost function RankingScore(e: Engine, documents: seq<Document>, query: Text, limit: int, i: nat): real
    requires Answered(e, documents, query, limit) && i < |documents|
  {
    var docs, q := IndexAll(e, documents), TermsOf(e.tokenizer, query);
    SelectedAsDescribed(docs, q);
    Blend(e, docs, q, Selected(docs, q), QueryVector(e, documents, query, limit), i)
  }

  lemma TextsAreIndexed(e: Engine, documents: seq<Document>)
    requires ValidEngine(e)
    ensures AllPositive(IndexAll(e, documents)) && HashesRight(e, IndexAll(e, documents))
    ensures forall i | 0 <= i < |documents| :: TextAt(IndexAll(e, documents), i) == documents[i].text
  {
    var docs := IndexAll(e, documents);
    forall i | 0 <= i < |docs| ensures Positive(docs[i].terms) && docs[i].document == documents[i] {
      assert docs[i] == IndexedAs(e.tokenizer, e.digest, documents[i]);
    }
  }

  /** A candidate that reads, for the embedder, like the query has cosine one. */
  lemma SameInputHasCosineOne(e: Engine, documents: seq<Document>, query: Text, limit: int, i: nat)
    requires ValidEngine(e) && Answered(e, documents, query, limit) && i < |documents|
    requires Input(documents[i].text) == Input(query)
    ensures Cosine(QueryVector(e, documents, query, limit), VectorOf(e, documents[i].text)) == 1.0
  {
    SelectedAsDescribed(IndexAll(e, documents), TermsOf(e.tokenizer, query));
    var v := e.embed(Input(query)).value;
    NormalizedIsUnit(e.root, v);
    DotWithItself(Normalized(e.root, v).value);
  }

  ghost predicate IsCandidate(e: Engine, documents: seq<Document>, query: Text, i: nat)
    requires i < |documents|
  {
    var docs, q := IndexAll(e, documents), TermsOf(e.tokenizer, query);
    i in Selected(docs, q)
  }

  lemma CandidateIsCovered(e: Engine, documents: seq<Document>, query: Text, i: nat)
    requires i < |documents| && IsCandidate(e, documents, query, i)
    ensures var docs, q := IndexAll(e, documents), TermsOf(e.tokenizer, query);
      InRange(docs, Selected(docs, q)) && Covered(docs, Selected(docs, q), i)
  {
    var docs, q := IndexAll(e, documents), TermsOf(e.tokenizer, query);
    SelectedAsDescribed(docs, q);
    var k :| 0 <= k < |Selected(docs, q)| && Selected(docs, q)[k] == i;
    assert docs[Selected(docs, q)[k]].hash == docs[i].hash;
  }

  /** What a score is made of: at most 0.65 from the cosine, at most 0.35 from the words. */
  lemma ScoreParts(e: Engine, documents: seq<Document>, query: Text, limit: int, i: nat) returns (semantic: real)
    requires ValidEngine(e) && Answered(e, documents, query, limit) && i < |documents|
    ensures var docs, q := IndexAll(e, documents), TermsOf(e.tokenizer, query);
      RankingScore(e, documents, query, limit, i) == Mix(semantic, Score(docs, q, i), MaxScore(docs, q))
      && 0.0 <= Score(docs, q, i) <= MaxScore(docs, q)
    ensures var cosine := Cosine(QueryVector(e, documents, query, limit), VectorOf(e, documents[i].text));
      semantic == (if IsCandidate(e, documents, query, i) then cosine else semantic)
      && (semantic == cosine || semantic == 0.0)
  {
    var docs, q := IndexAll(e, documents), TermsOf(e.tokenizer, query);
    TextsAreIndexed(e, documents);
    SelectedAsDescribed(docs, q);
    if IsCandidate(e, documents, query, i) {
      CandidateIsCovered(e, documents, query, i);
    }
    ScoreSign(docs, q, i);
    semantic := if Covered(docs, Selected(docs, q), i)
      then Cosine(QueryVector(e, documents, query, limit), VectorOf(e, TextAt(docs, i))) else 0.0;
  }

  lemma MixBounds(semantic: real, lexical: real, m: real)
    requires 0.0 <= lexical <= m
    ensures semantic == 1.0 ==> Mix(semantic, lexical, m) >= 0.65
    ensures semantic <= 0.0 ==> Mix(semantic, lexical, m) <= 0.35
  {
    if m > 0.0 {
      ShareAtMostOne(lexical, m);
    }
  }

  lemma MixGrows(x: real, y: real, k: real, l: real, m: real)
    requires 0.0 <= k <= m && 0.0 <= l <= m
    ensures x == y && k > l ==> Mix(x, k, m) > Mix(y, l, m)
    ensures x > y && x > 0.0 && k == l ==> Mix(x, k, m) > Mix(y, l, m)
  {
    if k > l {
      LargerShare(l, k, m);
    }
  }

  lemma LargerShare(x: real, y: real, m: real)
    requires x < y && m > 0.0
    ensures 0.35 * x / m < 0.35 * y / m
  {
    Larger(0.35 * (y - x), m);
    assert (0.35 * y) * m - (0.35 * x) * m == 0.35 * (y - x) * m;
    CrossProducts(0.35 * x, m, 0.35 * y, m);
  }

  ghost predicate Outscores(e: Engine, documents: seq<Document>, query: Text, limit: int, i: nat, j: nat)
    requires Answered(e, documents, query, limit) && i < |documents| && j < |documents|
  {
    RankingScore(e, documents, query, limit, i) > RankingScore(e, documents, query, limit, j)
    && RankingScore(e, documents, query, limit, i) != 0.0
  }

  /** The answer lists the documents by their scores: whoever scores higher than a returned document is
      returned too, and before it. */
  lemma HigherScoreComesFirst(e: Engine, documents: seq<Document>, query: Text, limit: int, i: nat, b: nat)
    returns (j: nat, a: nat)
    requires ValidEngine(e) && Answered(e, documents, query, limit) && i < |documents|
    requires b < |Computed(e, IndexAll(e, documents), query, limit).value|
    ensures j < |documents|
    ensures Computed(e, IndexAll(e, documents), query, limit).value[b]
         == ToMatch(IndexAll(e, documents)[j], RankingScore(e, documents, query, limit, j))
    ensures Outscores(e, documents, query, limit, i, j) ==>
      a < b
      && Computed(e, IndexAll(e, documents), query, limit).value[a]
      == ToMatch(IndexAll(e, documents)[i], RankingScore(e, documents, query, limit, i))
  {
    var docs, q := IndexAll(e, documents), TermsOf(e.tokenizer, query);
    SelectedAsDescribed(docs, q);
    var u, n := QueryVector(e, documents, query, limit), Bound(limit, MAX_RESULTS);
    var top := TopBlended(e, docs, q, Selected(docs, q), u, n);
    assert top[b] in top;
    j, a := top[b].index, 0;
    if Outscores(e, documents, query, limit, i, j) {
      a := TopIsRanked(e, docs, q, Selected(docs, q), u, n, i, b);
    }
  }

  lemma TopIsRanked(e: Engine, docs: seq<Indexed>, q: Terms, sel: seq<nat>, u: Vector, n: nat, i: nat, b: nat)
    returns (a: nat)
    requires InRange(docs, sel) && i < |docs| && b < |TopBlended(e, docs, q, sel, u, n)|
    requires Blend(e, docs, q, sel, u, i) > TopBlended(e, docs, q, sel, u, n)[b].score
    requires Blend(e, docs, q, sel, u, i) != 0.0
    ensures a < b && TopBlended(e, docs, q, sel, u, n)[a] == Scored(i, Blend(e, docs, q, sel, u, i))
  {
    var all := Ranked(Blended(e, docs, q, sel, u));
    var x := Scored(i, Blend(e, docs, q, sel, u, i));
    assert x in Elements(all);
    a := RankedBefore(all, x, b);
  }

  lemma RankedBefore(all: seq<Scored>, x: Scored, b: nat) returns (a: nat)
    requires Sorted(Before, all) && x in all && b < |all| && Before(x, all[b])
    ensures a < b && all[a] == x
  {
    a :| 0 <= a < |all| && all[a] == x;
    assert b < a ==> Before(all[b], all[a]);
  }

  /** A candidate with the query's own text comes before every document that only shares words with the
      query, however many. */
  lemma SameTextBeatsBestWords(e: Engine, documents: seq<Document>, query: Text, limit: int, i: nat, j: nat)
    requires ValidEngine(e) && Answered(e, documents, query, limit)
    requires i < |documents| && IsCandidate(e, documents, query, i) && Input(documents[i].text) == Input(query)
    requires j < |documents|
    requires Cosine(QueryVector(e, documents, query, limit), VectorOf(e, documents[j].text)) <= 0.0
    ensures Outscores(e, documents, query, limit, i, j)
  {
    var docs, q := IndexAll(e, documents), TermsOf(e.tokenizer, query);
    SameInputHasCosineOne(e, documents, query, limit, i);
    var x := ScoreParts(e, documents, query, limit, i);
    var y := ScoreParts(e, documents, query, limit, j);
    MixBounds(x, Score(docs, q, i), MaxScore(docs, q));
    MixBounds(y, Score(docs, q, j), MaxScore(docs, q));
  }

  /** Of two candidates equally close to the query the one with the higher lexical score ranks higher; and
      of two with equal lexical scores the closer one does, unless neither lies on the query's side. */
  lemma BothSharesCount(e: Engine, documents: seq<Document>, query: Text, limit: int, i: nat, j: nat)
    requires ValidEngine(e) && Answered(e, documents, query, limit)
    requires i < |documents| && j < |documents|
    requires IsCandidate(e, documents, query, i) && IsCandidate(e, documents, query, j)
    ensures
      var docs, q := IndexAll(e, documents), TermsOf(e.tokenizer, query);
      var u := QueryVector(e, documents, query, limit);
      var x, y := Cosine(u, VectorOf(e, documents[i].text)), Cosine(u, VectorOf(e, documents[j].text));
      (x == y && Score(docs, q, i) > Score(docs, q, j)) || (x > y && x > 0.0 && Score(docs, q, i) == Score(docs, q, j))
      ==> RankingScore(e, documents, query, limit, i) > RankingScore(e, documents, query, limit, j)
  {
    var docs, q := IndexAll(e, documents), TermsOf(e.tokenizer, query);
    var x := ScoreParts(e, documents, query, limit, i);
    var y := ScoreParts(e, documents, query, limit, j);
    MixGrows(x, y, Score(docs, q, i), Score(docs, q, j), MaxScore(docs, q));
  }

  lemma CandidatesInOrder(e: Engine, documents: seq<Document>, query: Text)
    ensures var docs, q := IndexAll(e, documents), TermsOf(e.tokenizer, query);
      InRange(docs, Selected(docs, q))
      && (documents != [] ==> Selected(docs, q) != [])
      && forall k | 0 <= k < |Selected(docs, q)| ::
           IsCandidate(e, documents, query, Selected(docs, q)[k])
           && TextAt(docs, Selected(docs, q)[k]) == documents[Selected(docs, q)[k]].text
  {
    var docs, q := IndexAll(e, documents), TermsOf(e.tokenizer, query);
    SelectedAsDescribed(docs, q);
    forall k | 0 <= k < |Selected(docs, q)|
      ensures IsCandidate(e, documents, query, Selected(docs, q)[k])
      ensures TextAt(docs, Selected(docs, q)[k]) == documents[Selected(docs, q)[k]].text
    {
      var i := Selected(docs, q)[k];
      assert docs[i] == IndexedAs(e.tokenizer, e.digest, documents[i]);
    }
  }

  /** The embedder has a vector for the query and for every candidate, all of them normalise, and all have
      one dimension. */
  ghost predicate AllOfOneDimension(e: Engine, documents: seq<Document>, query: Text) {
    VectorOf(e, query).Some?
    && forall i | 0 <= i < |documents| && IsCandidate(e, documents, query, i) ::
         VectorOf(e, documents[i].text).Some? && |VectorOf(e, documents[i].text).value| == |VectorOf(e, query).value|
  }

  lemma AnswerNeedsVectors(e: Engine, documents: seq<Document>, query: Text, limit: int)
    requires Answered(e, documents, query, limit)
    ensures AllOfOneDimension(e, documents, query)
  {
    var docs, q := IndexAll(e, documents), TermsOf(e.tokenizer, query);
    SelectedAsDescribed(docs, q);
    CandidatesInOrder(e, documents, query);
    var sel := Selected(docs, q);
    forall i | 0 <= i < |documents| && IsCandidate(e, documents, query, i)
      ensures VectorOf(e, documents[i].text).Some?
      ensures |VectorOf(e, documents[i].text).value| == |VectorOf(e, query).value|
    {
      var k :| 0 <= k < |sel| && sel[k] == i;
      assert VectorOf(e, TextAt(docs, sel[k])).Some?;
    }
  }

  lemma VectorsGiveAnAnswer(e: Engine, documents: seq<Document>, query: Text, limit: int)
    requires documents != [] && TermsOf(e.tokenizer, query) != map[] && AllOfOneDimension(e, documents, query)
    ensures Computed(e, IndexAll(e, documents), query, limit).Success?
  {
    var docs, q := IndexAll(e, documents), TermsOf(e.tokenizer, query);
    SelectedAsDescribed(docs, q);
    CandidatesInOrder(e, documents, query);
    var sel := Selected(docs, q);
    forall k | 0 <= k < |sel|
      ensures VectorOf(e, TextAt(docs, sel[k])).Some?
      ensures |VectorOf(e, TextAt(docs, sel[k])).value| == |VectorOf(e, query).value|
    {
      assert IsCandidate(e, documents, query, sel[k]);
    }
    assert AllEmbedded(e, docs, sel) && AllUsable(e, docs, sel);
  }

  /** Semantic retrieval answers exactly then. */
  lemma SemanticAnswersExactlyWhen(e: Engine, documents: seq<Document>, query: Text, limit: int)
    requires documents != [] && TermsOf(e.tokenizer, query) != map[]
    ensures Computed(e, IndexAll(e, documents), query, limit).Success? <==> AllOfOneDimension(e, documents, query)
  {
    if AllOfOneDimension(e, documents, query) {
      VectorsGiveAnAnswer(e, documents, query, limit);
    } else if Answered(e, documents, query, limit) {
      AnswerNeedsVectors(e, documents, query, limit);
    }
  }

  /** The embedder reads a text of at most 4096 bytes as it is, and of a longer one the longest front of
      whole characters within that size. */
  lemma InputIsTheFront(text: Text)
    requires ValidUtf8(text)
    ensures Input(text) <= text && ValidUtf8(Input(text)) && |Input(text)| <= 4096
    ensures if |text| <= 4096 then Input(text) == text else |Input(text)| >= 4093
  {
    TruncationLosesAtMostThree(text, MAX_EXCERPT);
  }
}
