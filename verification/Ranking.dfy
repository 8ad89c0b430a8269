/**
 Scoring and ranking over the lexical index (agent/retrieval.go). The score the source accumulates from
 its tables in map order equals the sum the definition gives from the documents themselves.
 */
module Ranking {
  import opened Lists
  import opened Utf8
  import opened Sorting
  import opened Retrieval

  function LengthNorm(length: nat, avg: real): (r: real)
    ensures r >= 0.0
  {
    length as real / if avg > 1.0 then avg else 1.0
  }

  function Rarity(n: nat, df: nat): (r: real)
    requires df <= n
    ensures r > 1.0
  {
    1.0 + ((n - df) as real + 0.5) / (df as real + 0.5)
  }

  /** The weight of a term that occurs tf times in a document and in df of n documents. */
  function Weight(n: nat, df: nat, tf: nat, length: nat, avg: real): real
    requires df <= n
  {
    Rarity(n, df) * (tf as real * 2.2) / (tf as real + 1.2 * (0.25 + 0.75 * LengthNorm(length, avg)))
  }

  lemma WeightIsPositive(n: nat, df: nat, tf: nat, length: nat, avg: real)
    requires df <= n && tf > 0
    ensures Weight(n, df, tf, length, avg) > 0.0
  {
    var above := Rarity(n, df) * (tf as real * 2.2);
    var below := tf as real + 1.2 * (0.25 + 0.75 * LengthNorm(length, avg));
    assert above > 0.0 && below > 0.0;
    Quotient(above, below);
  }

  lemma Quotient(a: real, b: real)
    requires a > 0.0 && b > 0.0
    ensures a / b > 0.0
  {
  }

  /** Comparing quotients by their cross products. */
  lemma CrossProducts(a: real, b: real, c: real, d: real)
    requires b > 0.0 && d > 0.0 && a * d < c * b
    ensures a / b < c / d
  {
    var x, y := a / b, c / d;
    assert x * b == a && y * d == c;
    assert x * (b * d) == (x * b) * d && y * (b * d) == (y * d) * b;
    assert b * d > 0.0;
    if x >= y {
      NotBelow(x, y, b * d);
    }
  }

  lemma NotBelow(x: real, y: real, m: real)
    requires x >= y && m > 0.0
    ensures x * m >= y * m
  {
  }

  /** A term in fewer documents is rarer. */
  lemma FewerIsRarer(n: nat, few: nat, many: nat)
    requires few < many <= n
    ensures Rarity(n, few) > Rarity(n, many)
  {
    var f, m, all := few as real, many as real, n as real;
    assert (n - few) as real == all - f && (n - many) as real == all - m;
    assert (all - m + 0.5) * (f + 0.5) < (all - f + 0.5) * (m + 0.5) by {
      assert (all - f + 0.5) * (m + 0.5) - (all - m + 0.5) * (f + 0.5) == (m - f) * (all + 1.0);
      assert (m - f) * (all + 1.0) > 0.0;
    }
    CrossProducts(all - m + 0.5, m + 0.5, all - f + 0.5, f + 0.5);
  }

  /** A further occurrence of a term raises its weight, everything else being equal. */
  lemma MoreOftenWeighsMore(n: nat, df: nat, less: nat, more: nat, length: nat, avg: real)
    requires df <= n && 0 < less < more
    ensures Weight(n, df, less, length, avg) < Weight(n, df, more, length, avg)
  {
    var r, x, y := Rarity(n, df), less as real, more as real;
    QuotientGrows(r, x, y, 1.2 * (0.25 + 0.75 * LengthNorm(length, avg)), r * (x * 2.2), r * (y * 2.2));
  }

  lemma QuotientGrows(r: real, x: real, y: real, k: real, a: real, c: real)
    requires r > 0.0 && k > 0.0 && 0.0 < x < y && a == r * (x * 2.2) && c == r * (y * 2.2)
    ensures a / (x + k) < c / (y + k)
  {
    Saturates(r, x, y, k, a, c);
    CrossProducts(a, x + k, c, y + k);
  }

  lemma Saturates(r: real, x: real, y: real, k: real, a: real, c: real)
    requires r > 0.0 && k > 0.0 && 0.0 < x < y && a == r * (x * 2.2) && c == r * (y * 2.2)
    ensures a * (y + k) < c * (x + k)
  {
    assert c * (x + k) - a * (y + k) == (r * 2.2 * k) * (y - x);
    assert r * 2.2 * k > 0.0;
    assert (r * 2.2 * k) * (y - x) > 0.0;
  }

  // ---------- the score by its definition ----------

  /** What one query term adds to the score of document i. */
  ghost function Contribution(documents: seq<Indexed>, q: Terms, i: nat, t: Token): real
    requires i < |documents|
  {
    if t in q && t in documents[i].terms then
      FrequencyAtMostAll(documents, t);
      Weight(|documents|, Frequency(documents, t), documents[i].terms[t], documents[i].length,
        AverageLength(documents)) * q[t] as real
    else 0.0
  }

  ghost function AnyOf(s: set<Token>): Token
    requires s != {}
  {
    var t :| t in s;
    t
  }

  ghost function SumOver(documents: seq<Indexed>, q: Terms, i: nat, s: set<Token>): real
    requires i < |documents|
  {
    if s == {} then 0.0 else Contribution(documents, q, i, AnyOf(s)) + SumOver(documents, q, i, s - {AnyOf(s)})
  }

  /** The direct sum over the query terms. */
  ghost function Score(documents: seq<Indexed>, q: Terms, i: nat): real
    requires i < |documents|
  {
    SumOver(documents, q, i, q.Keys)
  }

  /** The order of summation does not matter: any term may come first. */
  lemma {:induction false} SumInAnyOrder(documents: seq<Indexed>, q: Terms, i: nat, s: set<Token>, t: Token)
    requires i < |documents| && t in s
    ensures SumOver(documents, q, i, s) == Contribution(documents, q, i, t) + SumOver(documents, q, i, s - {t})
    decreases |s|
  {
    var u := AnyOf(s);
    if u != t {
      SumInAnyOrder(documents, q, i, s - {u}, t);
      SumInAnyOrder(documents, q, i, s - {t}, u);
      assert s - {u} - {t} == s - {t} - {u};
    }
  }

  /** Every count of a term table is at least one. */
  ghost predicate Positive(terms: Terms) {
    forall t | t in terms :: terms[t] > 0
  }

  ghost predicate AllPositive(documents: seq<Indexed>) {
    forall i | 0 <= i < |documents| :: Positive(documents[i].terms)
  }

  lemma ContributionSign(documents: seq<Indexed>, q: Terms, i: nat, t: Token)
    requires i < |documents| && AllPositive(documents) && Positive(q)
    ensures Contribution(documents, q, i, t) >= 0.0
    ensures Contribution(documents, q, i, t) > 0.0 <==> t in q && t in documents[i].terms
  {
    if t in q && t in documents[i].terms {
      FrequencyAtMostAll(documents, t);
      WeightIsPositive(|documents|, Frequency(documents, t), documents[i].terms[t], documents[i].length,
        AverageLength(documents));
    }
  }

  lemma {:induction false} SumSign(documents: seq<Indexed>, q: Terms, i: nat, s: set<Token>)
    requires i < |documents| && AllPositive(documents) && Positive(q)
    ensures SumOver(documents, q, i, s) >= 0.0
    ensures SumOver(documents, q, i, s) > 0.0 <==> exists t :: t in s && t in q && t in documents[i].terms
    decreases |s|
  {
    if s != {} {
      ContributionSign(documents, q, i, AnyOf(s));
      SumSign(documents, q, i, s - {AnyOf(s)});
    }
  }

  ghost predicate TermShared(a: Terms, b: Terms) {
    exists t :: t in a && t in b
  }

  ghost predicate TokenShared(tokenizer: Tokenizer, a: Text, b: Text) {
    exists t :: t in Counted(tokenizer(a)) && t in Counted(tokenizer(b))
  }

  lemma SharedTermsAreTokens(tokenizer: Tokenizer, a: Text, b: Text)
    ensures TermShared(TermsOf(tokenizer, a), TermsOf(tokenizer, b)) <==> TokenShared(tokenizer, a, b)
  {
    TermsAreTokens(tokenizer, a);
    TermsAreTokens(tokenizer, b);
  }

  lemma TermsAreTokens(tokenizer: Tokenizer, text: Text)
    ensures forall t :: t in TermsOf(tokenizer, text) <==> t in Counted(tokenizer(text))
  {
    assert forall t :: t in multiset(Counted(tokenizer(text))) <==> t in Counted(tokenizer(text));
  }

  lemma ScoreSign(documents: seq<Indexed>, q: Terms, i: nat)
    requires i < |documents| && AllPositive(documents) && Positive(q)
    ensures Score(documents, q, i) >= 0.0
    ensures Score(documents, q, i) > 0.0 <==> TermShared(q, documents[i].terms)
  {
    SumSign(documents, q, i, q.Keys);
  }

  /** A document matches exactly when it shares a counted token with the query. */
  lemma MatchesIffTokenShared(tokenizer: Tokenizer, digest: Digest, documents: seq<Document>, index: Index, query: Text,
                              i: nat)
    requires WellIndexed(tokenizer, digest, documents, index) && i < |documents|
    ensures Score(index.documents, TermsOf(tokenizer, query), i) >= 0.0
    ensures Score(index.documents, TermsOf(tokenizer, query), i) > 0.0 <==>
      TokenShared(tokenizer, query, documents[i].text)
  {
    IndexIsPositive(tokenizer, digest, documents, index);
    ScoreSign(index.documents, TermsOf(tokenizer, query), i);
    assert index.documents[i] == IndexedAs(tokenizer, digest, documents[i]);
    SharedTermsAreTokens(tokenizer, query, documents[i].text);
  }

  lemma IndexIsPositive(tokenizer: Tokenizer, digest: Digest, documents: seq<Document>, index: Index)
    requires WellIndexed(tokenizer, digest, documents, index)
    ensures AllPositive(index.documents)
  {
    forall i | 0 <= i < |index.documents| ensures Positive(index.documents[i].terms) {
      assert index.documents[i] == IndexedAs(tokenizer, digest, documents[i]);
    }
  }

  // ---------- the score as it is computed ----------

  /** What one term adds, read off the tables. */
  method ScoreTerm(index: Index, q: Terms, i: nat, t: Token) returns (more: real)
    requires i < |index.documents| && AllPositive(index.documents) && t in q
    requires index.avgLength == AverageLength(index.documents)
    requires FrequenciesCounted(index.documents, index.documentFrequency)
    ensures more == Contribution(index.documents, q, i, t)
  {
    var tf := if t in index.documents[i].terms then index.documents[i].terms[t] else 0;
    if tf == 0 {
      return 0.0;
    }
    OccurringHasFrequency(index.documents, t, i);
    FrequencyAtMostAll(index.documents, t);
    var weight := Weight(|index.documents|, index.documentFrequency[t], tf, index.documents[i].length, index.avgLength);
    more := weight * q[t] as real;
  }

  /** The accumulation over the query terms, whatever order the map yields them in. */
  method ScoreDocument(index: Index, q: Terms, i: nat) returns (score: real)
    requires i < |index.documents| && AllPositive(index.documents)
    requires index.avgLength == AverageLength(index.documents)
    requires FrequenciesCounted(index.documents, index.documentFrequency)
    ensures score == Score(index.documents, q, i)
  {
    score := 0.0;
    var rest := q.Keys;
    while rest != {}
      invariant rest <= q.Keys
      invariant score + SumOver(index.documents, q, i, rest) == Score(index.documents, q, i)
      decreases |rest|
    {
      var t :| t in rest;
      SumInAnyOrder(index.documents, q, i, rest, t);
      var more := ScoreTerm(index, q, i, t);
      score := score + more;
      rest := rest - {t};
    }
  }

  // ---------- ranking ----------

  datatype Scored = Scored(index: nat, score: real)

  /** Higher score first, the earlier document first among equals. */
  predicate Before(a: Scored, b: Scored) {
    a.score > b.score || (a.score == b.score && a.index < b.index)
  }

  lemma BeforeOrders(s: set<Scored>)
    ensures StrictOrder(Before) && Comparable(Before, s)
  {
  }

  ghost function Ranked(s: set<Scored>): (r: seq<Scored>)
    ensures Sorted(Before, r) && Elements(r) == s
  {
    BeforeOrders(s);
    SortedSet(Before, s)
  }

  /** The documents with a score, each once. */
  ghost function Matching(documents: seq<Indexed>, q: Terms): set<Scored> {
    set i: nat | i < |documents| && Score(documents, q, i) != 0.0 :: Scored(i, Score(documents, q, i))
  }

  function Bound(limit: int, maxLimit: nat): nat {
    if limit <= 0 then MAX_RESULTS else if limit > maxLimit then maxLimit else limit
  }

  ghost function FirstOf(r: seq<Scored>, n: nat): seq<Scored> {
    if |r| > n then r[..n] else r
  }

  function ToMatch(d: Indexed, score: real): Match {
    Match(d.document.id, d.document.source, d.hash, score, Truncated(d.document.text, MAX_EXCERPT))
  }

  ghost function ToMatches(documents: seq<Indexed>, r: seq<Scored>): seq<Match>
    requires forall x :: x in r ==> x.index < |documents|
  {
    seq(|r|, k requires 0 <= k < |r| => ToMatch(documents[r[k].index], r[k].score))
  }

  /** The first documents under the ranking. */
  ghost function TopMatches(documents: seq<Indexed>, q: Terms, n: nat): seq<Scored> {
    FirstOf(Ranked(Matching(documents, q)), n)
  }

  lemma TopMatchesAreDocuments(documents: seq<Indexed>, q: Terms, n: nat)
    ensures forall x :: x in TopMatches(documents, q, n) ==>
      x.index < |documents| && x.score == Score(documents, q, x.index)
  {
    var r := Ranked(Matching(documents, q));
    forall x | x in TopMatches(documents, q, n) ensures x in Matching(documents, q) {
      assert x in r && x in Elements(r);
    }
  }

  ghost function LexicalMatches(documents: seq<Indexed>, q: Terms, n: nat): seq<Match> {
    TopMatchesAreDocuments(documents, q, n);
    ToMatches(documents, TopMatches(documents, q, n))
  }

  /** Sorting a list of distinct scored documents ranks their set. */
  method SortScored(list: seq<Scored>) returns (r: seq<Scored>)
    requires Distinct(list)
    ensures r == Ranked(Elements(list))
  {
    BeforeOrders(Elements(list));
    r := SortSlice(Before, list);
    SortedListIsSortedSet(Before, r, Elements(list));
  }

  method ScoreAll(index: Index, q: Terms) returns (list: seq<Scored>)
    requires AllPositive(index.documents) && index.documents != []
    requires index.avgLength == AverageLength(index.documents)
    requires FrequenciesCounted(index.documents, index.documentFrequency)
    ensures Distinct(list) && Elements(list) == Matching(index.documents, q)
  {
    list := [];
    for i := 0 to |index.documents|
      invariant forall x :: x in list <==>
        x.index < i && x.score == Score(index.documents, q, x.index) && x.score != 0.0
      invariant Distinct(list)
    {
      var score := ScoreDocument(index, q, i);
      if score == 0.0 {
        continue;
      }
      list := list + [Scored(i, score)];
    }
  }

  /** retrieve: the first documents under (score descending, index ascending). */
  method RetrieveLexical(tokenizer: Tokenizer, ghost digest: Digest, ghost documents: seq<Document>, index: Index,
      query: Text, limit: int, maxLimit: nat) returns (ranked: seq<Scored>)
    requires WellIndexed(tokenizer, digest, documents, index)
    ensures ranked == TopMatches(index.documents, TermsOf(tokenizer, query), Bound(limit, maxLimit))
  {
    IndexIsPositive(tokenizer, digest, documents, index);
    var bound := Bound(limit, maxLimit);
    var q := TermCounts(tokenizer, query);
    if |q| == 0 {
      NothingMatches(index.documents, q);
      return [];
    }
    var list := ScoreAll(index, q);
    ranked := SortScored(list);
    if |ranked| > bound {
      ranked := ranked[..bound];
    }
  }

  lemma NothingMatches(documents: seq<Indexed>, q: Terms)
    requires q == map[]
    ensures Ranked(Matching(documents, q)) == []
  {
    assert Matching(documents, q) == {};
    SameEmptiness<Scored>(Ranked({}), []);
  }

  method Excerpts(index: Index, ranked: seq<Scored>) returns (matches: seq<Match>)
    requires forall x :: x in ranked ==> x.index < |index.documents|
    ensures matches == ToMatches(index.documents, ranked)
  {
    matches := [];
    for k := 0 to |ranked|
      invariant |matches| == k
      invariant forall j | 0 <= j < k :: matches[j] == ToMatch(index.documents[ranked[j].index], ranked[j].score)
    {
      var d := index.documents[ranked[k].index];
      var text := Truncate(d.document.text, MAX_EXCERPT);
      matches := matches + [Match(d.document.id, d.document.source, d.hash, ranked[k].score, text)];
    }
  }

  /** LocalRetriever.Retrieve. */
  method Retrieve(tokenizer: Tokenizer, ghost digest: Digest, ghost documents: seq<Document>, index: Index, query: Text,
                  limit: int)
    returns (matches: seq<Match>)
    requires WellIndexed(tokenizer, digest, documents, index)
    ensures matches == LexicalMatches(index.documents, TermsOf(tokenizer, query), Bound(limit, MAX_RESULTS))
  {
    TopMatchesAreDocuments(index.documents, TermsOf(tokenizer, query), Bound(limit, MAX_RESULTS));
    var ranked := RetrieveLexical(tokenizer, digest, documents, index, query, limit, MAX_RESULTS);
    matches := Excerpts(index, ranked);
  }

  /** Nothing that matches and was left out belongs before anything that was returned. */
  lemma TopMatchesAreBest(documents: seq<Indexed>, q: Terms, n: nat, i: nat)
    requires i < |documents| && Score(documents, q, i) != 0.0
    ensures |TopMatches(documents, q, n)| <= n
    ensures Scored(i, Score(documents, q, i)) in TopMatches(documents, q, n)
      || (|TopMatches(documents, q, n)| == n
          && forall x :: x in TopMatches(documents, q, n) ==> Before(x, Scored(i, Score(documents, q, i))))
  {
    var all := Ranked(Matching(documents, q));
    var me := Scored(i, Score(documents, q, i));
    assert me in Elements(all);
    var k :| 0 <= k < |all| && all[k] == me;
    if |all| > n && k >= n {
      forall x | x in all[..n] ensures Before(x, me) {
        var j :| 0 <= j < n && all[..n][j] == x;
        assert all[j] == x;
      }
    }
  }

  // ---------- what the ranking prefers ----------

  lemma LongerHasLargerNorm(short: nat, long: nat, avg: real)
    requires short < long
    ensures LengthNorm(short, avg) < LengthNorm(long, avg)
  {
    var m := if avg > 1.0 then avg else 1.0;
    var x, y := short as real, long as real;
    CrossProducts(x, m, y, m);
  }

  lemma SmallerWithLargerDivisor(a: real, b: real, d: real)
    requires a > 0.0 && 0.0 < b < d
    ensures a / d < a / b
  {
    assert a * b < a * d;
    CrossProducts(a, d, a, b);
  }

  /** The same term in a longer document weighs less. */
  lemma LongerWeighsLess(n: nat, df: nat, tf: nat, short: nat, long: nat, avg: real)
    requires df <= n && tf > 0 && short < long
    ensures Weight(n, df, tf, long, avg) < Weight(n, df, tf, short, avg)
  {
    LongerHasLargerNorm(short, long, avg);
    var above := Rarity(n, df) * (tf as real * 2.2);
    var x := tf as real + 1.2 * (0.25 + 0.75 * LengthNorm(short, avg));
    var y := tf as real + 1.2 * (0.25 + 0.75 * LengthNorm(long, avg));
    assert above > 0.0;
    SmallerWithLargerDivisor(above, x, y);
  }

  lemma RarityLeads(n: nat, few: nat, many: nat, x: real, y: real, tf: real, k: real)
    requires few < many <= n && tf > 0.0 && k > 0.0
    requires x == Rarity(n, few) * (tf * 2.2) && y == Rarity(n, many) * (tf * 2.2)
    ensures y / (tf + k) < x / (tf + k)
  {
    FewerIsRarer(n, few, many);
    var m := tf * 2.2;
    assert x - y == (Rarity(n, few) - Rarity(n, many)) * m;
    assert (Rarity(n, few) - Rarity(n, many)) * m > 0.0;
    var d := tf + k;
    assert y * d < x * d by { assert (x - y) * d > 0.0; }
    CrossProducts(y, d, x, d);
  }

  /** A term found in fewer documents weighs more. */
  lemma RarerWeighsMore(n: nat, few: nat, many: nat, tf: nat, length: nat, avg: real)
    requires few < many <= n && tf > 0
    ensures Weight(n, many, tf, length, avg) < Weight(n, few, tf, length, avg)
  {
    var k := 1.2 * (0.25 + 0.75 * LengthNorm(length, avg));
    RarityLeads(n, few, many, Rarity(n, few) * (tf as real * 2.2), Rarity(n, many) * (tf as real * 2.2), tf as real, k);
  }

  /** How many matches come back: all there are, up to the requested number, which is 5 when none or more
      than 5 are asked for. */
  lemma RetrievedCount(documents: seq<Indexed>, q: Terms, limit: int)
    ensures |LexicalMatches(documents, q, Bound(limit, MAX_RESULTS))|
         == Min(if 1 <= limit <= 5 then limit else 5, |Matching(documents, q)|)
  {
    var all := Ranked(Matching(documents, q));
    SortedIsDistinct(all);
    DistinctCount(all);
  }

  lemma SortedIsDistinct(all: seq<Scored>)
    requires Sorted(Before, all)
    ensures Distinct(all)
  {
    forall i, j | 0 <= i < j < |all| ensures all[i] != all[j] {
      assert Before(all[i], all[j]);
    }
  }

  /** The returned matches, best score first and the earlier document first among equals; each describes
      its document, with the longest valid prefix of its text that fits the excerpt. */
  lemma MatchesAreInOrder(documents: seq<Indexed>, q: Terms, n: nat, k: nat, l: nat) returns (i: nat, j: nat)
    requires k < l < |LexicalMatches(documents, q, n)|
    ensures i < |documents| && j < |documents| && i != j
    ensures var a, b := LexicalMatches(documents, q, n)[k], LexicalMatches(documents, q, n)[l];
      Describes(a, documents[i], Score(documents, q, i)) && Describes(b, documents[j], Score(documents, q, j))
      && (a.score > b.score || (a.score == b.score && i < j))
  {
    var top := TopMatches(documents, q, n);
    TopMatchesAreDocuments(documents, q, n);
    assert top[k] in top && top[l] in top;
    i, j := top[k].index, top[l].index;
    assert Before(top[k], top[l]);
  }

  predicate Describes(m: Match, d: Indexed, score: real) {
    m.id == d.document.id && m.source == d.document.source && m.hash == d.hash && m.score == score
    && m.text == Truncated(d.document.text, 4096)
  }

  /** A term asked for twice as often contributes twice as much. */
  lemma QueryCountScales(documents: seq<Indexed>, q: Terms, i: nat, t: Token)
    requires i < |documents| && t in q
    ensures Contribution(documents, q[t := 2 * q[t]], i, t) == 2.0 * Contribution(documents, q, i, t)
  {
    assert (2 * q[t]) as real == 2.0 * q[t] as real;
  }
}
