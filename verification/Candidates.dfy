/**
 Which documents are worth embedding (agent/history_retrieval.go): the top lexical matches, filled up
 with the newest of the rest.
 */
module Candidates {
  import opened Lists
  import opened Sorting
  import opened Retrieval
  import opened Ranking

  const MAX_SEMANTIC_DOCUMENTS: nat := 512

  /** min(limit, n) documents: all of the top ones, and the newest of the others. */
  ghost predicate IsCandidateSet(top: set<nat>, n: nat, limit: nat, s: set<nat>) {
    |s| == Min(limit, n) && top <= s
    && (forall i | i in s :: i < n)
    && forall i, j | i in s && i !in top && i < j < n :: j in s
  }

  /** The filling loop. */
  ghost function Fill(s: set<nat>, i: nat, limit: nat): set<nat>
    decreases i
  {
    if i == 0 || |s| >= limit then s else Fill(s + {i - 1}, i - 1, limit)
  }

  lemma {:induction false} FillMakesCandidates(top: set<nat>, s: set<nat>, i: nat, n: nat, limit: nat)
    requires i <= n && top <= s && |s| <= limit
    requires forall k | k in s :: k < n
    requires forall k | k in s && k !in top :: k >= i
    requires forall k | i <= k < n :: k in s
    ensures IsCandidateSet(top, n, limit, Fill(s, i, limit))
    decreases i
  {
    if i == 0 {
      assert s == UpTo(n);
    } else if |s| < limit {
      FillMakesCandidates(top, s + {i - 1}, i - 1, n, limit);
    } else {
      WithinBounds(s, n);
    }
  }

  /** The description fits one set only. */
  lemma CandidateSetIsUnique(top: set<nat>, n: nat, limit: nat, a: set<nat>, b: set<nat>)
    requires IsCandidateSet(top, n, limit, a) && IsCandidateSet(top, n, limit, b)
    ensures a == b
  {
    if !(a <= b) {
      var x :| x in a && x !in b;
      forall y | y in b ensures y in a {}
      Subset(b, a);
    }
    Subset(a, b);
  }

  predicate Ascending(a: nat, b: nat) {
    a < b
  }

  ghost function InOrder(s: set<nat>): (r: seq<nat>)
    ensures Sorted(Ascending, r) && Elements(r) == s
  {
    SortedSet(Ascending, s)
  }

  /** The indices of the first lexical matches. */
  ghost function TopIndices(ranked: seq<Scored>, n: nat): set<nat> {
    set k: nat | k < |ranked| && k < n :: ranked[k].index
  }

  /** The candidates of a ranking over n documents. */
  ghost function CandidatesOf(ranked: seq<Scored>, n: nat, limit: nat): seq<nat> {
    InOrder(Fill(TopIndices(ranked, limit / 2), n, limit))
  }

  ghost predicate DocumentIdsDistinct(documents: seq<Indexed>) {
    forall i, j | 0 <= i < j < |documents| :: documents[i].document.id != documents[j].document.id
  }

  method IndexById(documents: seq<Indexed>) returns (byId: map<string, nat>)
    requires DocumentIdsDistinct(documents)
    ensures forall i | 0 <= i < |documents| :: documents[i].document.id in byId && byId[documents[i].document.id] == i
  {
    byId := map[];
    for i := 0 to |documents|
      invariant forall j | 0 <= j < i :: documents[j].document.id in byId && byId[documents[j].document.id] == j
    {
      byId := byId[documents[i].document.id := i];
    }
  }

  method Listed(s: set<nat>) returns (list: seq<nat>)
    ensures Distinct(list) && Elements(list) == s
  {
    list := [];
    var rest := s;
    while rest != {}
      invariant rest <= s
      invariant forall x :: x in list <==> x in s && x !in rest
      invariant Distinct(list)
      decreases |rest|
    {
      var x :| x in rest;
      list := list + [x];
      rest := rest - {x};
    }
  }

  lemma TopIndicesAreFew(ranked: seq<Scored>, n: nat)
    ensures |TopIndices(ranked, n)| <= n
  {
    if n > 0 {
      TopIndicesAreFew(ranked, n - 1);
      if n - 1 < |ranked| {
        assert TopIndices(ranked, n) == TopIndices(ranked, n - 1) + {ranked[n - 1].index};
      } else {
        assert TopIndices(ranked, n) == TopIndices(ranked, n - 1);
      }
    } else {
      assert TopIndices(ranked, n) == {};
    }
  }

  /** The candidates are what they should be: distinct ascending indices of the described set. */
  lemma CandidatesAreAsDescribed(ranked: seq<Scored>, n: nat, limit: nat)
    requires forall x :: x in ranked ==> x.index < n
    ensures Sorted(Ascending, CandidatesOf(ranked, n, limit))
    ensures IsCandidateSet(TopIndices(ranked, limit / 2), n, limit, Elements(CandidatesOf(ranked, n, limit)))
  {
    var top := TopIndices(ranked, limit / 2);
    TopIndicesAreFew(ranked, limit / 2);
    forall k | k in top ensures k < n {
      var p: nat :| p < |ranked| && p < limit / 2 && ranked[p].index == k;
      assert ranked[p] in ranked;
    }
    FillMakesCandidates(top, top, n, n, limit);
  }

  /** The first lexical matches, found again by their ids. */
  method TopLexical(documents: seq<Indexed>, lexical: seq<Match>, ghost ranked: seq<Scored>, n: nat)
    returns (selected: set<nat>)
    requires DocumentIdsDistinct(documents)
    requires forall x :: x in ranked ==> x.index < |documents|
    requires lexical == ToMatches(documents, ranked)
    ensures selected == TopIndices(ranked, n)
  {
    selected := {};
    var byId := IndexById(documents);
    var i := 0;
    while i < |lexical| && i < n
      invariant i <= |lexical| && i <= n
      invariant selected == TopIndices(ranked, i)
    {
      assert lexical[i] == ToMatch(documents[ranked[i].index], ranked[i].score);
      if lexical[i].id in byId {
        selected := selected + {byId[lexical[i].id]};
      }
      TopIndicesNext(ranked, i);
      i := i + 1;
    }
    assert selected == TopIndices(ranked, n);
  }

  lemma TopIndicesNext(ranked: seq<Scored>, i: nat)
    requires i < |ranked|
    ensures TopIndices(ranked, i + 1) == TopIndices(ranked, i) + {ranked[i].index}
  {
  }

  /** From the newest document down until there are enough. */
  method FillNewest(top: set<nat>, n: nat, limit: nat) returns (selected: set<nat>)
    ensures selected == Fill(top, n, limit)
  {
    selected := top;
    var i: nat := n;
    while i > 0 && |selected| < limit
      invariant i <= n
      invariant Fill(selected, i, limit) == Fill(top, n, limit)
    {
      i := i - 1;
      selected := selected + {i};
    }
  }

  method SemanticCandidateIndices(documents: seq<Indexed>, lexical: seq<Match>, ghost ranked: seq<Scored>, limit: nat)
    returns (indices: seq<nat>)
    requires DocumentIdsDistinct(documents)
    requires forall x :: x in ranked ==> x.index < |documents|
    requires lexical == ToMatches(documents, ranked)
    ensures indices == CandidatesOf(ranked, |documents|, limit)
  {
    var selected := TopLexical(documents, lexical, ranked, limit / 2);
    selected := FillNewest(selected, |documents|, limit);
    var list := Listed(selected);
    indices := SortSlice(Ascending, list);
    SortedListIsSortedSet(Ascending, indices, selected);
  }
}
