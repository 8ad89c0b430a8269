/**
 The retriever with its vector cache (agent/history_retrieval.go). Whatever the cache holds, semantic
 retrieval answers what SemanticSpec computes from scratch, and fails as it fails.
 */
module SemanticCache {
  import opened Wrappers
  import opened Utf8
  import opened Retrieval
  import opened Candidates
  import opened Vectors
  import opened SemanticSpec

  type Cache = map<string, Vector>

  /** Every entry is the unit vector of the text it is filed under. */
  ghost predicate Faithful(e: Engine, m: Cache) {
    forall t: Text :: HashOf(e, t) in m ==> VectorOf(e, t) == Some(m[HashOf(e, t)])
  }

  ghost predicate OneDimension(m: Cache) {
    forall a, b | a in m && b in m :: |m[a]| == |m[b]|
  }

  ghost predicate CacheFits(e: Engine, m: Cache) {
    Faithful(e, m) && OneDimension(m) && |m| <= MAX_SEMANTIC_DOCUMENTS
  }

  // ---------- gathering ----------

  /** The hashes of the candidates. */
  ghost function Active(docs: seq<Indexed>, sel: seq<nat>): set<string>
    requires InRange(docs, sel)
  {
    set k | 0 <= k < |sel| :: docs[sel[k]].hash
  }

  lemma ActiveIsSmall(docs: seq<Indexed>, sel: seq<nat>)
    requires InRange(docs, sel)
    ensures |Active(docs, sel)| <= |sel|
  {
    if sel == [] {
      assert Active(docs, sel) == {};
    } else {
      var front := sel[..|sel| - 1];
      ActiveIsSmall(docs, front);
      assert Active(docs, sel) == Active(docs, front) + {docs[sel[|sel| - 1]].hash};
    }
  }

  /** The candidates still to embed: the texts to send, their hashes, and where they come from. */
  datatype Pending = Pending(inputs: seq<Text>, ids: seq<string>)

  ghost predicate PendingFits(e: Engine, docs: seq<Indexed>, sel: seq<nat>, cache: Cache, p: Pending, origin: seq<nat>)
    requires InRange(docs, sel)
  {
    |p.inputs| == |p.ids| == |origin|
    && forall j | 0 <= j < |origin| ::
         origin[j] < |sel|
         && p.inputs[j] == Input(TextAt(docs, sel[origin[j]]))
         && p.ids[j] == docs[sel[origin[j]]].hash
         && p.ids[j] !in cache
  }

  ghost predicate Gathered(docs: seq<Indexed>, sel: seq<nat>, cache: Cache, active: set<string>, known: Cache,
                           p: Pending)
    requires InRange(docs, sel)
  {
    active == Active(docs, sel)
    && (forall h :: h in known <==> h in cache && h in active)
    && (forall h | h in known :: known[h] == cache[h])
    && forall k | 0 <= k < |sel| :: docs[sel[k]].hash in known || docs[sel[k]].hash in p.ids
  }

  method Gather(e: Engine, docs: seq<Indexed>, sel: seq<nat>, cache: Cache)
    returns (active: set<string>, known: Cache, p: Pending, ghost origin: seq<nat>)
    requires InRange(docs, sel)
    ensures Gathered(docs, sel, cache, active, known, p) && PendingFits(e, docs, sel, cache, p, origin)
  {
    active, known, p, origin := {}, map[], Pending([], []), [];
    for k := 0 to |sel|
      invariant Gathered(docs, sel[..k], cache, active, known, p)
      invariant PendingFits(e, docs, sel, cache, p, origin)
    {
      var d := docs[sel[k]];
      ghost var was, before, waiting := active, known, p;
      active := active + {d.hash};
      if d.hash in cache {
        known := known[d.hash := cache[d.hash]];
      } else {
        var text := Truncate(d.document.text, MAX_EXCERPT);
        p := Pending(p.inputs + [text], p.ids + [d.hash]);
        origin := origin + [k];
      }
      GatheredNext(docs, sel, k, cache, was, before, waiting, known, p);
    }
    assert sel[..|sel|] == sel;
  }

  lemma GatheredNext(docs: seq<Indexed>, sel: seq<nat>, k: nat, cache: Cache, active: set<string>, known: Cache,
                     p: Pending, known': Cache, p': Pending)
    requires InRange(docs, sel) && k < |sel|
    requires Gathered(docs, sel[..k], cache, active, known, p)
    requires docs[sel[k]].hash in cache ==> known' == known[docs[sel[k]].hash := cache[docs[sel[k]].hash]] && p' == p
    requires docs[sel[k]].hash !in cache ==> known' == known && p'.ids == p.ids + [docs[sel[k]].hash]
    ensures Gathered(docs, sel[..k + 1], cache, active + {docs[sel[k]].hash}, known', p')
  {
    assert sel[..k + 1] == sel[..k] + [sel[k]];
    assert Active(docs, sel[..k + 1]) == active + {docs[sel[k]].hash} by {
      assert forall j | 0 <= j < k :: sel[..k + 1][j] == sel[..k][j];
      assert sel[..k + 1][k] == sel[k];
    }
    forall j | 0 <= j < k + 1 ensures docs[sel[j]].hash in known' || docs[sel[j]].hash in p'.ids {
      if j < k {
        assert sel[..k][j] == sel[j];
      }
    }
  }

  /** Entries of documents that are no candidates any more are dropped. */
  method Evict(cache: Cache, active: set<string>) returns (kept: Cache)
    ensures forall h :: h in kept <==> h in cache && h in active
    ensures forall h | h in kept :: kept[h] == cache[h]
  {
    kept := cache;
    var rest := cache.Keys;
    while rest != {}
      invariant rest <= cache.Keys
      invariant forall h :: h in kept <==> h in cache && (h in rest || h in active)
      invariant forall h | h in kept :: kept[h] == cache[h]
      decreases |rest|
    {
      var key :| key in rest;
      if key !in active {
        kept := kept - {key};
      }
      rest := rest - {key};
    }
  }

  // ---------- embedding ----------

  /** The embedder's answer to a batch: every text embedded, or an error. */
  function Embed(e: Engine, texts: seq<Text>): (r: Option<seq<Vector>>)
    ensures r.Some? <==> forall j | 0 <= j < |texts| :: e.embed(texts[j]).Some?
    ensures r.Some? ==> |r.value| == |texts| && forall j | 0 <= j < |texts| :: Some(r.value[j]) == e.embed(texts[j])
  {
    if texts == [] then Some([])
    else
      var front := Embed(e, texts[..|texts| - 1]);
      if front.None? || e.embed(texts[|texts| - 1]).None? then None
      else Some(front.value + [e.embed(texts[|texts| - 1]).value])
  }

  lemma FaithfulAdd(e: Engine, m: Cache, t: Text)
    requires ValidEngine(e) && Faithful(e, m) && VectorOf(e, t).Some?
    ensures Faithful(e, m[HashOf(e, t) := VectorOf(e, t).value])
  {
    var more := m[HashOf(e, t) := VectorOf(e, t).value];
    forall s: Text | HashOf(e, s) in more ensures VectorOf(e, s) == Some(more[HashOf(e, s)]) {
      if HashOf(e, s) == HashOf(e, t) {
        assert s == t;
      }
    }
  }

  lemma FaithfulPart(e: Engine, m: Cache, part: Cache)
    requires Faithful(e, m)
    requires forall h | h in part :: h in m && part[h] == m[h]
    ensures Faithful(e, part)
  {
    forall t: Text | HashOf(e, t) in part ensures VectorOf(e, t) == Some(part[HashOf(e, t)]) {}
  }

  /** The state while the new vectors are filed. */
  ghost predicate Filing(e: Engine, docs: seq<Indexed>, sel: seq<nat>, m: Cache)
    requires InRange(docs, sel)
  {
    Faithful(e, m) && OneDimension(m) && m.Keys <= Active(docs, sel)
  }

  /** A candidate whose vector is missing or of another dimension than a filed one: no agreement. */
  lemma Disagreement(e: Engine, docs: seq<Indexed>, sel: seq<nat>, m: Cache, k: nat)
    requires InRange(docs, sel) && HashesRight(e, docs) && Filing(e, docs, sel, m) && k < |sel|
    requires VectorOf(e, TextAt(docs, sel[k])).None?
      || exists h :: h in m && |m[h]| != |VectorOf(e, TextAt(docs, sel[k])).value|
    ensures !AllUsable(e, docs, sel)
  {
    if VectorOf(e, TextAt(docs, sel[k])).Some? {
      var h :| h in m && |m[h]| != |VectorOf(e, TextAt(docs, sel[k])).value|;
      assert h in Active(docs, sel);
      var j :| 0 <= j < |sel| && docs[sel[j]].hash == h;
      assert HashOf(e, TextAt(docs, sel[j])) in m;
    }
  }

  lemma FilingAdd(e: Engine, docs: seq<Indexed>, sel: seq<nat>, m: Cache, k: nat)
    requires ValidEngine(e) && InRange(docs, sel) && HashesRight(e, docs) && Filing(e, docs, sel, m) && k < |sel|
    requires var v := VectorOf(e, TextAt(docs, sel[k])); v.Some? && forall h | h in m :: |m[h]| == |v.value|
    ensures Filing(e, docs, sel, m[docs[sel[k]].hash := VectorOf(e, TextAt(docs, sel[k])).value])
  {
    FaithfulAdd(e, m, TextAt(docs, sel[k]));
    assert docs[sel[k]].hash in Active(docs, sel);
  }

  method UnitVector(e: Engine, ghost text: Text, vector: Vector) returns (r: Option<Vector>)
    requires ValidEngine(e) && e.embed(Input(text)) == Some(vector)
    ensures r == VectorOf(e, text)
  {
    r := NormalizeEmbeddingVector(e.root, vector);
  }

  /** The dimension check against the first vector the map yields: one stands for all. */
  method SameDimension(cache: Cache, vector: Vector) returns (ok: bool)
    requires OneDimension(cache)
    ensures ok <==> forall h | h in cache :: |cache[h]| == |vector|
  {
    if |cache| == 0 {
      return true;
    }
    var first :| first in cache;
    ok := |vector| == |cache[first]|;
  }

  /** Filing one vector, checked against the dimension of any vector filed before. */
  method FileOne(e: Engine, docs: seq<Indexed>, sel: seq<nat>, cache: Cache, ghost k: nat, id: string, vector: Vector)
    returns (m: Cache, ok: bool)
    requires ValidEngine(e) && InRange(docs, sel) && HashesRight(e, docs) && Filing(e, docs, sel, cache) && k < |sel|
    requires id == docs[sel[k]].hash && e.embed(Input(TextAt(docs, sel[k]))) == Some(vector)
    ensures Filing(e, docs, sel, m) && (forall h | h in cache :: h in m)
    ensures ok ==> id in m && m.Keys == cache.Keys + {id}
    ensures !ok ==> !AllUsable(e, docs, sel)
  {
    m := cache;
    var normalized := UnitVector(e, TextAt(docs, sel[k]), vector);
    if normalized.None? {
      Disagreement(e, docs, sel, cache, k);
      return m, false;
    }
    var fits := SameDimension(cache, normalized.value);
    if !fits {
      Disagreement(e, docs, sel, cache, k);
      return m, false;
    }
    FilingAdd(e, docs, sel, cache, k);
    m := cache[id := normalized.value];
    ok := true;
  }

  method FileVectors(e: Engine, docs: seq<Indexed>, sel: seq<nat>, cache: Cache, p: Pending, ghost origin: seq<nat>,
                     vectors: seq<Vector>)
    returns (m: Cache, ok: bool)
    requires ValidEngine(e) && InRange(docs, sel) && HashesRight(e, docs) && Filing(e, docs, sel, cache)
    requires PendingFits(e, docs, sel, cache, p, origin)
    requires |vectors| == |p.inputs| && forall j | 0 <= j < |vectors| :: Some(vectors[j]) == e.embed(p.inputs[j])
    ensures Filing(e, docs, sel, m)
    ensures ok ==> (forall h | h in cache :: h in m) && forall j | 0 <= j < |p.ids| :: p.ids[j] in m
    ensures !ok ==> !AllUsable(e, docs, sel)
  {
    m := cache;
    for j := 0 to |p.ids|
      invariant Filing(e, docs, sel, m)
      invariant forall h | h in cache :: h in m
      invariant forall i | 0 <= i < j :: p.ids[i] in m
    {
      var filed;
      m, filed := FileOne(e, docs, sel, m, origin[j], p.ids[j], vectors[j]);
      if !filed {
        return m, false;
      }
    }
    ok := true;
  }

  /** When all candidates are filed they are all usable, and their vectors are the cache's. */
  lemma FiledIsUsable(e: Engine, docs: seq<Indexed>, sel: seq<nat>, m: Cache)
    requires InRange(docs, sel) && HashesRight(e, docs) && Filing(e, docs, sel, m)
    requires forall k | 0 <= k < |sel| :: docs[sel[k]].hash in m
    ensures AllEmbedded(e, docs, sel) && AllUsable(e, docs, sel) && m.Keys == Active(docs, sel)
    ensures forall k | 0 <= k < |sel| :: VectorOf(e, TextAt(docs, sel[k])) == Some(m[docs[sel[k]].hash])
  {
    forall k | 0 <= k < |sel| ensures VectorOf(e, TextAt(docs, sel[k])) == Some(m[docs[sel[k]].hash]) {
      assert HashOf(e, TextAt(docs, sel[k])) in m;
    }
  }

  /** Whether the embedder fails on the candidates shows on the pending ones alone. */
  lemma PendingDecides(e: Engine, docs: seq<Indexed>, sel: seq<nat>, cache: Cache, active: set<string>, known: Cache,
                       p: Pending, origin: seq<nat>)
    requires ValidEngine(e) && InRange(docs, sel) && HashesRight(e, docs) && Faithful(e, cache)
    requires Gathered(docs, sel, cache, active, known, p) && PendingFits(e, docs, sel, cache, p, origin)
    ensures AllEmbedded(e, docs, sel) <==> Embed(e, p.inputs).Some?
  {
    if Embed(e, p.inputs).Some? {
      forall k | 0 <= k < |sel| ensures e.embed(Input(TextAt(docs, sel[k]))).Some? {
        var text := TextAt(docs, sel[k]);
        if docs[sel[k]].hash in known {
          assert HashOf(e, text) in cache;
        } else {
          var j :| 0 <= j < |p.ids| && p.ids[j] == docs[sel[k]].hash;
          assert HashOf(e, TextAt(docs, sel[origin[j]])) == HashOf(e, text);
          assert e.embed(p.inputs[j]).Some?;
        }
      }
    }
  }
}
