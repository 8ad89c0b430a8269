/**
 The embedding client (agent/embeddings.go): texts go out in batches of 32, each reply names the slot of
 each of its vectors, and every text ends up with its own vector.
 */
module Embeddings {
  import opened Wrappers
  import opened Utf8
  import opened Sorting
  import opened Vectors
  import opened SemanticSpec

  const MAX_BATCH: nat := 32
  const MAX_INPUTS: nat := 1024
  const MAX_FLOAT32: real := 340282346638528859811704183484516925440.0

  /** One item of a reply. */
  datatype Item = Item(index: Option<int>, embedding: Vector)

  predicate FiniteFloats(v: Vector) {
    forall i | 0 <= i < |v| :: -MAX_FLOAT32 <= v[i] <= MAX_FLOAT32
  }

  predicate ItemFits(item: Item, n: nat) {
    item.index.Some? && 0 <= item.index.value < n
    && 0 < |item.embedding| <= MAX_DIMENSIONS
    && FiniteFloats(item.embedding) && Norm(item.embedding) != 0.0
  }

  /** A reply that names every slot at most once, with vectors of one dimension. */
  ghost predicate ReplyFits(items: seq<Item>, n: nat) {
    |items| == n
    && (forall j | 0 <= j < |items| :: ItemFits(items[j], n))
    && (forall i, j | 0 <= i < j < |items| :: items[i].index != items[j].index)
    && forall i, j | 0 <= i < j < |items| :: |items[i].embedding| == |items[j].embedding|
  }

  /** The unit vector the reply gives to slot k. */
  ghost predicate Gives(root: real -> real, items: seq<Item>, k: nat, v: Vector) {
    exists j | 0 <= j < |items| :: items[j].index == Some(k) && Normalized(root, items[j].embedding) == Some(v)
  }

  /** As many distinct slots as there are slots leave none out. */
  lemma EverySlotIsNamed(items: seq<Item>, n: nat, k: nat)
    requires ReplyFits(items, n) && k < n
    ensures exists j | 0 <= j < n :: items[j].index == Some(k)
  {
    var slots := seq(n, j requires 0 <= j < n => items[j].index.value as nat);
    forall i, j | 0 <= i < j < n ensures slots[i] != slots[j] {
      assert items[i].index != items[j].index;
    }
    DistinctCount<nat>(slots);
    forall s | s in Elements<nat>(slots) ensures s in UpTo(n) {
      var j :| 0 <= j < n && slots[j] == s;
    }
    Subset(Elements<nat>(slots), UpTo(n));
    assert k in Elements<nat>(slots);
    var j :| 0 <= j < n && slots[j] == k;
    assert items[j].index == Some(k);
  }

  /** A slot of the result after the first m items. */
  ghost predicate SlotFits(root: real -> real, items: seq<Item>, m: nat, k: nat, v: Vector)
    requires m <= |items|
  {
    if v == [] then forall j | 0 <= j < m :: items[j].index != Some(k)
    else exists j | 0 <= j < m :: items[j].index == Some(k) && Normalized(root, items[j].embedding) == Some(v)
  }

  ghost predicate ReplyFitsUpTo(items: seq<Item>, m: nat, n: nat)
    requires m <= |items|
  {
    (forall j | 0 <= j < m :: ItemFits(items[j], n))
    && (forall i, j | 0 <= i < j < m :: items[i].index != items[j].index)
    && forall i, j | 0 <= i < j < m :: |items[i].embedding| == |items[j].embedding|
  }

  method NormalizeItem(root: real -> real, embedding: Vector) returns (vector: Option<Vector>)
    requires IsRoot(root) && 0 < |embedding| <= MAX_DIMENSIONS
    ensures vector.Some? <==> FiniteFloats(embedding) && Norm(embedding) != 0.0
    ensures vector.Some? ==> vector == Normalized(root, embedding) && vector.value != []
  {
    for i := 0 to |embedding|
      invariant forall j | 0 <= j < i :: -MAX_FLOAT32 <= embedding[j] <= MAX_FLOAT32
    {
      if embedding[i] > MAX_FLOAT32 || embedding[i] < -MAX_FLOAT32 {
        return None;
      }
    }
    vector := NormalizeEmbeddingVector(root, embedding);
    NormIsNotNegative(embedding);
  }

  ghost predicate SlotsFit(root: real -> real, items: seq<Item>, m: nat, slots: seq<Vector>)
    requires m <= |items|
  {
    forall k | 0 <= k < |slots| :: SlotFits(root, items, m, k, slots[k])
  }

  /** The dimension remembered so far: zero before the first item. */
  ghost predicate DimensionFits(items: seq<Item>, m: nat, dimensions: nat)
    requires m <= |items|
  {
    if m == 0 then dimensions == 0 else dimensions == |items[0].embedding| > 0
  }

  lemma SlotTaken(root: real -> real, items: seq<Item>, m: nat, n: nat, k: nat, v: Vector)
    requires m < |items| && items[m].index == Some(k) && v != [] && SlotFits(root, items, m, k, v)
    ensures !ReplyFits(items, n)
  {
  }

  lemma OtherDimension(items: seq<Item>, m: nat, n: nat)
    requires 0 < m < |items| && |items[m].embedding| != |items[0].embedding|
    ensures !ReplyFits(items, n)
  {
  }

  lemma SlotsNext(root: real -> real, items: seq<Item>, m: nat, slots: seq<Vector>, k: nat, v: Vector)
    requires m < |items| && SlotsFit(root, items, m, slots) && k < |slots| && items[m].index == Some(k)
    requires v != [] && Normalized(root, items[m].embedding) == Some(v)
    ensures SlotsFit(root, items, m + 1, slots[k := v])
  {
    var after := slots[k := v];
    forall i | 0 <= i < |after| ensures SlotFits(root, items, m + 1, i, after[i]) {
      assert SlotFits(root, items, m, i, slots[i]);
      if i != k && slots[i] != [] {
        var j :| 0 <= j < m && items[j].index == Some(i) && Normalized(root, items[j].embedding) == Some(slots[i]);
      }
    }
  }

  lemma ReplyNext(root: real -> real, items: seq<Item>, m: nat, n: nat, dimensions: nat, k: nat)
    requires m < |items| && ReplyFitsUpTo(items, m, n) && ItemFits(items[m], n) && items[m].index == Some(k)
    requires DimensionFits(items, m, dimensions) && (dimensions != 0 ==> |items[m].embedding| == dimensions)
    requires SlotFits(root, items, m, k, [])
    ensures ReplyFitsUpTo(items, m + 1, n)
  {
    forall i, j | 0 <= i < j < m + 1 ensures |items[i].embedding| == |items[j].embedding| {
      if 0 < i {
        assert |items[0].embedding| == |items[i].embedding|;
      }
    }
  }

  /** The checks on one item, and its vector into its slot. */
  method PlaceOne(root: real -> real, items: seq<Item>, m: nat, n: nat, dimensions: nat, result: array<Vector>)
    returns (ok: bool)
    requires IsRoot(root) && m < |items| && |items| == n == result.Length
    requires ReplyFitsUpTo(items, m, n) && DimensionFits(items, m, dimensions) && SlotsFit(root, items, m, result[..])
    modifies result
    ensures ok ==>
      ReplyFitsUpTo(items, m + 1, n) && |items[m].embedding| > 0 && DimensionFits(items, m + 1, |items[m].embedding|)
    ensures ok ==> SlotsFit(root, items, m + 1, result[..])
    ensures !ok ==> !ReplyFits(items, n)
  {
    var item := items[m];
    if item.index.None? || item.index.value < 0 || item.index.value >= n {
      assert !ItemFits(items[m], n);
      return false;
    }
    var k: nat := item.index.value;
    assert SlotFits(root, items, m, k, result[..][k]);
    if |result[k]| != 0 {
      SlotTaken(root, items, m, n, k, result[k]);
      return false;
    }
    if |item.embedding| == 0 || |item.embedding| > MAX_DIMENSIONS {
      assert !ItemFits(items[m], n);
      return false;
    }
    if dimensions != 0 && |item.embedding| != dimensions {
      OtherDimension(items, m, n);
      return false;
    }
    var vector := NormalizeItem(root, item.embedding);
    if vector.None? {
      assert !ItemFits(items[m], n);
      return false;
    }
    ReplyNext(root, items, m, n, dimensions, k);
    SlotsNext(root, items, m, result[..], k, vector.value);
    result[k] := vector.value;
    ok := true;
  }

  /** embedBatch after the reply is decoded: place every vector by its index. */
  method PlaceVectors(root: real -> real, items: seq<Item>, n: nat) returns (r: Option<seq<Vector>>)
    requires IsRoot(root)
    ensures r.Some? <==> ReplyFits(items, n)
    ensures r.Some? ==> |r.value| == n && forall k | 0 <= k < n :: Gives(root, items, k, r.value[k])
  {
    if |items| != n {
      return None;
    }
    var result := new Vector[n](_ => []);
    var dimensions: nat := 0;
    for m := 0 to |items|
      invariant ReplyFitsUpTo(items, m, n) && DimensionFits(items, m, dimensions)
        && SlotsFit(root, items, m, result[..])
    {
      var ok := PlaceOne(root, items, m, n, dimensions, result);
      if !ok {
        return None;
      }
      dimensions := |items[m].embedding|;
    }
    forall k | 0 <= k < n ensures Gives(root, items, k, result[..][k]) {
      assert SlotFits(root, items, n, k, result[..][k]);
      NoSlotIsEmpty(root, items, n, k, result[..][k]);
    }
    for k := 0 to n {
      if |result[k]| == 0 {
        NoSlotIsEmpty(root, items, n, k, result[..][k]);
        assert false;
        return None;
      }
    }
    r := Some(result[..]);
  }

  lemma NoSlotIsEmpty(root: real -> real, items: seq<Item>, n: nat, k: nat, v: Vector)
    requires ReplyFits(items, n) && k < n && SlotFits(root, items, n, k, v)
    ensures v != []
  {
    EverySlotIsNamed(items, n, k);
  }

  // ---------- batches ----------

  function BatchCount(n: nat): nat {
    (n + MAX_BATCH - 1) / MAX_BATCH
  }

  function End(n: nat, b: nat): nat {
    if b * MAX_BATCH + MAX_BATCH < n then b * MAX_BATCH + MAX_BATCH else n
  }

  function Inputs(texts: seq<Text>): seq<Text> {
    seq(|texts|, i requires 0 <= i < |texts| => Input(texts[i]))
  }

  /** The texts of batch b as they are sent. */
  function BatchOf(texts: seq<Text>, b: nat): seq<Text>
    requires b * MAX_BATCH < |texts|
  {
    Inputs(texts)[b * MAX_BATCH..End(|texts|, b)]
  }

  /** Text k of batch b is sent as the text 32 * b + k itself, or as its longest front of whole characters when it
      has more than 4096 bytes; a batch holds at most 32 texts, and every batch but the last that many. */
  lemma SentTextIsTheFront(texts: seq<Text>, b: nat, k: nat)
    requires b * 32 + k < |texts| && k < 32
    requires ValidUtf8(texts[b * 32 + k])
    ensures k < |BatchOf(texts, b)| <= 32
    ensures b * 32 + 32 <= |texts| ==> |BatchOf(texts, b)| == 32
    ensures BatchOf(texts, b)[k] <= texts[b * 32 + k] && ValidUtf8(BatchOf(texts, b)[k])
    ensures if |texts[b * 32 + k]| <= 4096 then BatchOf(texts, b)[k] == texts[b * 32 + k]
            else 4093 <= |BatchOf(texts, b)[k]| <= 4096
  {
    InputIsTheFront(texts[b * 32 + k]);
  }

  /** The replies serve all batches: None is a failed or undecodable request. */
  ghost predicate BatchServed(blank: Text -> bool, replies: nat -> Option<seq<Item>>, texts: seq<Text>, b: nat)
    requires b * MAX_BATCH < |texts|
  {
    (forall i | 0 <= i < |BatchOf(texts, b)| :: !blank(BatchOf(texts, b)[i]))
    && replies(b).Some? && ReplyFits(replies(b).value, |BatchOf(texts, b)|)
  }

  method PrepareBatch(blank: Text -> bool, texts: seq<Text>, b: nat) returns (batch: Option<seq<Text>>)
    requires b * MAX_BATCH < |texts|
    ensures batch ==
      if exists i | 0 <= i < |BatchOf(texts, b)| :: blank(BatchOf(texts, b)[i]) then None else Some(BatchOf(texts, b))
  {
    var start, end := b * MAX_BATCH, End(|texts|, b);
    var list: seq<Text> := [];
    for i := start to end
      invariant |list| == i - start
      invariant forall k | 0 <= k < i - start :: list[k] == BatchOf(texts, b)[k] && !blank(list[k])
    {
      var text := Truncate(texts[i], 4096);
      assert text == BatchOf(texts, b)[i - start];
      if blank(text) {
        return None;
      }
      list := list + [text];
    }
    assert list == BatchOf(texts, b);
    batch := Some(list);
  }

  /** Text i has the vector that the reply to its own batch gives to its own place in it. */
  ghost predicate OwnVector(root: real -> real, replies: nat -> Option<seq<Item>>, i: nat, v: Vector) {
    replies(i / MAX_BATCH).Some? && Gives(root, replies(i / MAX_BATCH).value, i % MAX_BATCH, v)
  }

  lemma PlaceInBatch(b: nat, k: nat)
    requires k < MAX_BATCH
    ensures (b * MAX_BATCH + k) / MAX_BATCH == b && (b * MAX_BATCH + k) % MAX_BATCH == k
  {
  }

  /** One batch: sent when no text of it is blank, served when its reply fits. */
  method EmbedOneBatch(root: real -> real, blank: Text -> bool, replies: nat -> Option<seq<Item>>, texts: seq<Text>,
                       b: nat)
    returns (vectors: Option<seq<Vector>>, request: Option<seq<Text>>)
    requires IsRoot(root) && b * MAX_BATCH < |texts|
    ensures vectors.Some? <==> BatchServed(blank, replies, texts, b)
    ensures vectors.Some? ==> |vectors.value| == |BatchOf(texts, b)| && request.Some?
    ensures vectors.Some? ==>
      forall k | 0 <= k < |vectors.value| :: OwnVector(root, replies, b * MAX_BATCH + k, vectors.value[k])
    ensures request.Some? ==> request.value == BatchOf(texts, b)
  {
    request := PrepareBatch(blank, texts, b);
    vectors := None;
    if request.None? || replies(b).None? {
      return;
    }
    vectors := PlaceVectors(root, replies(b).value, |request.value|);
    if vectors.Some? {
      forall k | 0 <= k < |vectors.value| ensures OwnVector(root, replies, b * MAX_BATCH + k, vectors.value[k]) {
        PlaceInBatch(b, k);
      }
    }
  }

  ghost predicate Served(blank: Text -> bool, replies: nat -> Option<seq<Item>>, texts: seq<Text>, b: nat) {
    forall c: nat | c < b && c * MAX_BATCH < |texts| :: BatchServed(blank, replies, texts, c)
  }

  ghost predicate Sent(texts: seq<Text>, requests: seq<seq<Text>>) {
    forall b | 0 <= b < |requests| :: b * MAX_BATCH < |texts| && requests[b] == BatchOf(texts, b)
  }

  ghost predicate OwnVectors(root: real -> real, replies: nat -> Option<seq<Item>>, vectors: seq<Vector>) {
    forall i | 0 <= i < |vectors| :: OwnVector(root, replies, i, vectors[i])
  }

  lemma OwnVectorsNext(root: real -> real, replies: nat -> Option<seq<Item>>, vectors: seq<Vector>, more: seq<Vector>)
    requires OwnVectors(root, replies, vectors)
    requires forall k | 0 <= k < |more| :: OwnVector(root, replies, |vectors| + k, more[k])
    ensures OwnVectors(root, replies, vectors + more)
  {
    var all := vectors + more;
    forall i | 0 <= i < |all| ensures OwnVector(root, replies, i, all[i]) {
      if i >= |vectors| {
        assert OwnVector(root, replies, |vectors| + (i - |vectors|), more[i - |vectors|]);
      }
    }
  }

  /** Embed: all or nothing, for at most 1024 texts. */
  method EmbedTexts(root: real -> real, blank: Text -> bool, replies: nat -> Option<seq<Item>>, texts: seq<Text>)
    returns (r: Option<seq<Vector>>, requests: seq<seq<Text>>)
    requires IsRoot(root)
    ensures r.Some? <==> |texts| <= MAX_INPUTS && Served(blank, replies, texts, |texts|)
    ensures r.Some? ==> |r.value| == |texts| && OwnVectors(root, replies, r.value) && |requests| == BatchCount(|texts|)
    ensures Sent(texts, requests)
  {
    requests := [];
    if |texts| == 0 {
      return Some([]), requests;
    }
    if |texts| > MAX_INPUTS {
      return None, requests;
    }
    var result: seq<Vector> := [];
    var b := 0;
    while b * MAX_BATCH < |texts|
      invariant |requests| == b <= BatchCount(|texts|)
      invariant |result| == if b * MAX_BATCH < |texts| then b * MAX_BATCH else |texts|
      invariant Served(blank, replies, texts, b) && Sent(texts, requests) && OwnVectors(root, replies, result)
      decreases |texts| - b * MAX_BATCH
    {
      var vectors, request := EmbedOneBatch(root, blank, replies, texts, b);
      if request.Some? {
        requests := requests + [request.value];
      }
      if vectors.None? {
        return None, requests;
      }
      OwnVectorsNext(root, replies, result, vectors.value);
      result := result + vectors.value;
      b := b + 1;
    }
    r := Some(result);
  }

  /** The requests of a completed run are the texts, cut to size, in order and without loss. */
  lemma {:induction false} RequestsCoverTexts(texts: seq<Text>, requests: seq<seq<Text>>, n: nat)
    requires n <= |requests| == BatchCount(|texts|)
    requires forall b | 0 <= b < |requests| :: b * MAX_BATCH < |texts| && requests[b] == BatchOf(texts, b)
    ensures Flattened(requests[..n]) == Inputs(texts)[..if n * MAX_BATCH < |texts| then n * MAX_BATCH else |texts|]
    ensures n == |requests| ==> Flattened(requests[..n]) == Inputs(texts)
  {
    if n > 0 {
      RequestsCoverTexts(texts, requests, n - 1);
      assert requests[..n][..n - 1] == requests[..n - 1];
    }
  }

  function Flattened<T>(parts: seq<seq<T>>): seq<T> {
    if parts == [] then [] else Flattened(parts[..|parts| - 1]) + parts[|parts| - 1]
  }
}
