/**
 Embedding vectors over exact reals (agent/history_retrieval.go): normalisation and cosine similarity.
 The square root is a parameter known only by root(x) * root(x) == x.
 */
module Vectors {
  import opened Wrappers

  type Vector = seq<real>

  const MAX_DIMENSIONS: nat := 8192

  ghost predicate IsRoot(root: real -> real) {
    forall x: real | x > 0.0 :: root(x) > 0.0 && root(x) * root(x) == x
  }

  function Norm(v: Vector): real {
    if v == [] then 0.0 else Norm(v[..|v| - 1]) + v[|v| - 1] * v[|v| - 1]
  }

  function Dot(u: Vector, v: Vector): real
    requires |u| == |v|
  {
    if u == [] then 0.0 else Dot(u[..|u| - 1], v[..|v| - 1]) + u[|u| - 1] * v[|v| - 1]
  }

  function Scaled(v: Vector, r: real): Vector
    requires r != 0.0
  {
    seq(|v|, i requires 0 <= i < |v| => v[i] / r)
  }

  /** A unit vector in the same direction; None for empty, oversized and zero vectors. */
  function Normalized(root: real -> real, v: Vector): Option<Vector> {
    if v == [] || |v| > MAX_DIMENSIONS || Norm(v) == 0.0 || root(Norm(v)) == 0.0 then None
    else Some(Scaled(v, root(Norm(v))))
  }

  method NormalizeEmbeddingVector(root: real -> real, vector: Vector) returns (r: Option<Vector>)
    requires IsRoot(root)
    ensures r == Normalized(root, vector)
  {
    if |vector| == 0 || |vector| > MAX_DIMENSIONS {
      return None;
    }
    var norm := 0.0;
    for i := 0 to |vector|
      invariant norm == Norm(vector[..i])
    {
      assert vector[..i + 1][..i] == vector[..i];
      norm := norm + vector[i] * vector[i];
    }
    assert vector[..|vector|] == vector;
    if norm == 0.0 {
      return None;
    }
    NormIsNotNegative(vector);
    var normRoot := root(norm);
    var list: Vector := vector;
    for i := 0 to |list|
      invariant |list| == |vector|
      invariant forall k | 0 <= k < i :: list[k] == vector[k] / normRoot
      invariant forall k | i <= k < |list| :: list[k] == vector[k]
    {
      list := list[i := list[i] / normRoot];
    }
    assert list == Scaled(vector, normRoot);
    r := Some(list);
  }

  /** Zero for vectors of different lengths. */
  method CosineSimilarity(left: Vector, right: Vector) returns (dot: real)
    ensures dot == if |left| == |right| then Dot(left, right) else 0.0
  {
    if |left| != |right| || |left| == 0 {
      return 0.0;
    }
    dot := 0.0;
    for i := 0 to |left|
      invariant dot == Dot(left[..i], right[..i])
    {
      assert left[..i + 1][..i] == left[..i] && right[..i + 1][..i] == right[..i];
      dot := dot + left[i] * right[i];
    }
    assert left[..|left|] == left && right[..|right|] == right;
  }

  lemma {:induction false} NormIsNotNegative(v: Vector)
    ensures Norm(v) >= 0.0
  {
    if v != [] {
      NormIsNotNegative(v[..|v| - 1]);
      SquareIsNotNegative(v[|v| - 1]);
    }
  }

  lemma SquareIsNotNegative(x: real)
    ensures x * x >= 0.0
  {
  }

  lemma DividedSquare(x: real, r: real)
    requires r != 0.0
    ensures (x / r) * (x / r) * (r * r) == x * x
  {
    var y := x / r;
    assert y * r == x;
    assert y * y * (r * r) == (y * r) * (y * r);
  }

  lemma {:induction false} NormOfScaled(v: Vector, r: real)
    requires r != 0.0
    ensures Norm(Scaled(v, r)) * (r * r) == Norm(v)
  {
    if v != [] {
      var front, last := v[..|v| - 1], v[|v| - 1];
      NormOfScaled(front, r);
      DividedSquare(last, r);
      assert Scaled(v, r)[..|v| - 1] == Scaled(front, r);
      Distribute(Norm(Scaled(front, r)), (last / r) * (last / r), r * r);
    }
  }

  lemma Distribute(a: real, b: real, c: real)
    ensures (a + b) * c == a * c + b * c
  {
  }

  lemma OneOf(x: real, s: real, n: real)
    requires x * s == n && s == n && n != 0.0
    ensures x == 1.0
  {
    assert (x - 1.0) * n == 0.0;
  }

  /** A normalised vector has norm one and keeps its dimension. */
  lemma NormalizedIsUnit(root: real -> real, v: Vector)
    requires IsRoot(root) && Normalized(root, v).Some?
    ensures Norm(Normalized(root, v).value) == 1.0
    ensures 0 < |Normalized(root, v).value| == |v| <= MAX_DIMENSIONS
  {
    NormIsNotNegative(v);
    var r := root(Norm(v));
    NormOfScaled(v, r);
    assert r * r == Norm(v);
    OneOf(Norm(Scaled(v, r)), r * r, Norm(v));
  }

  lemma TwiceProduct(x: real, y: real)
    ensures 2.0 * (x * y) <= x * x + y * y
  {
    SquareIsNotNegative(x - y);
    assert (x - y) * (x - y) == x * x - 2.0 * (x * y) + y * y;
  }

  /** Cauchy-Schwarz in the form the unit vectors need. */
  lemma {:induction false} TwiceDot(u: Vector, v: Vector)
    requires |u| == |v|
    ensures 2.0 * Dot(u, v) <= Norm(u) + Norm(v)
  {
    if u != [] {
      TwiceDot(u[..|u| - 1], v[..|v| - 1]);
      TwiceProduct(u[|u| - 1], v[|v| - 1]);
    }
  }

  /** The cosine of two normalised vectors is at most one. */
  lemma CosineAtMostOne(root: real -> real, u: Vector, v: Vector)
    requires IsRoot(root) && Normalized(root, u).Some? && Normalized(root, v).Some? && |u| == |v|
    ensures |Normalized(root, u).value| == |Normalized(root, v).value|
    ensures Dot(Normalized(root, u).value, Normalized(root, v).value) <= 1.0
  {
    NormalizedIsUnit(root, u);
    NormalizedIsUnit(root, v);
    TwiceDot(Normalized(root, u).value, Normalized(root, v).value);
  }

  // ---------- what the cosine measures ----------

  function Difference(u: Vector, v: Vector): Vector
    requires |u| == |v|
  {
    seq(|u|, i requires 0 <= i < |u| => u[i] - v[i])
  }

  lemma {:induction false} DotWithItself(u: Vector)
    ensures Dot(u, u) == Norm(u)
  {
    if u != [] {
      DotWithItself(u[..|u| - 1]);
    }
  }

  lemma SquaredDifference(x: real, y: real)
    ensures 2.0 * (x * y) == x * x + y * y - (x - y) * (x - y)
  {
  }

  /** The dot product falls with the distance: twice the product is the sum of the norms less the norm of
      the difference. */
  lemma {:induction false} DotMeasuresDistance(u: Vector, v: Vector)
    requires |u| == |v|
    ensures 2.0 * Dot(u, v) == Norm(u) + Norm(v) - Norm(Difference(u, v))
  {
    if u != [] {
      var n := |u| - 1;
      assert Difference(u, v)[..n] == Difference(u[..n], v[..n]);
      DotMeasuresDistance(u[..n], v[..n]);
      SquaredDifference(u[n], v[n]);
    }
  }

  /** The unit vector points where the vector points. */
  lemma NormalizedKeepsDirection(root: real -> real, v: Vector, k: nat)
    requires IsRoot(root) && Normalized(root, v).Some? && k < |v|
    ensures root(Norm(v)) > 0.0 && Normalized(root, v).value[k] * root(Norm(v)) == v[k]
  {
    NormIsNotNegative(v);
    DividedAndBack(v[k], root(Norm(v)));
  }

  lemma DividedAndBack(x: real, r: real)
    requires r != 0.0
    ensures (x / r) * r == x
  {
  }

  /** A vector that normalises has cosine one with itself; two unit vectors have cosine one only when they
      do not differ. */
  lemma CosineOneMeansEqual(root: real -> real, u: Vector, v: Vector)
    requires IsRoot(root) && Normalized(root, u).Some? && Normalized(root, v).Some? && |u| == |v|
    ensures var a, b := Normalized(root, u).value, Normalized(root, v).value;
      |a| == |b| && (Dot(a, b) == 1.0 <==> a == b)
  {
    var a, b := Normalized(root, u).value, Normalized(root, v).value;
    NormalizedIsUnit(root, u);
    NormalizedIsUnit(root, v);
    DotMeasuresDistance(a, b);
    DotWithItself(a);
    if Dot(a, b) == 1.0 {
      ZeroNormIsZero(Difference(a, b));
      forall k | 0 <= k < |a| ensures a[k] == b[k] {
        assert Difference(a, b)[k] == 0.0;
      }
    }
  }

  lemma SquareIsPositive(x: real, square: real)
    requires x != 0.0 && square == x * x
    ensures square > 0.0
  {
    SameSignProduct(x, x, square);
  }

  lemma SameSignProduct(x: real, y: real, product: real)
    requires (x > 0.0 && y > 0.0) || (x < 0.0 && y < 0.0)
    requires product == x * y
    ensures product > 0.0
  {
  }

  lemma {:induction false} ZeroNormIsZero(v: Vector)
    requires Norm(v) == 0.0
    ensures forall k | 0 <= k < |v| :: v[k] == 0.0
  {
    if v != [] {
      var n := |v| - 1;
      NormIsNotNegative(v[..n]);
      var square := v[n] * v[n];
      SquareIsNotNegative(v[n]);
      if v[n] != 0.0 {
        SquareIsPositive(v[n], square);
      }
      ZeroNormIsZero(v[..n]);
      forall k | 0 <= k < |v| ensures v[k] == 0.0 {
        if k < n { assert v[..n][k] == v[k]; }
      }
    }
  }

  lemma {:induction false} NonZeroNorm(v: Vector, k: nat)
    requires k < |v| && v[k] != 0.0
    ensures Norm(v) > 0.0
  {
    var n := |v| - 1;
    var square := v[n] * v[n];
    NormIsNotNegative(v[..n]);
    SquareIsNotNegative(v[n]);
    if k == n {
      SquareIsPositive(v[n], square);
    } else {
      NonZeroNorm(v[..n], k);
    }
  }

  lemma {:induction false} NormOfZeros(v: Vector)
    requires forall k | 0 <= k < |v| :: v[k] == 0.0
    ensures Norm(v) == 0.0
  {
    if v != [] {
      NormOfZeros(v[..|v| - 1]);
    }
  }

  /** A vector normalises exactly when it has a coordinate that is not zero, and at most 8192 of them. */
  lemma NormalizesExactlyWhen(root: real -> real, v: Vector)
    requires IsRoot(root)
    ensures Normalized(root, v).Some? <==> |v| <= 8192 && exists k | 0 <= k < |v| :: v[k] != 0.0
  {
    NormIsNotNegative(v);
    if k :| 0 <= k < |v| && v[k] != 0.0 {
      NonZeroNorm(v, k);
    } else {
      NormOfZeros(v);
    }
  }
}
