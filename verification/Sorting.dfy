/**
 Sorting by a strict order. The lists sorted here never hold two elements the order leaves
 unrelated, so the sorted list is determined by its set of elements.
 */
module Sorting {

  ghost predicate StrictOrder<T(!new)>(less: (T, T) -> bool) {
    (forall a :: !less(a, a))
    && forall a, b, c :: less(a, b) && less(b, c) ==> less(a, c)
  }

  ghost predicate Comparable<T>(less: (T, T) -> bool, s: set<T>) {
    forall a, b | a in s && b in s && a != b :: less(a, b) || less(b, a)
  }

  ghost predicate Sorted<T>(less: (T, T) -> bool, s: seq<T>) {
    forall i, j | 0 <= i < j < |s| :: less(s[i], s[j])
  }

  ghost function Elements<T>(s: seq<T>): set<T> {
    set x | x in s
  }

  ghost predicate Distinct<T>(s: seq<T>) {
    forall i, j | 0 <= i < j < |s| :: s[i] != s[j]
  }

  /** The last n elements, or all of them. */
  function LastOf<T>(s: seq<T>, n: nat): seq<T> {
    if |s| <= n then s else s[|s| - n..]
  }

  // ---------- counting ----------

  lemma {:induction false} DistinctCount<T>(s: seq<T>)
    requires Distinct(s)
    ensures |Elements(s)| == |s|
  {
    if s == [] {
      assert Elements(s) == {};
    } else {
      var front, last := s[..|s| - 1], s[|s| - 1];
      DistinctCount(front);
      assert s == front + [last];
      assert Elements(s) == Elements(front) + {last};
      assert last !in Elements(front);
    }
  }

  lemma {:induction false} Subset<T>(a: set<T>, b: set<T>)
    requires a <= b
    ensures |a| <= |b|
    ensures |a| == |b| ==> a == b
    decreases |b|
  {
    if a != b {
      var x :| x in b && x !in a;
      Subset(a, b - {x});
    }
  }

  ghost function UpTo(n: nat): (s: set<nat>)
    ensures |s| == n && forall i: nat :: i in s <==> i < n
  {
    if n == 0 then {} else UpTo(n - 1) + {n - 1}
  }

  lemma WithinBounds(s: set<nat>, n: nat)
    requires forall k | k in s :: k < n
    ensures |s| <= n
  {
    Subset(s, UpTo(n));
  }

  // ---------- sorting ----------

  /** x placed in front of the first element it precedes. */
  function Insert<T>(less: (T, T) -> bool, x: T, s: seq<T>): (r: seq<T>)
    ensures |r| == |s| + 1
  {
    if s == [] || less(x, s[0]) then [x] + s else [s[0]] + Insert(less, x, s[1..])
  }

  lemma {:induction false} InsertElements<T>(less: (T, T) -> bool, x: T, s: seq<T>)
    ensures Elements(Insert(less, x, s)) == Elements(s) + {x}
  {
    if s != [] && !less(x, s[0]) {
      InsertElements(less, x, s[1..]);
      assert s == [s[0]] + s[1..];
      assert Elements(s) == {s[0]} + Elements(s[1..]);
      var r := Insert(less, x, s[1..]);
      assert Elements([s[0]] + r) == {s[0]} + Elements(r);
    } else {
      assert Elements([x] + s) == {x} + Elements(s);
    }
  }

  lemma {:induction false} InsertKeepsSorted<T(!new)>(less: (T, T) -> bool, x: T, s: seq<T>)
    requires StrictOrder(less) && Sorted(less, s) && x !in s
    requires Comparable(less, Elements(s) + {x})
    ensures Sorted(less, Insert(less, x, s))
  {
    if s != [] && !less(x, s[0]) {
      assert s[0] in Elements(s);
      assert forall y | y in s[1..] :: y in s && y in Elements(s);
      InsertKeepsSorted(less, x, s[1..]);
      InsertElements(less, x, s[1..]);
      var r := Insert(less, x, s[1..]);
      forall y | y in r ensures less(s[0], y) {
        assert y in Elements(r);
        if y != x {
          var i :| 0 <= i < |s[1..]| && s[1..][i] == y;
          assert s[i + 1] == y;
        }
      }
    }
  }

  /** The library sort: the same elements, in order. */
  method SortSlice<T(!new)>(less: (T, T) -> bool, s: seq<T>) returns (r: seq<T>)
    requires StrictOrder(less) && Distinct(s) && Comparable(less, Elements(s))
    ensures Sorted(less, r) && |r| == |s| && Elements(r) == Elements(s)
  {
    r := [];
    for i := 0 to |s|
      invariant Sorted(less, r) && |r| == i
      invariant Elements(r) == Elements(s[..i])
    {
      assert s[..i + 1] == s[..i] + [s[i]];
      assert Elements(s[..i + 1]) == Elements(s[..i]) + {s[i]};
      assert Elements(s[..i + 1]) <= Elements(s);
      assert forall x :: x in r <==> x in Elements(r);
      InsertKeepsSorted(less, s[i], r);
      InsertElements(less, s[i], r);
      r := Insert(less, s[i], r);
    }
    assert s[..|s|] == s;
  }

  /** Two sorted lists of the same elements are the same list. */
  lemma {:induction false} SortedIsUnique<T(!new)>(less: (T, T) -> bool, s: seq<T>, t: seq<T>)
    requires StrictOrder(less) && Sorted(less, s) && Sorted(less, t)
    requires Elements(s) == Elements(t)
    ensures s == t
  {
    assert forall x :: x in s <==> x in Elements(s);
    assert forall x :: x in t <==> x in Elements(t);
    SameEmptiness(s, t);
    if s != [] {
      assert s[0] in Elements(t) && t[0] in Elements(s);
      var i :| 0 <= i < |t| && t[i] == s[0];
      var j :| 0 <= j < |s| && s[j] == t[0];
      assert s[0] == t[0];
      RestElements(less, s);
      RestElements(less, t);
      SortedIsUnique(less, s[1..], t[1..]);
      assert s == [s[0]] + s[1..] && t == [t[0]] + t[1..];
    }
  }

  lemma SameEmptiness<T>(s: seq<T>, t: seq<T>)
    requires Elements(s) == Elements(t)
    ensures s == [] <==> t == []
  {
    assert s != [] ==> s[0] in Elements(s);
    assert t != [] ==> t[0] in Elements(t);
  }

  lemma RestElements<T(!new)>(less: (T, T) -> bool, s: seq<T>)
    requires StrictOrder(less) && Sorted(less, s) && s != []
    ensures Elements(s[1..]) == Elements(s) - {s[0]}
  {
    assert s == [s[0]] + s[1..];
    assert Elements(s) == {s[0]} + Elements(s[1..]);
    assert s[0] !in s[1..] by {
      forall k | 0 <= k < |s[1..]| ensures s[1..][k] != s[0] { assert less(s[0], s[k + 1]); }
    }
  }

  /** The sorted list of a finite set. */
  ghost function SortedSet<T(!new)>(less: (T, T) -> bool, s: set<T>): (r: seq<T>)
    requires StrictOrder(less) && Comparable(less, s)
    ensures Sorted(less, r) && Elements(r) == s
  {
    if s == {} then []
    else
      var x :| x in s;
      var rest := SortedSet(less, s - {x});
      InsertKeepsSorted(less, x, rest);
      InsertElements(less, x, rest);
      Insert(less, x, rest)
  }

  lemma SortedListIsSortedSet<T(!new)>(less: (T, T) -> bool, r: seq<T>, s: set<T>)
    requires StrictOrder(less) && Comparable(less, s)
    requires Sorted(less, r) && Elements(r) == s
    ensures r == SortedSet(less, s)
  {
    SortedIsUnique(less, r, SortedSet(less, s));
  }

  // ---------- strings ----------

  /** Lexicographic order, the order of the source's string comparison. */
  predicate StringLess(a: string, b: string) {
    b != "" && (a == "" || a[0] < b[0] || (a[0] == b[0] && StringLess(a[1..], b[1..])))
  }

  lemma {:induction false} StringLessIrreflexive(a: string)
    ensures !StringLess(a, a)
  {
    if a != "" {
      StringLessIrreflexive(a[1..]);
    }
  }

  lemma {:induction false} StringLessTransitive(a: string, b: string, c: string)
    requires StringLess(a, b) && StringLess(b, c)
    ensures StringLess(a, c)
  {
    if a != "" && a[0] == b[0] && b[0] == c[0] {
      StringLessTransitive(a[1..], b[1..], c[1..]);
    }
  }

  lemma {:induction false} StringLessConnected(a: string, b: string)
    requires a != b
    ensures StringLess(a, b) || StringLess(b, a)
  {
    if a != "" && b != "" && a[0] == b[0] {
      assert a == [a[0]] + a[1..] && b == [b[0]] + b[1..];
      StringLessConnected(a[1..], b[1..]);
    }
  }

  lemma StringOrder()
    ensures StrictOrder(StringLess)
    ensures forall a: string, b: string :: a != b ==> StringLess(a, b) || StringLess(b, a)
  {
    forall a: string ensures !StringLess(a, a) { StringLessIrreflexive(a); }
    forall a: string, b: string, c: string | StringLess(a, b) && StringLess(b, c)
      ensures StringLess(a, c)
    {
      StringLessTransitive(a, b, c);
    }
    forall a: string, b: string | a != b ensures StringLess(a, b) || StringLess(b, a) {
      StringLessConnected(a, b);
    }
  }

  lemma StringsAreComparable(s: set<string>)
    ensures StrictOrder(StringLess) && Comparable(StringLess, s)
  {
    StringOrder();
  }

  /** a comes first: it ends where b goes on, or has the smaller character where they first differ. */
  predicate FirstDifference(a: string, b: string, k: nat) {
    k <= |a| && k < |b| && a[..k] == b[..k] && (k == |a| || a[k] < b[k])
  }

  lemma FirstDifferenceCons(a: string, b: string, k: nat)
    requires a != "" && b != "" && a[0] == b[0] && FirstDifference(a[1..], b[1..], k)
    ensures FirstDifference(a, b, k + 1)
  {
    assert a[..k + 1] == [a[0]] + a[1..][..k] && b[..k + 1] == [b[0]] + b[1..][..k];
  }

  lemma {:induction false} StringLessDiffers(a: string, b: string) returns (k: nat)
    requires StringLess(a, b)
    ensures FirstDifference(a, b, k)
  {
    if a != "" && a[0] == b[0] {
      k := StringLessDiffers(a[1..], b[1..]);
      FirstDifferenceCons(a, b, k);
      k := k + 1;
    } else {
      k := 0;
    }
  }
}
