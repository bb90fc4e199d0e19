/** The sort that `sort.Slice` and `sort.Strings` perform, for a comparison
    that is a strict total order on a slice without repeated elements (both
    call sites sort distinct map keys). The slice is a sequence value here:
    the result is the reordered slice. */
module Sorting {

  predicate Distinct<T(==)>(s: seq<T>) {
    forall i, j :: 0 <= i < j < |s| ==> s[i] != s[j]
  }

  predicate StrictlySorted<T>(s: seq<T>, less: (T, T) -> bool) {
    forall i, j :: 0 <= i < j < |s| ==> less(s[i], s[j])
  }

  /** `r` with the elements at `j - 1` and `j` exchanged. */
  function SwapDown<T(==)>(r: seq<T>, j: nat): (t: seq<T>)
    requires 0 < j < |r|
    ensures |t| == |r| && t[j - 1] == r[j] && t[j] == r[j - 1]
    ensures forall k :: 0 <= k < |r| && k != j - 1 && k != j ==> t[k] == r[k]
    ensures multiset(t) == multiset(r)
    ensures Distinct(r) ==> Distinct(t)
  {
    var t := r[j - 1 := r[j]][j := r[j - 1]];
    assert r == r[..j - 1] + [r[j - 1], r[j]] + r[j + 1..];
    assert t == r[..j - 1] + [r[j], r[j - 1]] + r[j + 1..];
    t
  }

  /** One step of insertion sort: moves `r[i]` down into the sorted prefix `r[..i]`. */
  method InsertAt<T(==, !new)>(r: seq<T>, i: nat, less: (T, T) -> bool) returns (t: seq<T>)
    requires forall x, y, z :: less(x, y) && less(y, z) ==> less(x, z)
    requires forall x, y :: x != y ==> less(x, y) || less(y, x)
    requires i < |r| && Distinct(r) && StrictlySorted(r[..i], less)
    ensures |t| == |r| && Distinct(t) && StrictlySorted(t[..i + 1], less)
    ensures multiset(t) == multiset(r) && t[i + 1..] == r[i + 1..]
  {
    t := r;
    var j := i;
    while j > 0 && less(t[j], t[j - 1])
      invariant 0 <= j <= i && |t| == |r|
      invariant forall p, q :: 0 <= p < q <= i && p != j && q != j ==> less(t[p], t[q])
      invariant forall q :: j < q <= i ==> less(t[j], t[q])
      invariant multiset(t) == multiset(r) && Distinct(t) && t[i + 1..] == r[i + 1..]
    {
      t := SwapDown(t, j);
      j := j - 1;
    }
    if j > 0 {
      assert less(t[j - 1], t[j]);
      forall p | 0 <= p < j - 1
        ensures less(t[p], t[j])
      {
        assert less(t[p], t[j - 1]);
      }
    }
  }

  /** Insertion sort: the result holds the same elements, strictly increasing. */
  method Sort<T(==, !new)>(s: seq<T>, less: (T, T) -> bool) returns (r: seq<T>)
    requires forall x, y, z :: less(x, y) && less(y, z) ==> less(x, z)
    requires forall x, y :: x != y ==> less(x, y) || less(y, x)
    requires Distinct(s)
    ensures StrictlySorted(r, less)
    ensures multiset(r) == multiset(s)
    ensures |r| == |s| && Distinct(r)
  {
    r := s;
    var i := 0;
    while i < |r|
      invariant 0 <= i <= |r| == |s|
      invariant StrictlySorted(r[..i], less)
      invariant multiset(r) == multiset(s) && Distinct(r)
    {
      r := InsertAt(r, i, less);
      i := i + 1;
    }
    assert r[..i] == r;
  }

  // ---------------------------------------------------------------- the sorted order as a value

  /** `x` inserted into `s` before the first element it is less than. */
  function Insert<T>(x: T, s: seq<T>, less: (T, T) -> bool): seq<T> {
    if s == [] then [x]
    else if less(x, s[0]) then [x] + s
    else [s[0]] + Insert(x, s[1..], less)
  }

  lemma {:induction false} InsertMultiset<T>(x: T, s: seq<T>, less: (T, T) -> bool)
    ensures multiset(Insert(x, s, less)) == multiset(s) + multiset{x}
  {
    if s != [] && !less(x, s[0]) {
      assert s == [s[0]] + s[1..];
      InsertMultiset(x, s[1..], less);
    }
  }

  lemma {:induction false} InsertSorted<T(!new)>(x: T, s: seq<T>, less: (T, T) -> bool)
    requires forall a, b, c :: less(a, b) && less(b, c) ==> less(a, c)
    requires forall a, b :: a != b ==> less(a, b) || less(b, a)
    requires StrictlySorted(s, less) && x !in s
    ensures StrictlySorted(Insert(x, s, less), less)
  {
    if s != [] && !less(x, s[0]) {
      assert x != s[0];
      assert s[1..] == s[1..] && x !in s[1..];
      InsertSorted(x, s[1..], less);
      var t := Insert(x, s[1..], less);
      InsertMultiset(x, s[1..], less);
      forall k | 0 <= k < |t| ensures less(s[0], t[k]) {
        assert t[k] in multiset(s[1..]) + multiset{x};
        if t[k] != x {
          assert t[k] in s[1..];
          var m :| 0 <= m < |s[1..]| && s[1..][m] == t[k];
          assert s[m + 1] == t[k];
        }
      }
    }
  }

  /** The elements of `xs` in increasing order. */
  ghost function SortSet<T>(xs: set<T>, less: (T, T) -> bool): seq<T>
    decreases xs
  {
    if xs == {} then []
    else
      var x :| x in xs;
      Insert(x, SortSet(xs - {x}, less), less)
  }

  lemma {:induction false} SortSetSorted<T(!new)>(xs: set<T>, less: (T, T) -> bool)
    requires forall a, b, c :: less(a, b) && less(b, c) ==> less(a, c)
    requires forall a, b :: a != b ==> less(a, b) || less(b, a)
    ensures StrictlySorted(SortSet(xs, less), less)
    ensures multiset(SortSet(xs, less)) == multiset(xs)
    decreases xs
  {
    if xs != {} {
      var x :| x in xs && SortSet(xs, less) == Insert(x, SortSet(xs - {x}, less), less);
      SortSetSorted(xs - {x}, less);
      assert x !in multiset(SortSet(xs - {x}, less));
      InsertSorted(x, SortSet(xs - {x}, less), less);
      InsertMultiset(x, SortSet(xs - {x}, less), less);
      assert multiset(xs - {x}) + multiset{x} == multiset(xs);
    }
  }

  ghost predicate SameElements<T(!new)>(a: seq<T>, b: seq<T>) {
    forall x :: x in a <==> x in b
  }

  lemma SortedHeadsEqual<T(!new)>(a: seq<T>, b: seq<T>, less: (T, T) -> bool)
    requires forall x, y, z :: less(x, y) && less(y, z) ==> less(x, z)
    requires forall x :: !less(x, x)
    requires StrictlySorted(a, less) && StrictlySorted(b, less)
    requires SameElements(a, b) && a != []
    ensures b != [] && a[0] == b[0]
  {
    assert a[0] in b;
    var j :| 0 <= j < |b| && b[j] == a[0];
    assert b[0] in a;
    var i :| 0 <= i < |a| && a[i] == b[0];
  }

  lemma SameElementsEmpty<T(!new)>(a: seq<T>, b: seq<T>)
    requires SameElements(a, b)
    ensures a == [] <==> b == []
  {
    if b != [] {
      assert b[0] in a;
    }
    if a != [] {
      assert a[0] in b;
    }
  }

  /** A strictly sorted sequence is determined by the elements it holds. */
  lemma {:induction false} StrictlySortedUnique<T(!new)>(a: seq<T>, b: seq<T>, less: (T, T) -> bool)
    requires forall x, y, z :: less(x, y) && less(y, z) ==> less(x, z)
    requires forall x :: !less(x, x)
    requires StrictlySorted(a, less) && StrictlySorted(b, less)
    requires SameElements(a, b)
    ensures a == b
  {
    SameElementsEmpty(a, b);
    if a != [] {
      SortedHeadsEqual(a, b, less);
      forall x ensures x in a[1..] <==> x in b[1..] {
        if x in a[1..] {
          var k :| 1 <= k < |a| && a[k] == x;
          assert less(a[0], a[k]);
          assert x in b;
          var m :| 0 <= m < |b| && b[m] == x;
          assert b[1..][m - 1] == x;
        }
        if x in b[1..] {
          var k :| 1 <= k < |b| && b[k] == x;
          assert less(b[0], b[k]);
          assert x in a;
          var m :| 0 <= m < |a| && a[m] == x;
          assert a[1..][m - 1] == x;
        }
      }
      StrictlySortedUnique(a[1..], b[1..], less);
      assert a == [a[0]] + a[1..] && b == [b[0]] + b[1..];
    }
  }

  lemma SortedDistinct<T>(s: seq<T>, less: (T, T) -> bool)
    requires forall x :: !less(x, x)
    requires StrictlySorted(s, less)
    ensures Distinct(s)
  {
    forall i, j | 0 <= i < j < |s| ensures s[i] != s[j] {
      assert less(s[i], s[j]);
    }
  }
}
