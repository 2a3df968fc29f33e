/**
  Sorted, duplicate-free sequences under a strict total order. This is what
  the database returns for `SELECT DISTINCT … ORDER BY …`: every value once,
  in ascending order. A strictly sorted sequence is determined by its set of
  elements, so the order of the rows in the table does not matter.
*/
module Sorting {

  /** The elements of a sequence, as a set. */
  function Elems<T(!new)>(s: seq<T>): (r: set<T>)
    ensures forall x :: x in r <==> x in s
  {
    set x | x in s
  }

  ghost predicate StrictTotalOrder<T(!new)>(lt: (T, T) -> bool) {
    (forall a :: !lt(a, a))
    && (forall a, b, c :: lt(a, b) && lt(b, c) ==> lt(a, c))
    && (forall a, b :: a != b ==> lt(a, b) || lt(b, a))
  }

  predicate StrictlySorted<T>(s: seq<T>, lt: (T, T) -> bool) {
    forall i, j :: 0 <= i < j < |s| ==> lt(s[i], s[j])
  }

  /** Insert `x` into a strictly sorted sequence, unless it is already there. */
  function Insert<T(==,!new)>(s: seq<T>, x: T, lt: (T, T) -> bool): (r: seq<T>)
    ensures Elems(r) == Elems(s + [x])
  {
    if s == [] then [x]
    else if x == s[0] then s
    else if lt(x, s[0]) then [x] + s
    else
      var rest := Insert(s[1..], x, lt);
      assert s == [s[0]] + s[1..];
      [s[0]] + rest
  }

  lemma {:induction false} InsertSorted<T(!new)>(s: seq<T>, x: T, lt: (T, T) -> bool)
    requires StrictTotalOrder(lt)
    requires StrictlySorted(s, lt)
    ensures StrictlySorted(Insert(s, x, lt), lt)
  {
    if s != [] && x != s[0] && !lt(x, s[0]) {
      InsertSorted(s[1..], x, lt);
      var rest := Insert(s[1..], x, lt);
      assert lt(s[0], x);
      forall y | y in rest ensures lt(s[0], y) {
        assert y in s[1..] + [x];
      }
      var r := [s[0]] + rest;
      forall i, j | 0 <= i < j < |r| ensures lt(r[i], r[j]) {
        if i == 0 { assert r[j] in rest; }
        else { assert r[i] == rest[i - 1] && r[j] == rest[j - 1]; }
      }
    }
  }

  /** The distinct elements of `xs` in ascending order. */
  function SortedDistinct<T(==,!new)>(xs: seq<T>, lt: (T, T) -> bool): (r: seq<T>)
    ensures Elems(r) == Elems(xs)
    decreases |xs|
  {
    if xs == [] then []
    else
      var init := SortedDistinct(xs[..|xs| - 1], lt);
      assert xs == xs[..|xs| - 1] + [xs[|xs| - 1]];
      Insert(init, xs[|xs| - 1], lt)
  }

  lemma {:induction false} SortedDistinctSorted<T(!new)>(xs: seq<T>, lt: (T, T) -> bool)
    requires StrictTotalOrder(lt)
    ensures StrictlySorted(SortedDistinct(xs, lt), lt)
    decreases |xs|
  {
    if xs != [] {
      SortedDistinctSorted(xs[..|xs| - 1], lt);
      InsertSorted(SortedDistinct(xs[..|xs| - 1], lt), xs[|xs| - 1], lt);
    }
  }

  /** A strictly sorted sequence holds no element twice. */
  lemma SortedHasNoDuplicates<T(!new)>(s: seq<T>, lt: (T, T) -> bool)
    requires StrictTotalOrder(lt)
    requires StrictlySorted(s, lt)
    ensures forall i, j :: 0 <= i < j < |s| ==> s[i] != s[j]
  {
    forall i, j | 0 <= i < j < |s| ensures s[i] != s[j] {
      assert lt(s[i], s[j]);
    }
  }

  /** A sequence without repeats has as many distinct elements as positions. */
  lemma {:induction false} DistinctCard<T(!new)>(s: seq<T>)
    requires forall i, j :: 0 <= i < j < |s| ==> s[i] != s[j]
    ensures |Elems(s)| == |s|
  {
    if s != [] {
      DistinctCard(s[1..]);
      assert Elems(s) == {s[0]} + Elems(s[1..]);
      assert s[0] !in Elems(s[1..]);
    }
  }

  /** Two strictly sorted sequences with the same elements are equal. */
  lemma {:induction false} SortedUnique<T(!new)>(a: seq<T>, b: seq<T>, lt: (T, T) -> bool)
    requires StrictTotalOrder(lt)
    requires StrictlySorted(a, lt) && StrictlySorted(b, lt)
    requires Elems(a) == Elems(b)
    ensures a == b
  {
    SortedHasNoDuplicates(a, lt);
    SortedHasNoDuplicates(b, lt);
    DistinctCard(a);
    DistinctCard(b);
    if a != [] {
      var a0, b0 := a[0], b[0];
      assert a0 in Elems(b) && b0 in Elems(a);
      var k :| 0 <= k < |b| && b[k] == a0;
      var j :| 0 <= j < |a| && a[j] == b0;
      assert k == 0 || lt(b0, a0);
      assert j == 0 || lt(a0, b0);
      assert a0 == b0;
      assert Elems(a[1..]) == Elems(b[1..]) by {
        forall x | x in a[1..] ensures x in b[1..] {
          var i :| 1 <= i < |a| && a[i] == x;
          assert x in Elems(b);
        }
        forall x | x in b[1..] ensures x in a[1..] {
          var i :| 1 <= i < |b| && b[i] == x;
          assert x in Elems(a);
        }
      }
      SortedUnique(a[1..], b[1..], lt);
      assert a == [a[0]] + a[1..] && b == [b[0]] + b[1..];
    }
  }
}
