/**
  Ordering of a cluster's points by identifier, as `sort_cluster` does it
  with `qsort` and `obj_sort_compar`. The C library's algorithm is not
  part of this model; `SortById` is an insertion sort that uses the same
  comparator, and everything the rest of the model relies on is what any
  sort promises: the result is ordered and a permutation of the input.
 */
module Sorting {
  import opened Objects

  /** Ascending by identifier; equal identifiers may stand in any order. */
  predicate SortedById(s: seq<Point>)
  {
    forall i, j :: 0 <= i < j < |s| ==> s[i].id <= s[j].id
  }

  /** Inserts `p` in front of the first point it does not compare above. */
  function Insert(p: Point, s: seq<Point>): (r: seq<Point>)
    requires SortedById(s)
    ensures SortedById(r)
    ensures |r| == |s| + 1
    ensures multiset(r) == multiset(s) + multiset{p}
  {
    if |s| == 0 then [p]
    else if Compare(p, s[0]) <= 0 then [p] + s
    else
      var rest := Insert(p, s[1..]);
      assert s == [s[0]] + s[1..];
      assert BoundedBelow(s[1..] + [p], s[0].id);
      BoundedBelowPerm(s[1..] + [p], rest, s[0].id);
      SortedCons(s[0], rest);
      [s[0]] + rest
  }

  /** A point no greater than every point of a sorted sequence can go in
      front of it. */
  lemma SortedCons(p: Point, s: seq<Point>)
    requires SortedById(s) && BoundedBelow(s, p.id)
    ensures SortedById([p] + s)
  {
    var r := [p] + s;
    forall i, j | 0 <= i < j < |r|
      ensures r[i].id <= r[j].id
    {
      assert r[j] == s[j - 1];
      if i > 0 {
        assert r[i] == s[i - 1];
      }
    }
  }

  /** `lo` is a lower bound on every identifier in `s`. */
  predicate BoundedBelow(s: seq<Point>, lo: int)
  {
    forall k :: 0 <= k < |s| ==> lo <= s[k].id
  }

  /** A lower bound on identifiers survives any permutation. */
  lemma BoundedBelowPerm(a: seq<Point>, b: seq<Point>, lo: int)
    requires multiset(a) == multiset(b)
    requires BoundedBelow(a, lo)
    ensures BoundedBelow(b, lo)
  {
    forall k | 0 <= k < |b|
      ensures lo <= b[k].id
    {
      assert b[k] in multiset(a);
      var j :| 0 <= j < |a| && a[j] == b[k];
    }
  }

  /** Insertion sort by `Compare`. */
  function SortById(s: seq<Point>): (r: seq<Point>)
    ensures SortedById(r)
    ensures |r| == |s|
    ensures multiset(r) == multiset(s)
  {
    if |s| == 0 then []
    else
      assert s == [s[0]] + s[1..];
      Insert(s[0], SortById(s[1..]))
  }

  /** Sorting a sequence that is already ordered by identifier leaves it
      as it is. */
  lemma {:induction false} SortByIdOfSorted(s: seq<Point>)
    requires SortedById(s)
    ensures SortById(s) == s
  {
    if |s| > 0 {
      assert SortedById(s[1..]);
      SortByIdOfSorted(s[1..]);
      assert s == [s[0]] + s[1..];
    }
  }
}
