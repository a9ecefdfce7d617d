/**
  Nearest-pair search (`find_neighbours`): the scan over the index pairs
  `i < j` of the registry in row-major order that keeps the pair with the
  smallest complete-linkage distance, replacing it only on a strictly
  smaller distance, so that the first minimal pair found wins.

  `FindNeighbours` is the search as written, starting from the sentinel
  distance 1000; `FindNearestPair` is the same scan without the sentinel,
  which the driver uses (see `FarApartKeepsStalePair`).
 */
module Neighbours {
  import opened Objects
  import opened Clusters
  import opened Linkage
  import opened Registry

  /** The initial smallest distance, 1000, in squared units. */
  const Sentinel: int := 1000 * 1000

  /** The linkage distance between live clusters `i` and `j`. */
  function PairDistance(g: seq<seq<Point>>, i: nat, j: nat): int
    requires i < |g| && j < |g|
  {
    LinkageDistance(g[i], g[j])
  }

  /** The pair (a, b) is visited before the pair (i, j) in the scan. */
  predicate ScannedBefore(a: nat, b: nat, i: nat, j: nat)
  {
    a < i || (a == i && b < j)
  }

  /** Some pair of distinct live clusters lies closer than `bound`. */
  ghost predicate SomeBelow(g: seq<seq<Point>>, bound: int)
  {
    exists i, j :: 0 <= i < j < |g| && PairDistance(g, i, j) < bound
  }

  /** (f, s) is a pair of minimal distance, and every pair visited before
      it is strictly farther: the pair the strict `<` scan keeps. */
  ghost predicate IsFirstMin(g: seq<seq<Point>>, f: nat, s: nat)
  {
    && f < s < |g|
    && (forall i, j :: 0 <= i < j < |g| ==> PairDistance(g, f, s) <= PairDistance(g, i, j))
    && (forall i, j :: 0 <= i < j < |g| && ScannedBefore(i, j, f, s) ==> PairDistance(g, f, s) < PairDistance(g, i, j))
  }

  /** `d` is no larger than any pair visited before (i, j). */
  ghost predicate BoundsScanned(g: seq<seq<Point>>, d: int, i: nat, j: nat)
  {
    forall a, b :: 0 <= a < b < |g| && ScannedBefore(a, b, i, j) ==> d <= PairDistance(g, a, b)
  }

  /** Every pair visited before (f, s) is strictly farther than (f, s). */
  ghost predicate StrictlyFirst(g: seq<seq<Point>>, f: nat, s: nat)
    requires f < |g| && s < |g|
  {
    forall a, b :: 0 <= a < b < |g| && ScannedBefore(a, b, f, s) ==> PairDistance(g, f, s) < PairDistance(g, a, b)
  }

  /** The state of the scan just before it visits (i, j): `found` says
      whether a candidate is held, and the candidate (f, s) with distance
      `d` is then the first minimal pair among those visited. */
  ghost predicate ScanState(g: seq<seq<Point>>, i: nat, j: nat, found: bool, d: int, f: int, s: int)
  {
    && BoundsScanned(g, d, i, j)
    && (found ==> 0 <= f < s < |g| && ScannedBefore(f, s, i, j) && d == PairDistance(g, f, s) && StrictlyFirst(g, f, s))
  }

  /** Visiting (i, j): taking (i, j) when it is strictly closer than
      the bound held, or keeping the state when it is not closer, gives
      the scan state after (i, j). */
  lemma ScanStep(g: seq<seq<Point>>, i: nat, j: nat, found: bool, d: int, f: int, s: int)
    requires i < j < |g|
    requires ScanState(g, i, j, found, d, f, s)
    ensures PairDistance(g, i, j) < d ==> ScanState(g, i, j + 1, true, PairDistance(g, i, j), i, j)
    ensures d <= PairDistance(g, i, j) ==> ScanState(g, i, j + 1, found, d, f, s)
  {
  }

  /** The first pair visited, (0, 1), is the first minimal pair among the
      pairs visited so far. */
  lemma ScanFirst(g: seq<seq<Point>>)
    requires 2 <= |g|
    ensures ScanState(g, 0, 2, true, PairDistance(g, 0, 1), 0, 1)
  {
  }

  /** Leaving row i for row i + 1 visits nothing. */
  lemma ScanNextRow(g: seq<seq<Point>>, i: nat, found: bool, d: int, f: int, s: int)
    requires ScanState(g, i, |g|, found, d, f, s)
    ensures ScanState(g, i + 1, i + 2, found, d, f, s)
  {
  }

  /** There is at most one first minimal pair. */
  lemma FirstMinUnique(g: seq<seq<Point>>, f1: nat, s1: nat, f2: nat, s2: nat)
    requires IsFirstMin(g, f1, s1) && IsFirstMin(g, f2, s2)
    ensures f1 == f2 && s1 == s2
  {
    assert PairDistance(g, f1, s1) <= PairDistance(g, f2, s2);
    assert PairDistance(g, f2, s2) <= PairDistance(g, f1, s1);
    assert !ScannedBefore(f1, s1, f2, s2) && !ScannedBefore(f2, s2, f1, s1);
  }

  /** Continuing the scan from any state that holds a candidate reaches a
      first minimal pair. */
  lemma {:induction false} ScanReaches(g: seq<seq<Point>>, i: nat, j: nat, f: nat, s: nat)
    requires i + 2 <= |g| && i + 1 <= j <= |g| && f < s < |g|
    requires ScanState(g, i, j, true, PairDistance(g, f, s), f, s)
    ensures exists f', s' :: IsFirstMin(g, f', s')
    decreases |g| - i, |g| - j
  {
    var d := PairDistance(g, f, s);
    if j < |g| {
      ScanStep(g, i, j, true, d, f, s);
      if PairDistance(g, i, j) < d {
        ScanReaches(g, i, j + 1, i, j);
      } else {
        ScanReaches(g, i, j + 1, f, s);
      }
    } else {
      ScanNextRow(g, i, true, d, f, s);
      if i + 3 <= |g| {
        ScanReaches(g, i + 1, i + 2, f, s);
      } else {
        assert IsFirstMin(g, f, s);
      }
    }
  }

  /** A registry of two or more clusters has a first minimal pair. */
  lemma FirstMinExists(g: seq<seq<Point>>)
    requires 2 <= |g|
    ensures exists f, s :: IsFirstMin(g, f, s)
  {
    ScanFirst(g);
    ScanReaches(g, 0, 2, 0, 1);
  }

  /** The pair the scan selects, as a value: the first minimal pair (see
      `FirstMinPairIsFirstMin`). */
  ghost function FirstMinPair(g: seq<seq<Point>>): (p: (nat, nat))
    requires 2 <= |g|
    ensures p.0 < p.1 < |g|
  {
    FirstMinExists(g);
    var f: nat, s: nat :| IsFirstMin(g, f, s);
    (f, s)
  }

  lemma FirstMinPairIsFirstMin(g: seq<seq<Point>>)
    requires 2 <= |g|
    ensures IsFirstMin(g, FirstMinPair(g).0, FirstMinPair(g).1)
  {
    FirstMinExists(g);
  }

  /** The choice of pair depends only on which points each cluster holds. */
  lemma FirstMinSame(g: seq<seq<Point>>, h: seq<seq<Point>>, f: nat, s: nat)
    requires SameClusters(g, h) && IsFirstMin(g, f, s)
    ensures IsFirstMin(h, f, s)
  {
    forall i, j | 0 <= i < |g| && 0 <= j < |g|
      ensures PairDistance(g, i, j) == PairDistance(h, i, j)
    {
      LinkagePerm(g[i], h[i], g[j], h[j]);
    }
  }

  /** The sentinel loses nothing exactly when the minimal distance is
      below it: then the as-written search and the corrected one pick the
      same pair (by `FirstMinUnique`); otherwise no pair is below it. */
  lemma SentinelHarmlessIff(g: seq<seq<Point>>, f: nat, s: nat)
    requires IsFirstMin(g, f, s)
    ensures SomeBelow(g, Sentinel) <==> PairDistance(g, f, s) < Sentinel
  {
    if SomeBelow(g, Sentinel) {
      var i, j :| 0 <= i < j < |g| && PairDistance(g, i, j) < Sentinel;
      assert PairDistance(g, f, s) <= PairDistance(g, i, j);
    }
  }

  /** The `cluster_distance` call of the scan on live slots `i` and `j`. */
  method SlotDistance(r: ClusterArray, i: nat, j: nat) returns (d: int)
    requires r.Valid() && i < r.count && j < r.count
    requires |r.Live[i]| > 0 && |r.Live[j]| > 0
    ensures d == PairDistance(r.Live, i, j)
  {
    d := ClusterDistance(r.carr[i], r.carr[j]);
  }

  /** `find_neighbours` as written: when some pair lies closer than the
      sentinel, the out-parameters receive the first minimal pair;
      otherwise they keep the values they had (`first0`, `second0`).
      Every cluster the scan measures must be non-empty. */
  method FindNeighbours(r: ClusterArray, first0: int, second0: int)
    returns (first: int, second: int)
    requires r.Valid() && 0 < r.count
    requires r.count > 1 ==> AllNonEmpty(r.Live)
    ensures SomeBelow(r.Live, Sentinel) ==> 0 <= first && 0 <= second && IsFirstMin(r.Live, first, second)
    ensures !SomeBelow(r.Live, Sentinel) ==> first == first0 && second == second0
  {
    ghost var g := r.Live;
    var narr := r.count;
    ghost var found := false;
    var smallest := Sentinel;
    first, second := first0, second0;
    var i := 0;
    while i < narr - 1
      invariant 0 <= i <= narr - 1
      invariant ScanState(g, i, i + 1, found, smallest, first, second)
      invariant found ==> smallest < Sentinel
      invariant !found ==> smallest == Sentinel && first == first0 && second == second0
    {
      var j := i + 1;
      while j < narr
        invariant i + 1 <= j <= narr
        invariant ScanState(g, i, j, found, smallest, first, second)
        invariant found ==> smallest < Sentinel
        invariant !found ==> smallest == Sentinel && first == first0 && second == second0
      {
        var current := SlotDistance(r, i, j);
        if current < smallest {
          ScanStep(g, i, j, found, smallest, first, second);
          smallest := current;
          first, second := i, j;
          found := true;
        } else {
          ScanStep(g, i, j, found, smallest, first, second);
        }
        j := j + 1;
      }
      ScanNextRow(g, i, found, smallest, first, second);
      i := i + 1;
    }
    assert BoundsScanned(g, smallest, i, i + 1);
    if SomeBelow(g, Sentinel) {
      var a, b :| 0 <= a < b < narr && PairDistance(g, a, b) < Sentinel;
      assert smallest <= PairDistance(g, a, b);
    }
  }

  /** The nearest-pair search with an explicit "no candidate yet" state in
      place of the sentinel: for two or more non-empty clusters it always
      yields the first minimal pair. */
  method FindNearestPair(r: ClusterArray) returns (first: nat, second: nat)
    requires r.Valid() && 2 <= r.count && AllNonEmpty(r.Live)
    ensures IsFirstMin(r.Live, first, second)
  {
    ghost var g := r.Live;
    var narr := r.count;
    var found := false;
    var smallest := 0;
    first, second := 0, 0;
    var i := 0;
    while i < narr - 1
      invariant 0 <= i <= narr - 1
      invariant !found ==> i == 0
      invariant ScanState(g, i, i + 1, found, smallest, first, second)
    {
      var j := i + 1;
      while j < narr
        invariant i + 1 <= j <= narr
        invariant !found ==> i == 0 && j == 1
        invariant ScanState(g, i, j, found, smallest, first, second)
      {
        var current := SlotDistance(r, i, j);
        if !found {
          ScanFirst(g);
        } else {
          ScanStep(g, i, j, found, smallest, first, second);
        }
        if !found || current < smallest {
          smallest := current;
          first, second := i, j;
          found := true;
        }
        j := j + 1;
      }
      ScanNextRow(g, i, found, smallest, first, second);
      i := i + 1;
    }
    assert BoundsScanned(g, smallest, i, i + 1);
  }

  /** Two singleton clusters 2000 apart: no pair is below the sentinel, so
      `FindNeighbours` hands back its inputs unchanged. The driver passes
      `first == second == 0` on its first round, and `merge_clusters` of a
      cluster with itself never ends. The first minimal pair is (0, 1). */
  lemma FarApartKeepsStalePair()
    ensures var g := Singletons([Point(1, 0, 0), Point(2, 2000, 0)]);
      !SomeBelow(g, Sentinel) && IsFirstMin(g, 0, 1)
  {
    var p, q := Point(1, 0, 0), Point(2, 2000, 0);
    var g := Singletons([p, q]);
    assert g == [[p], [q]];
    assert [q][..0] == [] && [p][..0] == [];
    assert RowMax(p, [q]) == Distance(p, q) == 4000000;
    assert LinkageDistance([p][..0], [q]) == 0;
    assert LinkageDistance([p], [q]) == 4000000;
    assert PairDistance(g, 0, 1) == 4000000;
    forall i, j | 0 <= i < j < |g|
      ensures PairDistance(g, i, j) >= Sentinel
    {
      assert i == 0 && j == 1;
    }
  }
}
