/**
  The driver loop of `main`: starting from one singleton cluster per
  point, it repeatedly finds the nearest pair of clusters, merges the
  second into the first and swap-removes the second, until `number`
  clusters are left.
 */
module Driver {
  import opened Objects
  import opened Sorting
  import opened Registry
  import opened Neighbours
  import opened Linkage

  /** The registry value after one round that picked (`first`, `second`)
      and merged their points into `merged`: `merged` takes slot `first`,
      then slot `second` is swap-removed. */
  function AfterRound(g: seq<seq<Point>>, first: nat, second: nat, merged: seq<Point>): (h: seq<seq<Point>>)
    requires first < second < |g|
    ensures |h| == |g| - 1 && h[first] == merged
    ensures second < |h| ==> h[second] == g[|g| - 1]
    ensures forall k :: 0 <= k < |h| && k != first && k != second ==> h[k] == g[k]
  {
    SwapRemove(g[first := merged], second)
  }

  /** One round on a registry value `g`: with `merged` a sorted
      permutation of clusters `first` and `second`, the result keeps every
      cluster non-empty, keeps sortedness, and keeps the multiset of all
      points. */
  lemma RoundPreserves(g: seq<seq<Point>>, first: nat, second: nat, merged: seq<Point>)
    requires first < second < |g|
    requires AllNonEmpty(g)
    requires SortedById(merged) && multiset(merged) == multiset(g[first]) + multiset(g[second])
    ensures var h := AfterRound(g, first, second, merged);
      && AllNonEmpty(h)
      && (AllSorted(g) ==> AllSorted(h))
      && Total(h) == Total(g)
  {
    var h := AfterRound(g, first, second, merged);
    assert |merged| > 0 by {
      assert |g[first]| > 0;
      assert g[first][0] in multiset(merged);
    }
    forall k | 0 <= k < |h|
      ensures |h[k]| > 0 && (AllSorted(g) ==> SortedById(h[k]))
    {
      if k == second {
        assert h[k] == g[|g| - 1];
      } else if k != first {
        assert h[k] == g[k];
      }
    }
    RoundTotal(g, first, second, merged);
  }

  /** A round moves points between clusters and loses none. */
  lemma RoundTotal(g: seq<seq<Point>>, first: nat, second: nat, merged: seq<Point>)
    requires first < second < |g|
    requires multiset(merged) == multiset(g[first]) + multiset(g[second])
    ensures Total(AfterRound(g, first, second, merged)) == Total(g)
  {
    var g1 := g[first := merged];
    var h := SwapRemove(g1, second);
    TotalUpdate(g, first, merged);
    TotalSwapRemove(g1, second);
    assert g1[second] == g[second];
    forall z
      ensures Total(h)[z] == Total(g)[z]
    {
      assert (Total(g1) + multiset(g[first]))[z] == (Total(g) + multiset(merged))[z];
      assert (Total(h) + multiset(g[second]))[z] == Total(g1)[z];
    }
  }

  /** Rounds on registries holding the same points slot by slot, with
      merged clusters holding the same points, give registries holding the
      same points slot by slot. */
  lemma AfterRoundSame(g: seq<seq<Point>>, h: seq<seq<Point>>, first: nat, second: nat, m: seq<Point>, m': seq<Point>)
    requires SameClusters(g, h) && first < second < |g|
    requires multiset(m) == multiset(m')
    ensures SameClusters(AfterRound(g, first, second, m), AfterRound(h, first, second, m'))
  {
    var a, b := AfterRound(g, first, second, m), AfterRound(h, first, second, m');
    forall k | 0 <= k < |a|
      ensures multiset(a[k]) == multiset(b[k])
    {
      if k == second {
        assert a[k] == g[|g| - 1] && b[k] == h[|h| - 1];
      } else if k != first {
        assert a[k] == g[k] && b[k] == h[k];
      }
    }
  }

  /** The clustering `main` computes, as a reference definition: while
      more than `number` clusters are left, merge the first minimal pair
      (the points of the first, then those of the second, sorted by id)
      into the first and swap-remove the second. */
  ghost function Agglomerate(g: seq<seq<Point>>, number: nat): (h: seq<seq<Point>>)
    requires 1 <= number <= |g|
    ensures |h| == number
    decreases |g|
  {
    if |g| == number then g
    else
      var p := FirstMinPair(g);
      Agglomerate(AfterRound(g, p.0, p.1, SortById(g[p.0] + g[p.1])), number)
  }

  /** The outcome of clustering depends only on which points each cluster
      holds, not on their order inside the cluster. */
  lemma {:induction false} AgglomerateSame(g: seq<seq<Point>>, h: seq<seq<Point>>, number: nat)
    requires SameClusters(g, h) && 1 <= number <= |g|
    ensures SameClusters(Agglomerate(g, number), Agglomerate(h, number))
    decreases |g|
  {
    if |g| != number {
      var p, q := FirstMinPair(g), FirstMinPair(h);
      FirstMinPairIsFirstMin(g);
      FirstMinPairIsFirstMin(h);
      FirstMinSame(g, h, p.0, p.1);
      FirstMinUnique(h, p.0, p.1, q.0, q.1);
      var mg, mh := SortById(g[p.0] + g[p.1]), SortById(h[p.0] + h[p.1]);
      assert multiset(mg) == multiset(g[p.0]) + multiset(g[p.1]);
      assert multiset(mh) == multiset(h[p.0]) + multiset(h[p.1]);
      AfterRoundSame(g, h, p.0, p.1, mg, mh);
      AgglomerateSame(AfterRound(g, p.0, p.1, mg), AfterRound(h, p.0, p.1, mh), number);
    }
  }

  /** One round of the reference: when (`first`, `second`) is the first
      minimal pair, the reference merges exactly that pair. */
  lemma AgglomerateFirstMin(g: seq<seq<Point>>, first: nat, second: nat, number: nat)
    requires 1 <= number < |g| && IsFirstMin(g, first, second)
    ensures Agglomerate(g, number) == Agglomerate(AfterRound(g, first, second, SortById(g[first] + g[second])), number)
  {
    var p := FirstMinPair(g);
    FirstMinPairIsFirstMin(g);
    FirstMinUnique(g, first, second, p.0, p.1);
  }

  /** A round that merges the first minimal pair into any arrangement of
      its points leaves the outcome of clustering unchanged, up to the
      order inside each cluster. */
  lemma AgglomerateStep(g: seq<seq<Point>>, first: nat, second: nat, merged: seq<Point>, number: nat)
    requires 1 <= number < |g| && IsFirstMin(g, first, second)
    requires multiset(merged) == multiset(g[first]) + multiset(g[second])
    ensures SameClusters(Agglomerate(AfterRound(g, first, second, merged), number), Agglomerate(g, number))
  {
    AgglomerateFirstMin(g, first, second, number);
    var ref := SortById(g[first] + g[second]);
    assert multiset(ref) == multiset(merged);
    AfterRoundSame(g, g, first, second, merged, ref);
    AgglomerateSame(AfterRound(g, first, second, merged), AfterRound(g, first, second, ref), number);
  }

  /** The last two statements of a round, `merge_clusters` and
      `remove_cluster` on the pair (`first`, `second`): the registry
      becomes `AfterRound` of a sorted cluster of the points of both, and
      keeps its points. */
  method MergeRound(r: ClusterArray, first: nat, second: nat)
    requires r.Valid() && first < second < r.count && AllNonEmpty(r.Live)
    modifies r.Repr
    ensures r.Valid() && fresh(r.Repr - old(r.Repr)) && r.carr == old(r.carr)
    ensures r.count == old(r.count) - 1
    ensures SortedById(r.Live[first])
    ensures multiset(r.Live[first]) == multiset(old(r.Live)[first]) + multiset(old(r.Live)[second])
    ensures r.Live == AfterRound(old(r.Live), first, second, r.Live[first])
    ensures AllNonEmpty(r.Live) && Total(r.Live) == Total(old(r.Live))
    ensures AllSorted(old(r.Live)) ==> AllSorted(r.Live)
  {
    ghost var g := r.Live;
    r.Merge(first, second);
    ghost var merged := r.Live[first];
    RoundPreserves(g, first, second, merged);
    var _ := r.RemoveCluster(second);
    assert r.Live == AfterRound(g, first, second, merged);
  }

  /** One round of the loop: find, merge, remove. (`first`, `second`) is
      the first nearest pair; the registry becomes `AfterRound` of a
      sorted cluster of the points of both. */
  method ClusterStep(r: ClusterArray) returns (first: nat, second: nat)
    requires r.Valid() && 2 <= r.count && AllNonEmpty(r.Live)
    modifies r.Repr
    ensures r.Valid() && fresh(r.Repr - old(r.Repr)) && r.carr == old(r.carr)
    ensures r.count == old(r.count) - 1
    ensures IsFirstMin(old(r.Live), first, second)
    ensures SortedById(r.Live[first])
    ensures multiset(r.Live[first]) == multiset(old(r.Live)[first]) + multiset(old(r.Live)[second])
    ensures r.Live == AfterRound(old(r.Live), first, second, r.Live[first])
    ensures AllNonEmpty(r.Live) && Total(r.Live) == Total(old(r.Live))
    ensures AllSorted(old(r.Live)) ==> AllSorted(r.Live)
  {
    first, second := FindNearestPair(r);
    MergeRound(r, first, second);
  }

  /** What the loop keeps between rounds, about the registry value `g`
      reached from `g0`: at least `number` clusters, all non-empty, the
      same points, sortedness, and the same outcome of clustering. */
  ghost predicate Reached(g0: seq<seq<Point>>, g: seq<seq<Point>>, number: nat)
  {
    && 1 <= number <= |g| <= |g0|
    && AllNonEmpty(g) && Total(g) == Total(g0)
    && (AllSorted(g0) ==> AllSorted(g))
    && (|g| == |g0| ==> g == g0)
    && SameClusters(Agglomerate(g, number), Agglomerate(g0, number))
  }

  /** When the loop stops, `Reached` is the loop's promise. */
  lemma ReachedDone(g0: seq<seq<Point>>, g: seq<seq<Point>>, number: nat)
    requires Reached(g0, g, number) && |g| == number
    ensures AllNonEmpty(g) && Total(g) == Total(g0)
    ensures AllSorted(g0) ==> AllSorted(g)
    ensures number == |g0| ==> g == g0
    ensures SameClusters(g, Agglomerate(g0, number))
  {
  }

  /** One round of the loop keeps `Reached`. */
  lemma ReachedStep(g0: seq<seq<Point>>, g: seq<seq<Point>>, first: nat, second: nat, merged: seq<Point>, number: nat)
    requires Reached(g0, g, number) && number < |g|
    requires IsFirstMin(g, first, second)
    requires SortedById(merged) && multiset(merged) == multiset(g[first]) + multiset(g[second])
    ensures Reached(g0, AfterRound(g, first, second, merged), number)
  {
    var h := AfterRound(g, first, second, merged);
    RoundPreserves(g, first, second, merged);
    AgglomerateStep(g, first, second, merged, number);
    SameClustersTrans(Agglomerate(h, number), Agglomerate(g, number), Agglomerate(g0, number));
  }

  /** The body of the loop: one `ClusterStep`, which keeps `Reached`. */
  method Round(r: ClusterArray, ghost g0: seq<seq<Point>>, ghost number: nat)
    requires r.Valid() && number < r.count && Reached(g0, r.Live, number)
    modifies r.Repr
    ensures r.Valid() && fresh(r.Repr - old(r.Repr)) && r.carr == old(r.carr)
    ensures r.count == old(r.count) - 1
    ensures Reached(g0, r.Live, number)
  {
    ghost var g := r.Live;
    var first, second := ClusterStep(r);
    ReachedStep(g0, g, first, second, r.Live[first], number);
  }

  /** The `while (count != number)` loop of `main`. It runs exactly
      `old(r.count) - number` rounds and ends with the clusters of
      `Agglomerate`, each possibly in another order; every live cluster is
      non-empty, the clusters together hold exactly the points they held
      before, and sortedness of every cluster is kept. With
      `number == old(r.count)` nothing changes. */
  method RunClustering(r: ClusterArray, number: nat) returns (ghost rounds: nat)
    requires r.Valid() && 1 <= number <= r.count && AllNonEmpty(r.Live)
    modifies r.Repr
    ensures r.Valid() && fresh(r.Repr - old(r.Repr)) && r.carr == old(r.carr)
    ensures r.count == number && rounds == old(r.count) - number
    ensures AllNonEmpty(r.Live) && Total(r.Live) == old(Total(r.Live))
    ensures AllSorted(old(r.Live)) ==> AllSorted(r.Live)
    ensures number == old(r.count) ==> r.Live == old(r.Live)
    ensures SameClusters(r.Live, Agglomerate(old(r.Live), number))
  {
    ghost var g0 := r.Live;
    rounds := 0;
    while r.count != number
      invariant r.Valid() && fresh(r.Repr - old(r.Repr)) && r.carr == old(r.carr)
      invariant rounds == |g0| - r.count
      invariant Reached(g0, r.Live, number)
      decreases r.count
    {
      Round(r, g0, number);
      rounds := rounds + 1;
    }
    ReachedDone(g0, r.Live, number);
  }

  /** `main` without its input and output: the singleton registry of
      `load_clusters` over `points`, clustered down to `number` clusters.
      Every result cluster is non-empty and sorted by identifier, the
      clusters together hold exactly the input points, `number` equal to
      the point count leaves the singletons, and `number == 1` leaves one
      sorted cluster of all points. Cluster by cluster, the result holds
      the points of `Agglomerate`. With no points and target 0 the loop
      does not run. */
  method Clustering(points: seq<Point>, number: nat) returns (r: ClusterArray)
    requires 1 <= number <= |points| || number == |points| == 0
    ensures r.Valid() && r.count == number && r.carr.Length == |points|
    ensures AllNonEmpty(r.Live) && AllSorted(r.Live)
    ensures Total(r.Live) == multiset(points)
    ensures number == |points| ==> r.Live == Singletons(points)
    ensures number == 1 ==> SortedById(r.Live[0]) && multiset(r.Live[0]) == multiset(points)
    ensures 1 <= number ==> SameClusters(r.Live, Agglomerate(Singletons(points), number))
  {
    r := new ClusterArray.Load(points);
    TotalSingletons(points);
    if 1 <= number {
      ghost var rounds := RunClustering(r, number);
    }
    if number == 1 {
      TotalSingle(r.Live);
    }
  }

  /** The four points of the worked example: 1 at (0, 0), 2 at (1, 0),
      3 at (0, 1) and 4 at (5, 5). */
  const P1: Point := Point(1, 0, 0)
  const P2: Point := Point(2, 1, 0)
  const P3: Point := Point(3, 0, 1)
  const P4: Point := Point(4, 5, 5)

  /** The first round on the example merges clusters 0 and 1: they lie at
      distance 1, no pair lies closer, and (0, 1) is scanned first. The
      former last cluster then takes slot 1. */
  lemma ExampleFirstRound()
    ensures Agglomerate(Singletons([P1, P2, P3, P4]), 2) == Agglomerate([[P1, P2], [P4], [P3]], 2)
  {
    var g0 := Singletons([P1, P2, P3, P4]);
    assert AfterRound(g0, 0, 1, [P1, P2]) == [[P1, P2], [P4], [P3]];
    assert g0[0] + g0[1] == [P1, P2];
    SortByIdOfSorted([P1, P2]);
    ExampleFirstPair();
    AgglomerateFirstMin(g0, 0, 1, 2);
  }

  /** The pair the first round picks. */
  lemma ExampleFirstPair()
    ensures IsFirstMin(Singletons([P1, P2, P3, P4]), 0, 1)
  {
    var g0 := Singletons([P1, P2, P3, P4]);
    forall i, j | 0 <= i < j < 4
      ensures 1 <= PairDistance(g0, i, j)
    {
      LinkageSingletons(g0[i][0], g0[j][0]);
    }
    LinkageSingletons(P1, P2);
    assert PairDistance(g0, 0, 1) == 1;
    forall i, j | 0 <= i < j < 4 && ScannedBefore(i, j, 0, 1)
      ensures false
    {
    }
  }

  /** The point distances the second round compares. */
  lemma ExampleDistances()
    ensures Distance(P1, P4) == 50 && Distance(P2, P4) == 41
    ensures Distance(P1, P3) == 1 && Distance(P2, P3) == 2 && Distance(P4, P3) == 41
  {
  }

  /** The second round on the example merges clusters 0 and 2: the
      linkage distances are 50 for (0, 1), 2 for (0, 2) and 41 for (1, 2).
      Two clusters are then left and the loop stops. */
  lemma ExampleSecondRound()
    ensures Agglomerate([[P1, P2], [P4], [P3]], 2) == [[P1, P2, P3], [P4]]
  {
    var g1 := [[P1, P2], [P4], [P3]];
    var g2 := [[P1, P2, P3], [P4]];
    assert Agglomerate(g1, 2) == Agglomerate(g2, 2) by {
      assert AfterRound(g1, 0, 2, [P1, P2, P3]) == g2;
      assert g1[0] + g1[2] == [P1, P2, P3];
      SortByIdOfSorted([P1, P2, P3]);
      ExampleSecondPair();
      AgglomerateFirstMin(g1, 0, 2, 2);
    }
  }

  /** The pair the second round picks. */
  lemma ExampleSecondPair()
    ensures IsFirstMin([[P1, P2], [P4], [P3]], 0, 2)
  {
    ExampleDistances();
    LinkagePairSingle(P1, P2, P4);
    LinkagePairSingle(P1, P2, P3);
    LinkageSingletons(P4, P3);
  }

  /** The worked example end to end: clustered down to two clusters,
      points 1, 2 and 3 end up together, ordered by identifier, and point 4
      alone. */
  lemma ExampleClustering()
    ensures Agglomerate(Singletons([P1, P2, P3, P4]), 2) == [[P1, P2, P3], [P4]]
  {
    ExampleFirstRound();
    ExampleSecondRound();
  }
}
