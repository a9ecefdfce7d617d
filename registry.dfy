/**
  The cluster registry: the array of clusters whose first `count` slots
  are live, as `main` holds it; its construction from the loaded points
  (`load_clusters`), the swap-remove `remove_cluster`, the merge of two
  live slots, and the final release loop of `main`.

  `Total` is the multiset of all points held, which clustering never
  changes.
 */
module Registry {
  import opened Objects
  import opened Sorting
  import opened Clusters

  /** Every live cluster holds at least one point. */
  ghost predicate AllNonEmpty(g: seq<seq<Point>>)
  {
    forall i :: 0 <= i < |g| ==> |g[i]| > 0
  }

  /** Every live cluster lists its points ascending by identifier. */
  ghost predicate AllSorted(g: seq<seq<Point>>)
  {
    forall i :: 0 <= i < |g| ==> SortedById(g[i])
  }

  /** Two registry values hold the same points slot by slot, each
      cluster possibly in another order. */
  ghost predicate SameClusters(g: seq<seq<Point>>, h: seq<seq<Point>>)
  {
    |g| == |h| && forall i :: 0 <= i < |g| ==> multiset(g[i]) == multiset(h[i])
  }

  lemma SameClustersTrans(a: seq<seq<Point>>, b: seq<seq<Point>>, c: seq<seq<Point>>)
    requires SameClusters(a, b) && SameClusters(b, c)
    ensures SameClusters(a, c)
  {
  }

  /** All points held by the registry, with multiplicity. */
  ghost function Total(g: seq<seq<Point>>): multiset<Point>
  {
    if |g| == 0 then multiset{} else Total(g[..|g| - 1]) + multiset(g[|g| - 1])
  }

  /** The registry value after `remove_cluster(carr, |g|, idx)`: the last
      cluster moves into slot `idx` and the registry shrinks by one. */
  function SwapRemove<T>(g: seq<T>, idx: nat): (r: seq<T>)
    requires idx < |g|
    ensures |r| == |g| - 1
    ensures idx < |g| - 1 ==> r[idx] == g[|g| - 1]
    ensures forall k :: 0 <= k < |g| - 1 && k != idx ==> r[k] == g[k]
  {
    g[idx := g[|g| - 1]][..|g| - 1]
  }

  /** The registry built by `load_clusters`: one singleton per point, in
      input order. */
  function Singletons(points: seq<Point>): (g: seq<seq<Point>>)
    ensures |g| == |points|
    ensures forall i :: 0 <= i < |points| ==> g[i] == [points[i]]
  {
    seq(|points|, i requires 0 <= i < |points| => [points[i]])
  }

  /** Replacing one cluster changes the registry's points by exactly the
      points taken out and put in. */
  lemma {:induction false} TotalUpdate(g: seq<seq<Point>>, i: nat, s: seq<Point>)
    requires i < |g|
    ensures Total(g[i := s]) + multiset(g[i]) == Total(g) + multiset(s)
  {
    var last := |g| - 1;
    var h := g[i := s];
    if i < last {
      var front := g[..last];
      assert h[..last] == front[i := s];
      assert h[last] == g[last];
      assert front[i] == g[i];
      TotalUpdate(front, i, s);
      MultisetShift(Total(front[i := s]), Total(front), multiset(g[i]), multiset(s), multiset(g[last]));
    } else {
      assert h[..last] == g[..last];
    }
  }

  /** An equation between multiset sums survives adding `l` to both sides. */
  lemma MultisetShift<T>(a: multiset<T>, b: multiset<T>, x: multiset<T>, y: multiset<T>, l: multiset<T>)
    requires a + x == b + y
    ensures a + l + x == b + l + y
  {
    forall z
      ensures (a + l + x)[z] == (b + l + y)[z]
    {
      assert (a + x)[z] == (b + y)[z];
    }
  }

  /** Swap-remove loses exactly the points of the removed cluster. */
  lemma {:induction false} TotalSwapRemove(g: seq<seq<Point>>, idx: nat)
    requires idx < |g|
    ensures Total(SwapRemove(g, idx)) + multiset(g[idx]) == Total(g)
  {
    var last := |g| - 1;
    var moved := g[idx := g[last]];
    var rest := SwapRemove(g, idx);
    TotalUpdate(g, idx, g[last]);
    assert rest == moved[..last];
    assert Total(moved) == Total(rest) + multiset(g[last]);
    assert Total(rest) + multiset(g[idx]) + multiset(g[last]) == Total(g) + multiset(g[last]);
    MultisetCancel(Total(rest) + multiset(g[idx]), Total(g), multiset(g[last]));
  }

  lemma MultisetCancel<T>(a: multiset<T>, b: multiset<T>, x: multiset<T>)
    requires a + x == b + x
    ensures a == b
  {
    forall z
      ensures a[z] == b[z]
    {
      assert (a + x)[z] == (b + x)[z];
    }
  }

  /** The singleton registry holds exactly the loaded points. */
  lemma {:induction false} TotalSingletons(points: seq<Point>)
    ensures Total(Singletons(points)) == multiset(points)
  {
    if |points| > 0 {
      var front := points[..|points| - 1];
      TotalSingletons(front);
      assert Singletons(points)[..|points| - 1] == Singletons(front);
      assert points == front + [points[|points| - 1]];
    }
  }

  /** A registry of one cluster holds its points and nothing else. */
  lemma TotalSingle(g: seq<seq<Point>>)
    requires |g| == 1
    ensures Total(g) == multiset(g[0])
  {
    assert g[..0] == [];
  }


  /** One slot of `load_clusters`: `init_cluster(c, 1)`, then size 1 and
      the point stored in the first slot. */
  method NewSingleton(p: Point) returns (c: Cluster)
    ensures fresh(c) && fresh(c.obj) && c.Valid()
    ensures c.size == 1 && c.capacity == 1 && c.Contents() == [p]
  {
    c := new Cluster(1);
    c.size := 1;
    c.obj[0] := p;
  }

  /** `c` is a valid cluster holding exactly `s`. */
  ghost predicate Holds(c: Cluster, s: seq<Point>)
    reads c, c.obj
  {
    c.Valid() && c.Contents() == s
  }

  /** The array of clusters `main` works on, with the number of live
      slots. `Live` is the value it stands for, the live clusters' point
      sequences slot by slot; `Cs` the cluster in each live slot; `Repr`
      is every object it owns. */
  class ClusterArray {
    var carr: array<Cluster>
    var count: nat
    ghost var Live: seq<seq<Point>>
    ghost var Repr: set<object>
    ghost var Cs: seq<Cluster>

    /** Every live slot holds the cluster `Cs` names for it, valid and with
        the points `Live` gives it, and no two live slots share a cluster
        or a buffer. */
    ghost predicate Valid()
      reads this, Repr
    {
      && this in Repr && carr in Repr
      && count <= carr.Length && |Live| == count && |Cs| == count
      && (forall i :: 0 <= i < count ==> carr[i] == Cs[i])
      && (forall i :: 0 <= i < count ==> Cs[i] in Repr && Cs[i].obj in Repr)
      && (forall i :: 0 <= i < count ==> Holds(Cs[i], Live[i]))
      && (forall i, j :: 0 <= i < j < count ==> Cs[i] != Cs[j] && Cs[i].obj != Cs[j].obj)
    }

    /** The singleton construction of `load_clusters`: slot `i` holds a
        cluster of size and capacity 1 with `points[i]`. Reading the file
        is not modelled: the points are given. */
    constructor Load(points: seq<Point>)
      ensures Valid() && fresh(Repr)
      ensures carr.Length == count == |points|
      ensures Live == Singletons(points)
      ensures forall i :: 0 <= i < count ==> carr[i].size == 1 && carr[i].capacity == 1
    {
      var built: seq<Cluster> := [];
      ghost var owned: set<object> := {};
      var i := 0;
      while i < |points|
        invariant 0 <= i <= |points| && |built| == i
        invariant fresh(owned)
        invariant forall k :: 0 <= k < i ==> built[k] in owned && built[k].obj in owned
        invariant forall k :: 0 <= k < i ==> built[k].Valid() && built[k].size == 1 && built[k].capacity == 1
        invariant forall k :: 0 <= k < i ==> built[k].Contents() == [points[k]]
        invariant forall k, l :: 0 <= k < l < i ==> built[k] != built[l] && built[k].obj != built[l].obj
      {
        var c := NewSingleton(points[i]);
        built := built + [c];
        owned := owned + {c, c.obj};
        i := i + 1;
      }
      var a := new Cluster[|points|](k requires 0 <= k < |points| => built[k]);
      assert a[..] == built;
      carr := a;
      count := |points|;
      Live := Singletons(points);
      Repr := {this, a} + owned;
      Cs := built;
      new;
      forall k | 0 <= k < count
        ensures carr[k] == Cs[k] && Cs[k] in Repr && Cs[k].obj in Repr
        ensures Holds(Cs[k], Live[k])
      {
      }
    }

    /** `remove_cluster`: frees the cluster at `idx`, moves the last live
        cluster into slot `idx`, re-initialises the vacated last slot to an
        empty cluster of capacity 0, and returns the new count. */
    method RemoveCluster(idx: nat) returns (n: nat)
      requires Valid() && idx < count
      modifies this, carr, carr[idx]
      ensures Valid() && Repr == old(Repr) && carr == old(carr)
      ensures n == count == old(count) - 1
      ensures Live == SwapRemove(old(Live), idx)
      ensures Cs == SwapRemove(old(Cs), idx)
      ensures fresh(carr[n]) && carr[n].Valid() && carr[n].size == 0 && carr[n].capacity == 0
      ensures old(carr[idx]).size == 0 && old(carr[idx]).capacity == 0
    {
      var removed := carr[idx];
      removed.Clear();
      n := count - 1;
      carr[idx] := carr[n];
      carr[n] := new Cluster(0);
      count, Live, Cs := n, SwapRemove(Live, idx), SwapRemove(Cs, idx);
      forall k | 0 <= k < n
        ensures carr[k] == Cs[k] && Cs[k] in Repr && Cs[k].obj in Repr
        ensures Cs[k] != removed && Holds(Cs[k], Live[k])
      {
      }
    }

    /** `merge_clusters(&clusters[first], &clusters[second])`: only slot
        `first` changes, to a sorted cluster of the points of both whose
        capacity is the larger of its old capacity and its new size; every
        other live cluster keeps its points, capacity and buffer. */
    method Merge(first: nat, second: nat)
      requires Valid() && first < count && second < count && first != second
      modifies Repr
      ensures Valid() && fresh(Repr - old(Repr))
      ensures carr == old(carr) && count == old(count) && Cs == old(Cs)
      ensures Live == old(Live)[first := Live[first]]
      ensures SortedById(Live[first])
      ensures multiset(Live[first]) == multiset(old(Live[first])) + multiset(old(Live[second]))
      ensures Cs[first].capacity == Max(old(Cs[first].capacity), |Live[first]|)
      ensures forall k :: 0 <= k < count && k != first ==>
        Cs[k].obj == old(Cs[k].obj) && Cs[k].capacity == old(Cs[k].capacity)
    {
      var c1 := carr[first];
      MergeClusters(c1, carr[second]);
      Live, Repr := Live[first := c1.Contents()], Repr + {c1.obj};
      forall k | 0 <= k < count
        ensures carr[k] == Cs[k] && Cs[k] in Repr && Cs[k].obj in Repr
        ensures k != first ==> Cs[k].obj == old(Cs[k].obj) && Cs[k].capacity == old(Cs[k].capacity) && Holds(Cs[k], Live[k])
      {
        if k != first {
          assert Cs[k] != c1;
        }
      }
    }

    /** The release loop at the end of `main`: clears every live cluster. */
    method Release()
      requires Valid()
      modifies Repr
      ensures Valid() && fresh(Repr - old(Repr))
      ensures carr == old(carr) && count == old(count) && Cs == old(Cs)
      ensures forall i :: 0 <= i < count ==> carr[i].size == 0 && carr[i].capacity == 0 && Live[i] == []
    {
      var i := 0;
      while i < count
        invariant 0 <= i <= count
        invariant Valid() && fresh(Repr - old(Repr))
        invariant carr == old(carr) && count == old(count) && Cs == old(Cs)
        invariant forall k :: 0 <= k < i ==> Cs[k].size == 0 && Cs[k].capacity == 0 && Live[k] == []
      {
        var c := carr[i];
        c.Clear();
        Live, Repr := Live[i := []], Repr + {c.obj};
        forall k | 0 <= k < count
          ensures carr[k] == Cs[k] && Cs[k] in Repr && Cs[k].obj in Repr
          ensures k != i ==> Holds(Cs[k], Live[k])
          ensures k < i ==> Cs[k].size == 0 && Cs[k].capacity == 0
        {
          if k != i {
            assert Cs[k] != c;
          }
        }
        i := i + 1;
      }
    }
  }
}
