/**
  The cluster container (`struct cluster_t`): a manually grown buffer of
  points with explicit `size` and `capacity`, and the operations that
  change it in place, together with `merge_clusters`.

  A NULL buffer (capacity 0) is an array of length 0; `free` is dropping
  the reference.
 */
module Clusters {
  import opened Objects
  import opened Sorting

  function Max(a: int, b: int): int
  {
    if a < b then b else a
  }

  class Cluster {
    var size: nat
    var capacity: nat
    var obj: array<Point>

    /** The container invariant: `size <= capacity`, and the buffer holds
        exactly `capacity` slots. */
    ghost predicate Valid()
      reads this
    {
      size <= capacity && obj.Length == capacity
    }

    /** The points held, `obj[0..size)`. */
    ghost function Contents(): seq<Point>
      reads this, obj
      requires Valid()
    {
      obj[..size]
    }

    /** A fresh struct initialised by `init_cluster(c, cap)`. */
    constructor (cap: nat)
      ensures Valid() && fresh(obj)
      ensures size == 0 && capacity == cap && Contents() == []
    {
      size := 0;
      capacity := cap;
      obj := new Point[cap];
    }

    /** `init_cluster`: empty, with room reserved for `cap` points. */
    method Init(cap: nat)
      modifies this
      ensures Valid() && fresh(obj)
      ensures size == 0 && capacity == cap && Contents() == []
    {
      size := 0;
      capacity := cap;
      obj := new Point[cap];
    }

    /** `clear_cluster`: releases the storage and leaves an empty
        cluster of capacity 0. */
    method Clear()
      modifies this
      ensures Valid() && fresh(obj)
      ensures size == 0 && capacity == 0 && Contents() == []
    {
      Init(0);
    }

    /** `resize_cluster`: grows the buffer to `newCap` when it is smaller,
        keeping the points held; never shrinks. `allocOk` stands for the
        outcome of `realloc`; on failure (`ok` false, the NULL return)
        nothing changes. */
    method Resize(newCap: nat, allocOk: bool) returns (ok: bool)
      requires Valid()
      modifies this
      ensures Valid()
      ensures ok <==> old(capacity) >= newCap || allocOk
      ensures capacity == if old(capacity) < newCap && allocOk then newCap else old(capacity)
      ensures capacity >= old(capacity)
      ensures size == old(size) && Contents() == old(Contents())
      ensures old(capacity) >= newCap || !allocOk ==> obj == old(obj)
      ensures obj == old(obj) || fresh(obj)
    {
      if capacity >= newCap {
        return true;
      }
      if !allocOk {
        return false;
      }
      var arr := new Point[newCap];
      forall k | 0 <= k < obj.Length {
        arr[k] := obj[k];
      }
      obj := arr;
      capacity := newCap;
      ok := true;
    }

    /** `append_cluster`: grows the capacity by exactly one when full,
        then stores `p` after the last point. */
    method Append(p: Point)
      requires Valid()
      modifies this, obj
      ensures Valid()
      ensures size == old(size) + 1
      ensures Contents() == old(Contents()) + [p]
      ensures capacity == if old(size) == old(capacity) then old(capacity) + 1 else old(capacity)
      ensures old(size) < old(capacity) ==> obj == old(obj)
      ensures obj == old(obj) || fresh(obj)
    {
      if size == capacity {
        var _ := Resize(capacity + 1, true);
      }
      obj[size] := p;
      size := size + 1;
    }

    /** `sort_cluster`: reorders the points ascending by identifier. */
    method Sort()
      requires Valid()
      modifies obj
      ensures Valid()
      ensures SortedById(Contents())
      ensures multiset(Contents()) == multiset(old(Contents()))
    {
      var sorted := SortById(obj[..size]);
      forall k | 0 <= k < size {
        obj[k] := sorted[k];
      }
      assert obj[..size] == sorted;
    }
  }

  /** `merge_clusters`: appends every point of `c2` to `c1`, then sorts
      `c1`. The clusters must be distinct: with `c1 == c2` the loop bound
      grows with every append and the loop does not end. */
  method MergeClusters(c1: Cluster, c2: Cluster)
    requires c1.Valid() && c2.Valid()
    requires c1 != c2 && c1.obj != c2.obj
    modifies c1, c1.obj
    ensures c1.Valid()
    ensures c1.size == old(c1.size) + c2.size
    ensures c1.capacity == Max(old(c1.capacity), c1.size)
    ensures SortedById(c1.Contents())
    ensures multiset(c1.Contents()) == multiset(old(c1.Contents())) + multiset(c2.Contents())
    ensures c1.obj == old(c1.obj) || fresh(c1.obj)
    ensures unchanged(c2, c2.obj)
  {
    var i := 0;
    while i < c2.size
      invariant 0 <= i <= c2.size
      invariant c1.Valid() && c1.obj != c2.obj
      invariant c1.size == old(c1.size) + i
      invariant c1.capacity == Max(old(c1.capacity), c1.size)
      invariant c1.Contents() == old(c1.Contents()) + c2.Contents()[..i]
      invariant c1.obj == old(c1.obj) || fresh(c1.obj)
      invariant unchanged(c2, c2.obj)
    {
      assert c2.Contents()[..i + 1] == c2.Contents()[..i] + [c2.obj[i]];
      c1.Append(c2.obj[i]);
      i := i + 1;
    }
    assert c2.Contents()[..i] == c2.Contents();
    c1.Sort();
  }
}
