/**
  Complete-linkage distance (`cluster_distance`): the largest point
  distance over all pairs drawn one from each cluster.
 */
module Linkage {
  import opened Objects
  import opened Clusters

  /** Largest distance from `p` to a point of `t`, starting from 0 as the
      source's running maximum does. */
  function RowMax(p: Point, t: seq<Point>): (r: int)
    ensures r >= 0
  {
    if |t| == 0 then 0
    else Max(RowMax(p, t[..|t| - 1]), Distance(p, t[|t| - 1]))
  }

  /** Largest distance over all pairs of `s` × `t`, 0 when there are none. */
  function LinkageDistance(s: seq<Point>, t: seq<Point>): (r: int)
    ensures r >= 0
  {
    if |s| == 0 then 0
    else Max(LinkageDistance(s[..|s| - 1], t), RowMax(s[|s| - 1], t))
  }

  /** `d` is the maximum of the pair distances: an upper bound on them
      that some pair attains. */
  ghost predicate IsMaxOverPairs(d: int, s: seq<Point>, t: seq<Point>)
  {
    && (forall i, j :: 0 <= i < |s| && 0 <= j < |t| ==> Distance(s[i], t[j]) <= d)
    && (exists i, j :: 0 <= i < |s| && 0 <= j < |t| && Distance(s[i], t[j]) == d)
  }

  lemma {:induction false} RowMaxBound(p: Point, t: seq<Point>)
    ensures forall j :: 0 <= j < |t| ==> Distance(p, t[j]) <= RowMax(p, t)
  {
    if |t| > 0 {
      RowMaxBound(p, t[..|t| - 1]);
      assert forall j :: 0 <= j < |t| - 1 ==> t[..|t| - 1][j] == t[j];
    }
  }

  lemma {:induction false} RowMaxAttained(p: Point, t: seq<Point>)
    requires |t| > 0
    ensures exists j :: 0 <= j < |t| && Distance(p, t[j]) == RowMax(p, t)
  {
    var last := Distance(p, t[|t| - 1]);
    if |t| > 1 {
      var front := t[..|t| - 1];
      RowMaxAttained(p, front);
      var j :| 0 <= j < |front| && Distance(p, front[j]) == RowMax(p, front);
      assert front[j] == t[j];
      if RowMax(p, front) >= last {
        assert Distance(p, t[j]) == RowMax(p, t);
      } else {
        assert Distance(p, t[|t| - 1]) == RowMax(p, t);
      }
    } else {
      assert RowMax(p, t[..0]) == 0;
      assert Distance(p, t[0]) == RowMax(p, t);
    }
  }

  /** Every cross pair lies within the linkage distance. */
  lemma {:induction false} LinkageBound(s: seq<Point>, t: seq<Point>)
    ensures forall i, j :: 0 <= i < |s| && 0 <= j < |t| ==> Distance(s[i], t[j]) <= LinkageDistance(s, t)
  {
    if |s| > 0 {
      var front := s[..|s| - 1];
      LinkageBound(front, t);
      RowMaxBound(s[|s| - 1], t);
      forall i, j | 0 <= i < |s| && 0 <= j < |t|
        ensures Distance(s[i], t[j]) <= LinkageDistance(s, t)
      {
        if i < |s| - 1 {
          assert front[i] == s[i];
        }
      }
    }
  }

  /** For non-empty clusters some cross pair attains the linkage distance. */
  lemma {:induction false} LinkageAttained(s: seq<Point>, t: seq<Point>)
    requires |s| > 0 && |t| > 0
    ensures exists i, j :: 0 <= i < |s| && 0 <= j < |t| && Distance(s[i], t[j]) == LinkageDistance(s, t)
  {
    var last := s[|s| - 1];
    RowMaxAttained(last, t);
    var jl :| 0 <= jl < |t| && Distance(last, t[jl]) == RowMax(last, t);
    if |s| > 1 {
      var front := s[..|s| - 1];
      LinkageAttained(front, t);
      var i, j :| 0 <= i < |front| && 0 <= j < |t| && Distance(front[i], t[j]) == LinkageDistance(front, t);
      assert front[i] == s[i];
      if LinkageDistance(front, t) >= RowMax(last, t) {
        assert Distance(s[i], t[j]) == LinkageDistance(s, t);
      } else {
        assert Distance(s[|s| - 1], t[jl]) == LinkageDistance(s, t);
      }
    } else {
      assert LinkageDistance(s[..0], t) == 0;
      assert Distance(s[0], t[jl]) == LinkageDistance(s, t);
    }
  }

  /** For non-empty clusters the linkage distance is the maximum over
      the cross pairs, and that maximum is unique. */
  lemma LinkageIsMax(s: seq<Point>, t: seq<Point>, d: int)
    requires |s| > 0 && |t| > 0
    ensures IsMaxOverPairs(LinkageDistance(s, t), s, t)
    ensures IsMaxOverPairs(d, s, t) ==> d == LinkageDistance(s, t)
  {
    LinkageBound(s, t);
    LinkageAttained(s, t);
    if IsMaxOverPairs(d, s, t) {
      var i, j :| 0 <= i < |s| && 0 <= j < |t| && Distance(s[i], t[j]) == LinkageDistance(s, t);
      var i', j' :| 0 <= i' < |s| && 0 <= j' < |t| && Distance(s[i'], t[j']) == d;
    }
  }

  /** The linkage distance does not depend on the order of the clusters. */
  lemma LinkageSymmetric(s: seq<Point>, t: seq<Point>)
    ensures LinkageDistance(s, t) == LinkageDistance(t, s)
  {
    if |s| == 0 || |t| == 0 {
      LinkageEmpty(s, t);
      LinkageEmpty(t, s);
    } else {
      var d := LinkageDistance(t, s);
      LinkageIsMax(t, s, d);
      forall i, j | 0 <= i < |s| && 0 <= j < |t|
        ensures Distance(s[i], t[j]) <= d
      {
        DistanceSymmetric(s[i], t[j]);
      }
      var j, i :| 0 <= j < |t| && 0 <= i < |s| && Distance(t[j], s[i]) == d;
      DistanceSymmetric(s[i], t[j]);
      LinkageIsMax(s, t, d);
    }
  }

  /** The linkage distance depends only on which points the clusters
      hold, not on their order. */
  lemma LinkagePerm(s: seq<Point>, s': seq<Point>, t: seq<Point>, t': seq<Point>)
    requires multiset(s) == multiset(s') && multiset(t) == multiset(t')
    ensures LinkageDistance(s, t) == LinkageDistance(s', t')
  {
    assert |s'| == |multiset(s')| == |multiset(s)| == |s|;
    assert |t'| == |multiset(t')| == |multiset(t)| == |t|;
    if |s| == 0 || |t| == 0 {
      LinkageEmpty(s, t);
      LinkageEmpty(s', t');
    } else {
      var d := LinkageDistance(s, t);
      LinkageIsMax(s, t, d);
      forall i, j | 0 <= i < |s'| && 0 <= j < |t'|
        ensures Distance(s'[i], t'[j]) <= d
      {
        assert s'[i] in multiset(s) && t'[j] in multiset(t);
        var a :| 0 <= a < |s| && s[a] == s'[i];
        var b :| 0 <= b < |t| && t[b] == t'[j];
      }
      var a, b :| 0 <= a < |s| && 0 <= b < |t| && Distance(s[a], t[b]) == d;
      assert s[a] in multiset(s') && t[b] in multiset(t');
      var i :| 0 <= i < |s'| && s'[i] == s[a];
      var j :| 0 <= j < |t'| && t'[j] == t[b];
      LinkageIsMax(s', t', d);
    }
  }

  /** Two singleton clusters lie as far apart as their points. */
  lemma LinkageSingletons(p: Point, q: Point)
    ensures LinkageDistance([p], [q]) == Distance(p, q)
  {
    assert [p][..0] == [] && [q][..0] == [];
    assert RowMax(p, [q]) == Distance(p, q);
  }

  /** Complete linkage between a cluster of two points and a singleton is
      the larger of the two point distances. */
  lemma LinkagePairSingle(a: Point, b: Point, q: Point)
    ensures LinkageDistance([a, b], [q]) == Max(Distance(a, q), Distance(b, q))
  {
    assert [a, b][..1] == [a];
    LinkageSingletons(a, q);
    LinkageSingletons(b, q);
  }

  /** Without cross pairs the running maximum stays at its start value 0. */
  lemma {:induction false} LinkageEmpty(s: seq<Point>, t: seq<Point>)
    requires |s| == 0 || |t| == 0
    ensures LinkageDistance(s, t) == 0
  {
    if |s| > 0 {
      LinkageEmpty(s[..|s| - 1], t);
      assert RowMax(s[|s| - 1], t) == 0;
    }
  }

  /** `cluster_distance`: the nested scan keeps the largest pair distance
      seen, updating only on a strictly larger one. Both clusters must be
      non-empty. */
  method ClusterDistance(c1: Cluster, c2: Cluster) returns (d: int)
    requires c1.Valid() && c2.Valid()
    requires c1.size > 0 && c2.size > 0
    ensures d == LinkageDistance(c1.Contents(), c2.Contents())
    ensures IsMaxOverPairs(d, c1.Contents(), c2.Contents())
  {
    ghost var s, t := c1.Contents(), c2.Contents();
    d := 0;
    var i := 0;
    while i < c1.size
      invariant 0 <= i <= c1.size
      invariant d == LinkageDistance(s[..i], t)
    {
      var j := 0;
      while j < c2.size
        invariant 0 <= j <= c2.size
        invariant d == Max(LinkageDistance(s[..i], t), RowMax(s[i], t[..j]))
      {
        var current := Distance(c1.obj[i], c2.obj[j]);
        assert t[..j + 1][..j] == t[..j];
        if current > d {
          d := current;
        }
        j := j + 1;
      }
      assert t[..j] == t;
      assert s[..i + 1][..i] == s[..i];
      i := i + 1;
    }
    assert s[..i] == s;
    LinkageIsMax(s, t, d);
  }
}
