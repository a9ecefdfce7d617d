/**
  Points (`struct obj_t`) and the two pure operations on them: the
  comparator that orders points by identifier and the point distance.

  Coordinates are integers and the distance is the SQUARED Euclidean
  distance: the square root is monotone, so every maximum and every
  strict comparison between distances is the same as with the square
  root taken, under exact arithmetic.
 */
module Objects {

  /** A labelled point: identifier and coordinates. */
  datatype Point = Point(id: int, x: int, y: int)

  /** The comparator `obj_sort_compar`: -1, 0 or 1 as `a.id` is below,
      equal to or above `b.id`; coordinates play no part. */
  function Compare(a: Point, b: Point): (r: int)
    ensures -1 <= r <= 1
    ensures r < 0 <==> a.id < b.id
    ensures r == 0 <==> a.id == b.id
    ensures r > 0 <==> a.id > b.id
  {
    if a.id < b.id then -1
    else if a.id > b.id then 1
    else 0
  }

  /** The comparator is a total preorder: its sign flips with its
      arguments, and "not above" is reflexive, transitive and total. */
  lemma CompareIsTotalPreorder(a: Point, b: Point, c: Point)
    ensures Compare(a, b) == -Compare(b, a)
    ensures Compare(a, a) == 0
    ensures Compare(a, b) <= 0 || Compare(b, a) <= 0
    ensures Compare(a, b) <= 0 && Compare(b, c) <= 0 ==> Compare(a, c) <= 0
  {
  }

  /** `obj_distance`, squared: (x2 - x1)^2 + (y2 - y1)^2. */
  function Distance(p: Point, q: Point): (r: int)
    ensures r >= 0
    ensures r == 0 <==> p.x == q.x && p.y == q.y
  {
    var dx, dy := q.x - p.x, q.y - p.y;
    SquareNonNegative(dx);
    SquareNonNegative(dy);
    SquareZero(dx);
    SquareZero(dy);
    dx * dx + dy * dy
  }

  lemma DistanceSymmetric(p: Point, q: Point)
    ensures Distance(p, q) == Distance(q, p)
  {
    var dx, dy := q.x - p.x, q.y - p.y;
    assert (-dx) * (-dx) == dx * dx;
    assert (-dy) * (-dy) == dy * dy;
  }

  lemma SquareNonNegative(d: int)
    ensures d * d >= 0
  {
    if d < 0 {
      assert d * d == (-d) * (-d);
    }
  }

  lemma SquareZero(d: int)
    ensures d * d == 0 <==> d == 0
  {
    if d > 0 {
      assert d * d >= d;
    } else if d < 0 {
      assert (-d) * (-d) >= -d;
    }
  }
}
