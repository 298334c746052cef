/** Boxes, points and the distance and rounding helpers the analytics share. */
module Geometry {

  /** A point in image pixels or, after the view transform, in pitch metres. */
  datatype Point = Point(x: real, y: real)

  /** An axis-aligned bounding box `[x1, y1, x2, y2]` as the tracker reports it:
      (x1, y1) is the top-left corner, (x2, y2) the bottom-right one. */
  datatype Box = Box(x1: real, y1: real, x2: real, y2: real)

  function Width(b: Box): real {
    b.x2 - b.x1
  }

  /** The box height, `get_bbox_height` of the repository's utilities. */
  function Height(b: Box): real {
    b.y2 - b.y1
  }

  /** The squared Euclidean distance. `measure_distance` is the square root of
      this; the model compares squares, which orders non-negative distances
      the same way. */
  function Dist2(p: Point, q: Point): (d: real)
    ensures d >= 0.0
  {
    var dx := p.x - q.x;
    var dy := p.y - q.y;
    assert dx * dx >= 0.0 && dy * dy >= 0.0;
    dx * dx + dy * dy
  }

  /** "The distance is strictly below `limit`": sqrt(d2) < limit, stated on
      the square so that no square root is needed. */
  predicate DistanceBelow(d2: real, limit: real) {
    limit > 0.0 && d2 < limit * limit
  }

  /** Python's `int(x)` on a float: truncation toward zero. */
  function Trunc(x: real): (r: int)
    ensures x >= 0.0 ==> r >= 0 && r as real <= x < r as real + 1.0
    ensures x < 0.0 ==> r <= 0 && r as real - 1.0 < x <= r as real
  {
    if x >= 0.0 then x.Floor else -((-x).Floor)
  }

  /** Truncation keeps the order of its arguments. */
  lemma TruncMonotone(a: real, b: real)
    requires a <= b
    ensures Trunc(a) <= Trunc(b)
  {
  }

  /** `int(np.ceil(x))`: the least integer not below `x`. */
  function Ceil(x: real): (r: int)
    ensures x <= r as real < x + 1.0
  {
    if x.Floor as real == x then x.Floor else x.Floor + 1
  }
}
