/** The bounding-box script: the extents of a set of corner coordinates, each
    swept from a starting value of 0, and a strict test of whether a point lies
    inside them. */
module SquareExtent {

  datatype Extent = Extent(right: int, left: int, up: int, down: int)

  datatype Point = Point(x: int, y: int)

  /** The sweep over one coordinate list: each value above the running maximum
      replaces it, and each value below the running minimum replaces that. The
      result is the largest and the smallest of the starting values and the list. */
  function Sweep(vals: seq<int>, hi: int, lo: int): (r: (int, int))
    ensures hi <= r.0 && r.1 <= lo
    ensures forall i :: 0 <= i < |vals| ==> r.1 <= vals[i] <= r.0
    ensures r.0 == hi || exists i :: 0 <= i < |vals| && vals[i] == r.0
    ensures r.1 == lo || exists i :: 0 <= i < |vals| && vals[i] == r.1
    decreases |vals|
  {
    if |vals| == 0 then (hi, lo)
    else
      var v := vals[0];
      var r := Sweep(vals[1..], if v > hi then v else hi, if v < lo then v else lo);
      assert forall i :: 1 <= i < |vals| ==> vals[i] == vals[1..][i - 1];
      r
  }

  /** The script's extents: both coordinate lists swept from 0. */
  function Extents(xs: seq<int>, ys: seq<int>): Extent
  {
    var h := Sweep(xs, 0, 0);
    var v := Sweep(ys, 0, 0);
    Extent(h.0, h.1, v.0, v.1)
  }

  /** The containment test: strictly inside on all four sides. */
  predicate Within(e: Extent, p: Point)
  {
    p.x > e.left && p.x < e.right && p.y > e.down && p.y < e.up
  }

  /** The largest of 0 and the list, as an independent reference. */
  function MaxWithZero(vals: seq<int>): int
  {
    if |vals| == 0 then 0
    else
      var m := MaxWithZero(vals[1..]);
      if vals[0] > m then vals[0] else m
  }

  /** The smallest of 0 and the list, as an independent reference. */
  function MinWithZero(vals: seq<int>): int
  {
    if |vals| == 0 then 0
    else
      var m := MinWithZero(vals[1..]);
      if vals[0] < m then vals[0] else m
  }

  lemma {:induction false} MaxWithZeroBounds(vals: seq<int>)
    ensures 0 <= MaxWithZero(vals)
    ensures forall i :: 0 <= i < |vals| ==> vals[i] <= MaxWithZero(vals)
    ensures MaxWithZero(vals) == 0 || exists i :: 0 <= i < |vals| && vals[i] == MaxWithZero(vals)
    decreases |vals|
  {
    if |vals| > 0 {
      MaxWithZeroBounds(vals[1..]);
      assert forall i :: 1 <= i < |vals| ==> vals[i] == vals[1..][i - 1];
    }
  }

  lemma {:induction false} MinWithZeroBounds(vals: seq<int>)
    ensures MinWithZero(vals) <= 0
    ensures forall i :: 0 <= i < |vals| ==> MinWithZero(vals) <= vals[i]
    ensures MinWithZero(vals) == 0 || exists i :: 0 <= i < |vals| && vals[i] == MinWithZero(vals)
    decreases |vals|
  {
    if |vals| > 0 {
      MinWithZeroBounds(vals[1..]);
      assert forall i :: 1 <= i < |vals| ==> vals[i] == vals[1..][i - 1];
    }
  }

  /** The extents are the largest and smallest of 0 and each coordinate list:
      `right = max(0, max xs)`, `left = min(0, min xs)`, and likewise up and down. */
  lemma ExtentsAreMaxMin(xs: seq<int>, ys: seq<int>)
    ensures Extents(xs, ys) == Extent(MaxWithZero(xs), MinWithZero(xs), MaxWithZero(ys), MinWithZero(ys))
  {
    MaxWithZeroBounds(xs);
    MinWithZeroBounds(xs);
    MaxWithZeroBounds(ys);
    MinWithZeroBounds(ys);
  }

  /** The value a side is compared against is attained: by 0 or by a coordinate. */
  predicate SomeBelow(v: int, vals: seq<int>)
  {
    0 < v || exists i :: 0 <= i < |vals| && vals[i] < v
  }

  predicate SomeAbove(v: int, vals: seq<int>)
  {
    v < 0 || exists i :: 0 <= i < |vals| && v < vals[i]
  }

  /** A point is reported within exactly when, on each axis, 0 or some coordinate
      lies strictly below it and 0 or some coordinate strictly above it. */
  lemma WithinIff(xs: seq<int>, ys: seq<int>, p: Point)
    ensures Within(Extents(xs, ys), p) <==>
      SomeBelow(p.x, xs) && SomeAbove(p.x, xs) && SomeBelow(p.y, ys) && SomeAbove(p.y, ys)
  {
  }

  /** Containment is strict: a point on any side of the box is not within. */
  lemma BoundaryIsOutside(xs: seq<int>, ys: seq<int>, p: Point)
    requires var e := Extents(xs, ys);
      p.x == e.left || p.x == e.right || p.y == e.down || p.y == e.up
    ensures !Within(Extents(xs, ys), p)
  {
  }

  /** The script's square with corners at 0 and 5 contains the point (2, 2),
      and not its corner (5, 5). */
  lemma GivenSquare()
    ensures Extents([0, 0, 5, 5], [0, 5, 5, 0]) == Extent(5, 0, 5, 0)
    ensures Within(Extents([0, 0, 5, 5], [0, 5, 5, 0]), Point(2, 2))
    ensures !Within(Extents([0, 0, 5, 5], [0, 5, 5, 0]), Point(5, 5))
  {
    ExtentsAreMaxMin([0, 0, 5, 5], [0, 5, 5, 0]);
  }
}
