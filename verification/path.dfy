/**
  Polylines (src/shapes/path.rs). A `Path` owns its list of points and grows
  in place; its length, bounding box and point-in-polygon test are specified
  by the functions on point sequences below.
*/
module Paths {
  import opened Wrappers
  import opened Math
  import opened Colors
  import opened Points
  import Rectangles

  /** Stroke width, stroke colour and fill colour. */
  datatype PathStyle = PathStyle(strokeWeight: Option<real>, stroke: Option<Color>, color: Option<Color>)

  /** The default style: nothing set. */
  const DefaultStyle := PathStyle(None, None, None)

  /** A path as the paintings hand it to the document: its points and style. */
  datatype Drawn = Drawn(points: seq<Point>, style: PathStyle)

  /** The summed `distance_to` of consecutive points; a path of fewer than two points has length 0. */
  function PathLength(m: Libm, ps: seq<Point>): (len: real)
    ensures |ps| <= 1 ==> len == 0.0
    decreases |ps|
  {
    if |ps| <= 1 then 0.0
    else PathLength(m, ps[..|ps| - 1]) + DistanceTo(m, ps[|ps| - 2], ps[|ps| - 1])
  }

  /** With a true square root the length is never negative. */
  lemma {:induction false} PathLengthNonNegative(m: Libm, ps: seq<Point>)
    requires ExactSqrt(m)
    ensures 0.0 <= PathLength(m, ps)
    decreases |ps|
  {
    if |ps| > 1 {
      PathLengthNonNegative(m, ps[..|ps| - 1]);
    }
  }

  /** Appending a point adds exactly its `distance_to` from the last point. */
  lemma PathLengthAppend(m: Libm, ps: seq<Point>, p: Point)
    requires |ps| >= 1
    ensures PathLength(m, ps + [p]) == PathLength(m, ps) + DistanceTo(m, ps[|ps| - 1], p)
  {
    assert (ps + [p])[..|ps|] == ps;
  }

  /** Because `distance_to` ignores the x coordinates, a step along x adds nothing to the length. */
  lemma PathLengthIgnoresHorizontalSteps(m: Libm)
    requires ExactSqrt(m)
    ensures PathLength(m, [Point(0.0, 0.0), Point(20.0, 0.0)]) == 0.0
  {
    assert [Point(0.0, 0.0), Point(20.0, 0.0)][..1] == [Point(0.0, 0.0)];
    DistanceToDocExample(m);
  }

  /** `Path::intersects`: the two segments' end points lie on opposite sides (or on) each other's line. */
  predicate SegmentsIntersect(a0: Point, a1: Point, b0: Point, b1: Point)
    ensures a0 == b0 ==> SegmentsIntersect(a0, a1, b0, b1)
  {
    var dx0 := a1.x - a0.x;
    var dx1 := b1.x - b0.x;
    var dy0 := a1.y - a0.y;
    var dy1 := b1.y - b0.y;
    var p0 := dy1 * (b1.x - a0.x) - dx1 * (b1.y - a0.y);
    var p1 := dy1 * (b1.x - a1.x) - dx1 * (b1.y - a1.y);
    var p2 := dy0 * (a1.x - b0.x) - dx0 * (a1.y - b0.y);
    var p3 := dy0 * (a1.x - b1.x) - dx0 * (a1.y - b1.y);
    p0 * p1 <= 0.0 && p2 * p3 <= 0.0
  }

  /** The test is symmetric in its two segments. */
  lemma SegmentsIntersectSymmetric(a0: Point, a1: Point, b0: Point, b1: Point)
    ensures SegmentsIntersect(a0, a1, b0, b1) <==> SegmentsIntersect(b0, b1, a0, a1)
  {
  }

  /** The `does_intersect` unit test: a vertical and a horizontal segment crossing at (0, 25). */
  lemma SegmentsIntersectFixture()
    ensures SegmentsIntersect(Point(0.0, 0.0), Point(0.0, 50.0), Point(-25.0, 25.0), Point(25.0, 25.0))
  {
  }

  function Min(a: real, b: real): real { if a <= b then a else b }
  function Max(a: real, b: real): real { if a <= b then b else a }

  /** The fold of `bounding_box`: (min x, min y, max x, max y) over `ps`, starting from `acc`. */
  function Extent(ps: seq<Point>, acc: (real, real, real, real)): (e: (real, real, real, real))
    ensures e.0 <= acc.0 && e.1 <= acc.1 && acc.2 <= e.2 && acc.3 <= e.3
    ensures forall k :: 0 <= k < |ps| ==> e.0 <= ps[k].x <= e.2 && e.1 <= ps[k].y <= e.3
    ensures (e.0 == acc.0 || exists k :: 0 <= k < |ps| && e.0 == ps[k].x)
    ensures (e.1 == acc.1 || exists k :: 0 <= k < |ps| && e.1 == ps[k].y)
    ensures (e.2 == acc.2 || exists k :: 0 <= k < |ps| && e.2 == ps[k].x)
    ensures (e.3 == acc.3 || exists k :: 0 <= k < |ps| && e.3 == ps[k].y)
  {
    if ps == [] then acc
    else
      var p := ps[0];
      var e := Extent(ps[1..], (Min(acc.0, p.x), Min(acc.1, p.y), Max(acc.2, p.x), Max(acc.3, p.y)));
      assert forall k :: 1 <= k < |ps| ==> ps[k] == ps[1..][k - 1];
      e
  }

  /**
    `bounding_box`: None for an empty path, otherwise the smallest box (edges
    included) holding every point.
  */
  function BoundingBox(ps: seq<Point>): (b: Option<Rectangles.Rectangle>)
    ensures b.None? <==> ps == []
    ensures b.Some? ==> b.value.color == None && 0.0 <= b.value.width && 0.0 <= b.value.height
    ensures b.Some? ==> forall k :: 0 <= k < |ps| ==>
      b.value.position.x <= ps[k].x <= b.value.position.x + b.value.width &&
      b.value.position.y <= ps[k].y <= b.value.position.y + b.value.height
    ensures b.Some? ==>
      (exists k :: 0 <= k < |ps| && ps[k].x == b.value.position.x) &&
      (exists k :: 0 <= k < |ps| && ps[k].y == b.value.position.y) &&
      (exists k :: 0 <= k < |ps| && ps[k].x == b.value.position.x + b.value.width) &&
      (exists k :: 0 <= k < |ps| && ps[k].y == b.value.position.y + b.value.height)
  {
    if ps == [] then None
    else
      var p := ps[0];
      var e := Extent(ps, (p.x, p.y, p.x, p.y));
      Some(Rectangles.New(Point(e.0, e.1), e.2 - e.0, e.3 - e.1))
  }

  /**
    A rectangle's `to_path` has the rectangle itself (without its colour) as its
    bounding box, whenever width and height are non-negative.
  */
  lemma BoundingBoxOfRectanglePath(r: Rectangles.Rectangle)
    requires 0.0 <= r.width && 0.0 <= r.height
    ensures BoundingBox(Rectangles.ToPath(r)) == Some(Rectangles.New(r.position, r.width, r.height))
  {
    var ps := Rectangles.ToPath(r);
    var b := BoundingBox(ps).value;
    assert ps[2].x == r.position.x + r.width && ps[2].y == r.position.y + r.height;
    assert b.position.x == r.position.x && b.position.y == r.position.y;
    assert b.width == r.width && b.height == r.height;
  }

  /** The `get_bounding_box` unit test. */
  lemma BoundingBoxFixture()
    ensures BoundingBox([Point(0.0, 0.0), Point(5.0, 5.0), Point(-5.0, 10.0)])
      == Some(Rectangles.New(Point(-5.0, 0.0), 10.0, 10.0))
  {
    var ps := [Point(0.0, 0.0), Point(5.0, 5.0), Point(-5.0, 10.0)];
    assert ps[1..] == [Point(5.0, 5.0), Point(-5.0, 10.0)];
    assert ps[1..][1..] == [Point(-5.0, 10.0)];
    assert ps[1..][1..][1..] == [];
  }

  /**
    `center` as written: the bounding box's centre is computed and dropped, so
    the result is always the origin.
  */
  function PathCenter(ps: seq<Point>): (c: Point)
    ensures c.x == 0.0 && c.y == 0.0
  {
    Point(0.0, 0.0)
  }

  /** Even when the bounding box's centre is elsewhere, `center` reports the origin. */
  lemma CenterIgnoresBoundingBox()
    ensures var ps := [Point(10.0, 10.0), Point(20.0, 20.0)];
      BoundingBox(ps).Some? && Rectangles.Center(BoundingBox(ps).value) != PathCenter(ps)
  {
    var ps := [Point(10.0, 10.0), Point(20.0, 20.0)];
    assert ps[1..] == [Point(20.0, 20.0)] && ps[1..][1..] == [];
  }

  /** The four search rays of `contains`: up, down, right and left to the box's edges. */
  function Rays(p: Point, b: Rectangles.Rectangle): (rays: seq<(Point, Point)>)
    ensures |rays| == 4 && forall k :: 0 <= k < 4 ==> rays[k].0 == p
  {
    [ (p, Point(p.x, b.position.y)),
      (p, Point(p.x, b.position.y + b.height)),
      (p, Point(b.position.x + b.width, p.y)),
      (p, Point(b.position.x, p.y)) ]
  }

  /** How many of the first `n` segments of `ps` the ray crosses. */
  function CrossingsUpTo(ps: seq<Point>, ray: (Point, Point), n: nat): nat
    requires n < |ps|
  {
    if n == 0 then 0
    else CrossingsUpTo(ps, ray, n - 1) + (if SegmentsIntersect(ps[n - 1], ps[n], ray.0, ray.1) then 1 else 0)
  }

  /** How many segments of the non-empty path `ps` the ray crosses. */
  function Crossings(ps: seq<Point>, ray: (Point, Point)): nat
    requires ps != []
  {
    CrossingsUpTo(ps, ray, |ps| - 1)
  }

  /** What `contains` decides: inside the bounding box and an odd crossing count on every ray. */
  predicate PolygonContains(ps: seq<Point>, p: Point)
    ensures PolygonContains(ps, p) ==> BoundingBox(ps).Some? && Rectangles.Contains(BoundingBox(ps).value, p)
  {
    match BoundingBox(ps)
    case None => false
    case Some(b) =>
      Rectangles.Contains(b, p) &&
      var rays := Rays(p, b);
      forall k :: 0 <= k < |rays| ==> Crossings(ps, rays[k]) % 2 == 1
  }

  /** Outside the bounding box nothing is contained. */
  lemma OutsideBoundingBox(ps: seq<Point>, p: Point)
    requires BoundingBox(ps).Some? && !Rectangles.Contains(BoundingBox(ps).value, p)
    ensures !PolygonContains(ps, p)
  {
  }

  function Indicator(b: bool): nat { if b then 1 else 0 }

  /** The crossing count of a four-segment path, written out. */
  lemma CrossingsOfFourSegments(ps: seq<Point>, ray: (Point, Point))
    requires |ps| == 5
    ensures Crossings(ps, ray) ==
      Indicator(SegmentsIntersect(ps[0], ps[1], ray.0, ray.1)) +
      Indicator(SegmentsIntersect(ps[1], ps[2], ray.0, ray.1)) +
      Indicator(SegmentsIntersect(ps[2], ps[3], ray.0, ray.1)) +
      Indicator(SegmentsIntersect(ps[3], ps[4], ray.0, ray.1))
  {
    assert CrossingsUpTo(ps, ray, 1) == Indicator(SegmentsIntersect(ps[0], ps[1], ray.0, ray.1));
    assert CrossingsUpTo(ps, ray, 2) == CrossingsUpTo(ps, ray, 1) + Indicator(SegmentsIntersect(ps[1], ps[2], ray.0, ray.1));
    assert CrossingsUpTo(ps, ray, 3) == CrossingsUpTo(ps, ray, 2) + Indicator(SegmentsIntersect(ps[2], ps[3], ray.0, ray.1));
  }

  /** The square-ish polygon of the `point_inside_polygon` unit test. */
  function TestPolygon(): seq<Point> {
    [Point(0.0, 0.0), Point(100.0, 10.0), Point(100.0, 100.0), Point(20.0, 80.0), Point(0.0, 0.0)]
  }

  /** One step of the fold: the first point widens the running extent. */
  lemma ExtentCons(p: Point, rest: seq<Point>, acc: (real, real, real, real))
    ensures Extent([p] + rest, acc) == Extent(rest, (Min(acc.0, p.x), Min(acc.1, p.y), Max(acc.2, p.x), Max(acc.3, p.y)))
  {
    assert ([p] + rest)[1..] == rest;
  }

  lemma TestPolygonBox()
    ensures BoundingBox(TestPolygon()) == Some(Rectangles.New(Point(0.0, 0.0), 100.0, 100.0))
  {
    var p0, p1, p2, p3, p4 := Point(0.0, 0.0), Point(100.0, 10.0), Point(100.0, 100.0), Point(20.0, 80.0), Point(0.0, 0.0);
    assert TestPolygon() == [p0] + ([p1] + ([p2] + ([p3] + ([p4] + []))));
    ExtentCons(p0, [p1] + ([p2] + ([p3] + ([p4] + []))), (0.0, 0.0, 0.0, 0.0));
    ExtentCons(p1, [p2] + ([p3] + ([p4] + [])), (0.0, 0.0, 0.0, 0.0));
    ExtentCons(p2, [p3] + ([p4] + []), (0.0, 0.0, 100.0, 10.0));
    ExtentCons(p3, [p4] + [], (0.0, 0.0, 100.0, 100.0));
    ExtentCons(p4, [], (0.0, 0.0, 100.0, 100.0));
  }

  lemma UpRayCrossesOnce()
    ensures Crossings(TestPolygon(), (Point(50.0, 50.0), Point(50.0, 0.0))) == 1
  {
    var ps := TestPolygon();
    var r := (Point(50.0, 50.0), Point(50.0, 0.0));
    CrossingsOfFourSegments(ps, r);
    assert SegmentsIntersect(ps[0], ps[1], r.0, r.1);
    assert !SegmentsIntersect(ps[1], ps[2], r.0, r.1);
    assert !SegmentsIntersect(ps[2], ps[3], r.0, r.1);
    assert !SegmentsIntersect(ps[3], ps[4], r.0, r.1);
  }

  lemma DownRayCrossesOnce()
    ensures Crossings(TestPolygon(), (Point(50.0, 50.0), Point(50.0, 100.0))) == 1
  {
    var ps := TestPolygon();
    var r := (Point(50.0, 50.0), Point(50.0, 100.0));
    CrossingsOfFourSegments(ps, r);
    assert !SegmentsIntersect(ps[0], ps[1], r.0, r.1);
    assert !SegmentsIntersect(ps[1], ps[2], r.0, r.1);
    assert SegmentsIntersect(ps[2], ps[3], r.0, r.1);
    assert !SegmentsIntersect(ps[3], ps[4], r.0, r.1);
  }

  lemma RightRayCrossesOnce()
    ensures Crossings(TestPolygon(), (Point(50.0, 50.0), Point(100.0, 50.0))) == 1
  {
    var ps := TestPolygon();
    var r := (Point(50.0, 50.0), Point(100.0, 50.0));
    CrossingsOfFourSegments(ps, r);
    assert !SegmentsIntersect(ps[0], ps[1], r.0, r.1);
    assert SegmentsIntersect(ps[1], ps[2], r.0, r.1);
    assert !SegmentsIntersect(ps[2], ps[3], r.0, r.1);
    assert !SegmentsIntersect(ps[3], ps[4], r.0, r.1);
  }

  lemma LeftRayCrossesOnce()
    ensures Crossings(TestPolygon(), (Point(50.0, 50.0), Point(0.0, 50.0))) == 1
  {
    var ps := TestPolygon();
    var r := (Point(50.0, 50.0), Point(0.0, 50.0));
    CrossingsOfFourSegments(ps, r);
    assert !SegmentsIntersect(ps[0], ps[1], r.0, r.1);
    assert !SegmentsIntersect(ps[1], ps[2], r.0, r.1);
    assert !SegmentsIntersect(ps[2], ps[3], r.0, r.1);
    assert SegmentsIntersect(ps[3], ps[4], r.0, r.1);
  }

  /** The `point_inside_polygon` unit test: (500, 50) lies right of the 100 x 100 box. */
  lemma PolygonContainsOutsideFixture()
    ensures !PolygonContains(TestPolygon(), Point(500.0, 50.0))
  {
    TestPolygonBox();
    OutsideBoundingBox(TestPolygon(), Point(500.0, 50.0));
  }

  /** The containment test passes once the box holds the point and each of the four rays crosses once. */
  lemma ContainsByRays(ps: seq<Point>, p: Point, b: Rectangles.Rectangle, up: Point, down: Point, right: Point, left: Point)
    requires ps != [] && BoundingBox(ps) == Some(b) && Rectangles.Contains(b, p)
    requires up == Point(p.x, b.position.y) && down == Point(p.x, b.position.y + b.height)
    requires right == Point(b.position.x + b.width, p.y) && left == Point(b.position.x, p.y)
    requires Crossings(ps, (p, up)) == 1 && Crossings(ps, (p, down)) == 1
    requires Crossings(ps, (p, right)) == 1 && Crossings(ps, (p, left)) == 1
    ensures PolygonContains(ps, p)
  {
    var rays := Rays(p, b);
    assert forall k :: 0 <= k < |rays| ==> Crossings(ps, rays[k]) % 2 == 1 by {
      forall k | 0 <= k < |rays|
        ensures Crossings(ps, rays[k]) % 2 == 1
      {
        if k == 0 {
        } else if k == 1 {
        } else if k == 2 {
        } else {
          assert k == 3;
        }
      }
    }
  }

  /** The `point_inside_polygon` unit test: (50, 50) is inside; every ray crosses exactly one edge. */
  lemma PolygonContainsInsideFixture()
    ensures PolygonContains(TestPolygon(), Point(50.0, 50.0))
  {
    TestPolygonBox();
    UpRayCrossesOnce();
    DownRayCrossesOnce();
    RightRayCrossesOnce();
    LeftRayCrossesOnce();
    ContainsByRays(TestPolygon(), Point(50.0, 50.0), Rectangles.New(Point(0.0, 0.0), 100.0, 100.0),
      Point(50.0, 0.0), Point(50.0, 100.0), Point(100.0, 50.0), Point(0.0, 50.0));
  }

  /**
    A path object: the points it is drawn through and its style. Paintings
    build one point at a time with `add_point`.
  */
  class Path {
    var points: seq<Point>
    var style: PathStyle

    /** `Path::new`. */
    constructor(points: seq<Point>, style: PathStyle)
      ensures this.points == points && this.style == style
    {
      this.points := points;
      this.style := style;
    }

    /** `add_point`: append at the end, the existing points untouched. */
    method AddPoint(p: Point)
      modifies this
      ensures points == old(points) + [p] && style == old(style)
    {
      points := points + [p];
    }

    /** `length`: the running total of `distance_to` over consecutive pairs. */
    method Length(m: Libm) returns (total: real)
      ensures total == PathLength(m, points)
      ensures |points| <= 1 ==> total == 0.0
    {
      if |points| == 0 {
        return 0.0;
      }
      total := 0.0;
      var i := 1;
      while i < |points|
        invariant 1 <= i <= |points|
        invariant total == PathLength(m, points[..i])
      {
        assert points[..i + 1][..i] == points[..i];
        total := total + DistanceTo(m, points[i - 1], points[i]);
        i := i + 1;
      }
      assert points[..i] == points;
    }

    /**
      `get_bounding_box`: None exactly for an empty path, otherwise a colourless
      box of non-negative size that holds every point, edges included, with a
      point on each of its four edges.
    */
    function BoundingBoxOf(): (b: Option<Rectangles.Rectangle>)
      reads this
      ensures b == BoundingBox(points)
      ensures b.None? <==> points == []
      ensures b.Some? ==> b.value.color == None && 0.0 <= b.value.width && 0.0 <= b.value.height
      ensures b.Some? ==> forall k :: 0 <= k < |points| ==>
        b.value.position.x <= points[k].x <= b.value.position.x + b.value.width &&
        b.value.position.y <= points[k].y <= b.value.position.y + b.value.height
      ensures b.Some? ==>
        (exists k :: 0 <= k < |points| && points[k].x == b.value.position.x) &&
        (exists k :: 0 <= k < |points| && points[k].y == b.value.position.y) &&
        (exists k :: 0 <= k < |points| && points[k].x == b.value.position.x + b.value.width) &&
        (exists k :: 0 <= k < |points| && points[k].y == b.value.position.y + b.value.height)
    {
      BoundingBox(points)
    }

    /** `contains`: the four-ray crossing-parity test inside the bounding box. */
    method Contains(p: Point) returns (inside: bool)
      ensures inside == PolygonContains(points, p)
    {
      var bounds := BoundingBox(points);
      if bounds.None? {
        return false;
      }
      var b := bounds.value;
      if !Rectangles.Contains(b, p) {
        return false;
      }
      var search := Rays(p, b);
      var k := 0;
      while k < |search|
        invariant 0 <= k <= |search|
        invariant forall j :: 0 <= j < k ==> Crossings(points, search[j]) % 2 == 1
      {
        var ray := search[k];
        var intersections := 0;
        var i := 0;
        while i < |points|
          invariant 0 <= i <= |points| - 1
          invariant intersections == CrossingsUpTo(points, ray, i)
        {
          if i + 1 >= |points| {
            break;
          }
          if SegmentsIntersect(points[i], points[i + 1], ray.0, ray.1) {
            intersections := intersections + 1;
          }
          i := i + 1;
        }
        if intersections % 2 == 0 {
          return false;
        }
        k := k + 1;
      }
      return true;
    }
  }
}
