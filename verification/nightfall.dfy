/**
  The linking pass of the nightfall painting (src/paintings/nightfall/algo.rs).
  Every stored point, in `get_items` order, is joined by a short two-point
  path to at most max_count of its current neighbours, and is then removed
  from the grid, so later points do not link back to it. Filling the grid with
  random points beforehand is not part of this model; the pass starts from
  whatever grid it is given.
*/
module Nightfall {
  import opened Wrappers
  import opened Math
  import opened Colors
  import opened Points
  import opened Rectangles
  import opened Paths
  import opened Grid
  import opened RangeMap

  /** Points are their own centre and are equal field by field. */
  const PointOps: ShapeOps<Point> := ShapeOps((p: Point) => p, (p: Point, q: Point) => p == q)

  /** Neighbours are searched within this `distance_to`... */
  const LinkRadius: real := 50.0
  /** ...and only those farther than this are linked. */
  const MinLinkDistance: real := 10.0

  /** Every link is a thin light stroke. */
  const LinkStyle: PathStyle := PathStyle(Some(0.2), Some(Hex("#eee")), None)

  /** `as usize` on an f64: truncation toward zero, negatives to 0, large values saturated. */
  function TruncateToUsize(v: real): (n: nat)
    ensures v < 1.0 ==> n == 0
    ensures 0.0 <= v ==> n == SaturatingUsize(v.Floor)
  {
    if v < 0.0 then 0 else SaturatingUsize(v.Floor)
  }

  /** The height band max_count is interpolated over: the 0.9-scaled canvas's top to its mirror below. */
  function CountBand(bounds: Rectangle): Range {
    var scaled := Rectangles.Scale(bounds, 0.9);
    Range(scaled.position.y, bounds.height - scaled.position.y)
  }

  predicate BandIsProper(bounds: Rectangle) {
    CountBand(bounds).end != CountBand(bounds).start
  }

  /** max_count: 70 links at the top of the band, falling linearly to 5 at its bottom. */
  function MaxCount(p: Point, bounds: Rectangle): (n: nat)
    requires BandIsProper(bounds)
    ensures p.y == CountBand(bounds).start ==> n == 70
    ensures p.y == CountBand(bounds).end ==> n == 5
  {
    TruncateToUsize(Map(p.y, CountBand(bounds), Range(70.0, 5.0)))
  }

  /** Inside the band the count stays between 5 and 70. */
  lemma MaxCountWithinBand(bounds: Rectangle, p: Point)
    requires CountBand(bounds).start < CountBand(bounds).end
    requires CountBand(bounds).start <= p.y <= CountBand(bounds).end
    ensures 5 <= MaxCount(p, bounds) <= 70
  {
    var band := CountBand(bounds);
    var d := band.end - band.start;
    var t := (p.y - band.start) / d;
    assert 0.0 <= t <= 1.0 by {
      assert t * d == p.y - band.start;
      if t < 0.0 { MulPositive(-t, d); }
      if 1.0 < t { MulPositive(t - 1.0, d); }
    }
    MapIsAffine(p.y, band, Range(70.0, 5.0));
    assert Map(p.y, band, Range(70.0, 5.0)) == 70.0 - 65.0 * t;
  }

  /** How many of `neighbors` are farther than 10 from `p` (by `distance_to` from the neighbour). */
  function FarCount(m: Libm, neighbors: seq<Point>, p: Point): nat {
    if neighbors == [] then 0
    else (if DistanceTo(m, neighbors[0], p) > MinLinkDistance then 1 else 0) + FarCount(m, neighbors[1..], p)
  }

  function Min(a: nat, b: nat): nat { if a <= b then a else b }

  /**
    The links of one point: the first `maxCount` neighbours farther than 10,
    in order, each as the path [p, n].
  */
  function Links(m: Libm, neighbors: seq<Point>, p: Point, maxCount: nat): (ds: seq<Drawn>)
    ensures |ds| == Min(maxCount, FarCount(m, neighbors, p))
    ensures forall k :: 0 <= k < |ds| ==>
      && |ds[k].points| == 2 && ds[k].points[0] == p
      && ds[k].points[1] in neighbors
      && DistanceTo(m, ds[k].points[1], p) > MinLinkDistance
      && ds[k].style == LinkStyle
  {
    if neighbors == [] || maxCount == 0 then []
    else if DistanceTo(m, neighbors[0], p) > MinLinkDistance then
      [Drawn([p, neighbors[0]], LinkStyle)] + Links(m, neighbors[1..], p, maxCount - 1)
    else Links(m, neighbors[1..], p, maxCount)
  }

  /** A link as the pass draws it: two points, the first within 50 of the second and the second farther than 10 from the first. */
  predicate IsLink(m: Libm, d: Drawn, from: seq<Point>) {
    && |d.points| == 2
    && d.points[0] in from
    && DistanceTo(m, d.points[0], d.points[1]) < LinkRadius
    && DistanceTo(m, d.points[1], d.points[0]) > MinLinkDistance
    && d.style == LinkStyle
  }

  /** Links to neighbours within 50 are links. */
  lemma LinksAreLinks(m: Libm, neighbors: seq<Point>, p: Point, maxCount: nat)
    requires forall n :: n in neighbors ==> DistanceTo(m, p, n) < LinkRadius
    ensures forall k :: 0 <= k < |Links(m, neighbors, p, maxCount)| ==> IsLink(m, Links(m, neighbors, p, maxCount)[k], [p])
  {
    var links := Links(m, neighbors, p, maxCount);
    forall k | 0 <= k < |links|
      ensures IsLink(m, links[k], [p])
    {
      var n := links[k].points[1];
      assert n in neighbors;
      assert links[k].points[0] in [p];
    }
  }

  /** Links drawn from a sub-list of points are drawn from the whole list. */
  lemma LinksWiden(m: Libm, ds: seq<Drawn>, from: seq<Point>, to: seq<Point>)
    requires forall q :: q in from ==> q in to
    requires forall k :: 0 <= k < |ds| ==> IsLink(m, ds[k], from)
    ensures forall k :: 0 <= k < |ds| ==> IsLink(m, ds[k], to)
  {
  }

  lemma LinksConcat(m: Libm, a: seq<Drawn>, b: seq<Drawn>, from: seq<Point>)
    requires forall k :: 0 <= k < |a| ==> IsLink(m, a[k], from)
    requires forall k :: 0 <= k < |b| ==> IsLink(m, b[k], from)
    ensures forall k :: 0 <= k < |a + b| ==> IsLink(m, (a + b)[k], from)
  {
    forall k | 0 <= k < |a + b|
      ensures IsLink(m, (a + b)[k], from)
    {
      if k >= |a| {
        assert (a + b)[k] == b[k - |a|];
      } else {
        assert (a + b)[k] == a[k];
      }
    }
  }

  /**
    The links the pass draws for `p` against the grid `cells`: `Links` over its
    neighbours within 50 with the max_count of its height, and none when `p` lies
    off the grid (the query fails).
  */
  function PointLinks(m: Libm, cells: seq<seq<Point>>, bounds: Rectangle, resolution: nat, p: Point): (links: seq<Drawn>)
    requires Divisible(bounds) && BandIsProper(bounds)
    ensures !Rectangles.Contains(bounds, p) ==> links == []
    ensures |links| <= MaxCount(p, bounds)
    ensures forall k :: 0 <= k < |links| ==> IsLink(m, links[k], [p])
  {
    var neighbors := Neighbors(cells, bounds, resolution, PointOps, PointDistance(m), p, Some(LinkRadius));
    if neighbors.Err? then []
    else
      assert forall n :: n in neighbors.value ==> PointDistance(m)(PointOps.center(p), PointOps.center(n)) < LinkRadius;
      assert forall n :: PointOps.center(n) == n;
      LinksAreLinks(m, neighbors.value, p, MaxCount(p, bounds));
      Links(m, neighbors.value, p, MaxCount(p, bounds))
  }

  /**
    An in-bounds point gets min(max_count, far neighbours) links: the query is
    answered, and the links take the first max_count neighbours farther than 10.
  */
  lemma PointLinksCount(m: Libm, cells: seq<seq<Point>>, bounds: Rectangle, resolution: nat, p: Point)
    requires Divisible(bounds) && BandIsProper(bounds) && Rectangles.Contains(bounds, p)
    ensures var q := Neighbors(cells, bounds, resolution, PointOps, PointDistance(m), p, Some(LinkRadius));
      q.Ok? && |PointLinks(m, cells, bounds, resolution, p)| == Min(MaxCount(p, bounds), FarCount(m, q.value, p))
  {
  }

  /**
    The links of a pass over `points` starting from the grid `cells`: each point's
    `PointLinks` against the grid as the removal of all earlier points left it.
  */
  function PassLinks(m: Libm, cells: seq<seq<Point>>, bounds: Rectangle, resolution: nat, points: seq<Point>): seq<Drawn>
    requires Divisible(bounds) && BandIsProper(bounds)
    decreases |points|
  {
    if points == [] then []
    else
      PointLinks(m, cells, bounds, resolution, points[0])
      + PassLinks(m, RemoveOne(cells, bounds, resolution, PointOps, points[0]), bounds, resolution, points[1..])
  }

  /** Every path of a pass is a link drawn from one of the points of the pass. */
  lemma {:induction false} PassLinksAreLinks(m: Libm, cells: seq<seq<Point>>, bounds: Rectangle, resolution: nat, points: seq<Point>)
    requires Divisible(bounds) && BandIsProper(bounds)
    ensures var links := PassLinks(m, cells, bounds, resolution, points);
      forall k :: 0 <= k < |links| ==> IsLink(m, links[k], points)
    decreases |points|
  {
    if points != [] {
      var first := PointLinks(m, cells, bounds, resolution, points[0]);
      var after := RemoveOne(cells, bounds, resolution, PointOps, points[0]);
      var rest := PassLinks(m, after, bounds, resolution, points[1..]);
      PassLinksUnfold(m, cells, bounds, resolution, points);
      PassLinksAreLinks(m, after, bounds, resolution, points[1..]);
      LinksWiden(m, first, [points[0]], points);
      LinksWiden(m, rest, points[1..], points);
      LinksConcat(m, first, rest, points);
    }
  }

  /** One step of a pass: the links drawn so far grow by the links of the point at `i`. */
  lemma PassLinksStep(m: Libm, start: seq<seq<Point>>, cells: seq<seq<Point>>, bounds: Rectangle, resolution: nat,
                      points: seq<Point>, i: nat, paths: seq<Drawn>)
    requires Divisible(bounds) && BandIsProper(bounds)
    requires i < |points|
    requires paths + PassLinks(m, cells, bounds, resolution, points[i..]) == PassLinks(m, start, bounds, resolution, points)
    ensures (paths + PointLinks(m, cells, bounds, resolution, points[i]))
            + PassLinks(m, RemoveOne(cells, bounds, resolution, PointOps, points[i]), bounds, resolution, points[i + 1..])
            == PassLinks(m, start, bounds, resolution, points)
  {
    var tail := points[i..];
    assert tail[0] == points[i] && tail[1..] == points[i + 1..];
    PassLinksUnfold(m, cells, bounds, resolution, tail);
  }

  /** One iteration of `LinkEach`: both loop invariants carried past `points[i]`. */
  lemma LinkEachStep(m: Libm, start: seq<seq<Point>>, cells: seq<seq<Point>>, bounds: Rectangle, resolution: nat,
                     points: seq<Point>, i: nat, paths: seq<Drawn>)
    requires Divisible(bounds) && BandIsProper(bounds)
    requires i < |points|
    requires cells == RemoveAll(start, bounds, resolution, PointOps, points[..i])
    requires paths + PassLinks(m, cells, bounds, resolution, points[i..]) == PassLinks(m, start, bounds, resolution, points)
    ensures RemoveOne(cells, bounds, resolution, PointOps, points[i]) == RemoveAll(start, bounds, resolution, PointOps, points[..i + 1])
    ensures (paths + PointLinks(m, cells, bounds, resolution, points[i]))
            + PassLinks(m, RemoveOne(cells, bounds, resolution, PointOps, points[i]), bounds, resolution, points[i + 1..])
            == PassLinks(m, start, bounds, resolution, points)
  {
    PassLinksStep(m, start, cells, bounds, resolution, points, i, paths);
    RemoveAllPrefix(start, bounds, resolution, points, i);
  }

  lemma RemoveAllPrefix(start: seq<seq<Point>>, bounds: Rectangle, resolution: nat, points: seq<Point>, i: nat)
    requires Divisible(bounds) && i < |points|
    ensures RemoveOne(RemoveAll(start, bounds, resolution, PointOps, points[..i]), bounds, resolution, PointOps, points[i])
            == RemoveAll(start, bounds, resolution, PointOps, points[..i + 1])
  {
    RemoveAllAppend(start, bounds, resolution, PointOps, points[..i], points[i]);
    assert points[..i + 1] == points[..i] + [points[i]];
  }

  lemma PassLinksUnfold(m: Libm, cells: seq<seq<Point>>, bounds: Rectangle, resolution: nat, points: seq<Point>)
    requires Divisible(bounds) && BandIsProper(bounds)
    requires points != []
    ensures PassLinks(m, cells, bounds, resolution, points)
            == PointLinks(m, cells, bounds, resolution, points[0])
               + PassLinks(m, RemoveOne(cells, bounds, resolution, PointOps, points[0]), bounds, resolution, points[1..])
  {
  }

  /** The links of one point of the pass: its neighbours within 50, then `Links`. */
  method LinkPoint(m: Libm, pm: PointMap<Point>, p: Point) returns (links: seq<Drawn>)
    requires pm.Valid() && pm.ops == PointOps && BandIsProper(pm.bounds)
    ensures links == PointLinks(m, pm.cells, pm.bounds, pm.resolution, p)
    ensures |links| <= MaxCount(p, pm.bounds)
    ensures forall k :: 0 <= k < |links| ==> IsLink(m, links[k], [p])
    ensures !Rectangles.Contains(pm.bounds, p) ==> links == []
  {
    links := [];
    var maxCount := MaxCount(p, pm.bounds);
    var neighbors := pm.GetNeighbors(m, p, Some(LinkRadius));
    if neighbors.Ok? {
      links := Links(m, neighbors.value, p, maxCount);
    }
  }

  /** One iteration of the pass: link the point, then remove it. */
  method VisitPoint(m: Libm, pm: PointMap<Point>, point: Point) returns (links: seq<Drawn>)
    requires pm.Valid() && pm.ops == PointOps && BandIsProper(pm.bounds)
    modifies pm
    ensures pm.Valid()
    ensures pm.cells == RemoveOne(old(pm.cells), pm.bounds, pm.resolution, pm.ops, point)
    ensures links == PointLinks(m, old(pm.cells), pm.bounds, pm.resolution, point)
  {
    links := LinkPoint(m, pm, point);
    pm.Remove(point);
  }

  /** The loop of the pass over a fixed list of points. */
  method LinkEach(m: Libm, pm: PointMap<Point>, points: seq<Point>) returns (paths: seq<Drawn>)
    requires pm.Valid() && pm.ops == PointOps && BandIsProper(pm.bounds)
    modifies pm
    ensures pm.Valid()
    ensures pm.cells == RemoveAll(old(pm.cells), pm.bounds, pm.resolution, pm.ops, points)
    ensures paths == PassLinks(m, old(pm.cells), pm.bounds, pm.resolution, points)
  {
    ghost var start := pm.cells;
    paths := [];
    var i := 0;
    while i < |points|
      invariant 0 <= i <= |points|
      invariant pm.Valid() && pm.ops == PointOps && BandIsProper(pm.bounds)
      invariant pm.cells == RemoveAll(start, pm.bounds, pm.resolution, pm.ops, points[..i])
      invariant paths + PassLinks(m, pm.cells, pm.bounds, pm.resolution, points[i..])
                == PassLinks(m, start, pm.bounds, pm.resolution, points)
    {
      LinkEachStep(m, start, pm.cells, pm.bounds, pm.resolution, points, i, paths);
      var links := VisitPoint(m, pm, points[i]);
      paths := paths + links;
      i := i + 1;
    }
    assert points[..|points|] == points;
    assert points[|points|..] == [];
  }

  /**
    The pass: every item of the grid as it was at the start (a clone's
    `get_items`), linked and then removed once. The grid ends as the start
    grid with each item removed in turn, and the drawn paths are exactly the
    `PassLinks` of those items over the shrinking grid.
  */
  method LinkPass(m: Libm, pm: PointMap<Point>) returns (paths: seq<Drawn>)
    requires pm.Valid() && pm.ops == PointOps && BandIsProper(pm.bounds)
    modifies pm
    ensures pm.Valid()
    ensures pm.cells == RemoveAll(old(pm.cells), pm.bounds, pm.resolution, pm.ops, old(pm.GetItems()))
    ensures paths == PassLinks(m, old(pm.cells), pm.bounds, pm.resolution, old(pm.GetItems()))
    ensures forall k :: 0 <= k < |paths| ==> IsLink(m, paths[k], old(pm.GetItems()))
  {
    var points := pm.GetItems();
    paths := LinkEach(m, pm, points);
    PassLinksAreLinks(m, old(pm.cells), pm.bounds, pm.resolution, points);
  }
}
