/**
  The older two-dimensional grid of circles (src/pointmap.rs): `points[y][x]`
  holds the circles whose centre falls in column x and row y. Its neighbour
  query reads only the query's own cell, once per valid pair in
  {y - 1, y} x {x - 1, x}; the model keeps that as written.
*/
module LegacyGrid {
  import opened Wrappers
  import Grid
  import opened Math

  /** The circle of the older API (src/circle.rs): centre coordinates and radius as plain fields. */
  datatype Circle = Circle(x: real, y: real, r: real)

  /** Why an insert failed; the source formats each reason into a message string. */
  datatype InsertError = OutOfBounds(x: real, y: real) | NotInserted(x: real, y: real)

  datatype PointMapResult = Ok | Error(reason: InsertError)

  /** `get_x` / `get_y`: floor(coordinate / extent * resolution), saturated into `usize`. */
  function Coord(v: real, extent: real, resolution: nat): (c: nat)
    requires extent != 0.0
    ensures var f := (v / extent * resolution as real).Floor;
      (f < 0 ==> c == 0) && (0 <= f <= Grid.UsizeMax ==> c == f)
  {
    Grid.SaturatingUsize((v / extent * resolution as real).Floor)
  }

  /** `index_is_valid`: strictly positive and below the resolution, so row and column 0 are rejected. */
  predicate IndexIsValid(index: int, resolution: nat) {
    0 < index < resolution
  }

  /** How many of lo, ..., hi - 1 are valid indices. */
  function ValidCount(lo: int, hi: int, resolution: nat): nat
    decreases hi - lo
  {
    if hi <= lo then 0
    else ValidCount(lo, hi - 1, resolution) + (if IndexIsValid(hi - 1, resolution) then 1 else 0)
  }

  /** `s` concatenated `n` times. */
  function Repeat<T>(s: seq<T>, n: nat): (r: seq<T>)
    ensures |r| == n * |s|
  {
    if n == 0 then [] else Repeat(s, n - 1) + s
  }

  /** A res x res grid of empty cells. */
  function EmptyGrid(resolution: nat): (g: seq<seq<seq<Circle>>>)
    ensures |g| == resolution
    ensures forall y :: 0 <= y < resolution ==> |g[y]| == resolution && forall x :: 0 <= x < resolution ==> g[y][x] == []
  {
    seq(resolution, _ => seq(resolution, _ => []))
  }

  /** For a valid index v, exactly v - 1 and v of {v - 1, v} are valid when v >= 2, otherwise only v. */
  lemma PairCount(v: int, resolution: nat)
    requires IndexIsValid(v, resolution)
    ensures ValidCount(v - 1, v + 1, resolution) == if 2 <= v then 2 else 1
  {
    assert ValidCount(v - 1, v - 1, resolution) == 0;
  }

  /**
    `get_neighbors` returns the query's own cell repeated once per valid
    neighbour pair: once in the corner cell (1, 1), twice along the first row
    or column past it, four times elsewhere.
  */
  lemma CopiesOfOwnCell(x: int, y: int, resolution: nat)
    requires IndexIsValid(x, resolution) && IndexIsValid(y, resolution)
    ensures ValidCount(y - 1, y + 1, resolution) * ValidCount(x - 1, x + 1, resolution) ==
      (if 2 <= y then 2 else 1) * (if 2 <= x then 2 else 1)
  {
    PairCount(x, resolution);
    PairCount(y, resolution);
  }

  /** One more row of the neighbour scan adds a row's worth of valid pairs when the row is valid. */
  lemma RowStep(lo: int, a: int, perRow: nat, resolution: nat)
    requires lo <= a
    ensures ValidCount(lo, a + 1, resolution) * perRow ==
      ValidCount(lo, a, resolution) * perRow + (if IndexIsValid(a, resolution) then perRow else 0)
  {
    var n := ValidCount(lo, a, resolution);
    assert ValidCount(lo, a + 1, resolution) == n + (if IndexIsValid(a, resolution) then 1 else 0);
    assert (n + 1) * perRow == n * perRow + perRow;
  }

  /** The `get_x` and `get_y` unit tests on a 10 x 10 grid over 100 x 100. */
  lemma CoordFixtures()
    ensures Coord(9.0, 100.0, 10) == 0 && Coord(11.0, 100.0, 10) == 1 && Coord(20.0, 100.0, 10) == 2
    ensures Coord(34.0, 100.0, 10) == 3 && Coord(99.999, 100.0, 10) == 9
    ensures Coord(5.5, 100.0, 10) == 0 && Coord(15.0, 100.0, 10) == 1
    ensures Coord(73.0, 100.0, 10) == 7 && Coord(90.0, 100.0, 10) == 9
  {
  }

  /**
    With a positive extent, a coordinate gives a valid index exactly when it lies
    between one cell width and the far edge: `get_neighbors` answers None for
    every point in the first row or column of cells and every point past the edge.
  */
  lemma ValidIndexIffInside(v: real, extent: real, resolution: nat)
    requires 0.0 < extent && resolution <= Grid.UsizeMax
    ensures 0 < resolution ==>
      (IndexIsValid(Coord(v, extent, resolution), resolution) <==>
       extent / resolution as real <= v < extent)
    ensures resolution == 0 ==> !IndexIsValid(Coord(v, extent, resolution), resolution)
  {
    if 0 < resolution {
      var r := resolution as real;
      var t := v / extent * r;
      LowerEdgeScaled(v, extent, r);
      UpperEdgeScaled(v, extent, r);
      var f := t.Floor;
      var c := Coord(v, extent, resolution);
      assert c == Grid.SaturatingUsize(f);
      assert f as real <= t < f as real + 1.0;
      assert 1.0 <= t <==> 1 <= f;
      assert t < r <==> f < resolution;
      if f < 1 {
        assert c == 0 && v < extent / r;
      } else if f < resolution {
        assert c == f && 1.0 <= t < r;
        assert extent / r <= v < extent;
      } else {
        assert resolution <= c && extent <= v;
      }
    }
  }

  /** One cell width from the lower edge is where the scaled coordinate reaches 1. */
  lemma LowerEdgeScaled(v: real, extent: real, r: real)
    requires 0.0 < extent && 0.0 < r
    ensures extent / r <= v <==> 1.0 <= v / extent * r
  {
    var t := v / extent * r;
    var w := v * r;
    assert t == w / extent && (extent / r) * r == extent && (w / extent) * extent == w;
    assert extent / r <= v <==> extent <= w;
    assert w - extent == (t - 1.0) * extent;
    if 1.0 <= t { MulNonNegative(t - 1.0, extent); } else { MulPositive(1.0 - t, extent); }
  }

  /** The far edge is where the scaled coordinate reaches the resolution. */
  lemma UpperEdgeScaled(v: real, extent: real, r: real)
    requires 0.0 < extent && 0.0 < r
    ensures v < extent <==> v / extent * r < r
  {
    var t := v / extent * r;
    assert t == (v / extent) * r && (v / extent) * extent == v;
    if v < extent {
      MulPositive(1.0 - v / extent, r);
    } else {
      MulNonNegative(v / extent - 1.0, r);
    }
  }

  class PointMap {
    const width: real
    const height: real
    const resolution: nat
    var points: seq<seq<seq<Circle>>>

    ghost predicate Valid()
      reads this
    {
      && width != 0.0 && height != 0.0
      && |points| == resolution
      && (forall y :: 0 <= y < resolution ==> |points[y]| == resolution)
      && forall y, x, k :: 0 <= y < resolution && 0 <= x < |points[y]| && 0 <= k < |points[y][x]| ==>
           Coord(points[y][x][k].x, width, resolution) == x && Coord(points[y][x][k].y, height, resolution) == y
    }

    /** `new`: fills a res x res grid with empty cells, row by row. */
    constructor(width: real, height: real, resolution: nat)
      requires width != 0.0 && height != 0.0
      ensures Valid()
      ensures this.width == width && this.height == height && this.resolution == resolution
      ensures points == EmptyGrid(resolution)
    {
      this.width := width;
      this.height := height;
      this.resolution := resolution;
      var grid: seq<seq<seq<Circle>>> := seq(resolution, _ => []);
      var y := 0;
      while y < resolution
        invariant 0 <= y <= resolution && |grid| == resolution
        invariant forall i :: 0 <= i < y ==> grid[i] == EmptyGrid(resolution)[i]
      {
        grid := grid[y := seq(resolution, _ => [])];
        var x := 0;
        while x < resolution
          invariant 0 <= x <= resolution && |grid| == resolution && |grid[y]| == resolution
          invariant forall i :: 0 <= i < y ==> grid[i] == EmptyGrid(resolution)[i]
          invariant forall j :: 0 <= j < resolution ==> grid[y][j] == []
        {
          grid := grid[y := grid[y][x := []]];
          x := x + 1;
        }
        assert grid[y] == EmptyGrid(resolution)[y];
        y := y + 1;
      }
      points := grid;
    }

    /** `insert`: push onto points[y][x], or report the circle as out of bounds. */
    method Insert(c: Circle) returns (r: PointMapResult)
      requires Valid()
      modifies this
      ensures Valid()
      ensures var x, y := Coord(c.x, width, resolution), Coord(c.y, height, resolution);
        if x < resolution && y < resolution then
          r == PointMapResult.Ok && points == old(points)[y := old(points)[y][x := old(points)[y][x] + [c]]]
        else
          r == Error(OutOfBounds(c.x, c.y)) && points == old(points)
    {
      var x := Coord(c.x, width, resolution);
      var y := Coord(c.y, height, resolution);
      if !(x < resolution) || !(y < resolution) {
        return Error(OutOfBounds(c.x, c.y));
      }
      if y < |points| {
        if x < |points[y]| {
          points := points[y := points[y][x := points[y][x] + [c]]];
          return PointMapResult.Ok;
        }
      }
      r := Error(NotInserted(c.x, c.y));
    }

    /**
      `get_neighbors`: None when the query's row or column is not a valid
      index; otherwise its own cell, appended once per valid (a, b) in
      {y - 1, y} x {x - 1, x}.
    */
    method GetNeighbors(c: Circle) returns (r: Option<seq<Circle>>)
      requires Valid()
      ensures var x, y := Coord(c.x, width, resolution), Coord(c.y, height, resolution);
        if IndexIsValid(x, resolution) && IndexIsValid(y, resolution) then
          r == Some(Repeat(points[y][x], (if 2 <= y then 2 else 1) * (if 2 <= x then 2 else 1)))
        else
          r == None
    {
      var x := Coord(c.x, width, resolution);
      var y := Coord(c.y, height, resolution);
      if !IndexIsValid(x, resolution) || !IndexIsValid(y, resolution) {
        return None;
      }
      var cell := points[y][x];
      var perRow := ValidCount(x - 1, x + 1, resolution);
      var found: seq<Circle> := [];
      var a: int := y - 1;
      while a < y + 1
        invariant y - 1 <= a <= y + 1
        invariant found == Repeat(cell, ValidCount(y - 1, a, resolution) * perRow)
      {
        ghost var before := ValidCount(y - 1, a, resolution) * perRow;
        var b: int := x - 1;
        while b < x + 1
          invariant x - 1 <= b <= x + 1
          invariant found == Repeat(cell, before + (if IndexIsValid(a, resolution) then ValidCount(x - 1, b, resolution) else 0))
        {
          if IndexIsValid(a, resolution) && IndexIsValid(b, resolution) {
            found := found + cell;
          }
          b := b + 1;
        }
        RowStep(y - 1, a, perRow, resolution);
        a := a + 1;
      }
      CopiesOfOwnCell(x, y, resolution);
      r := Some(found);
    }
  }

  /** The insert unit tests: (11, 11) lands in points[1][1]; (1000, 100) is out of bounds. */
  method InsertFixture() returns (ok: PointMapResult, count: nat, fail: PointMapResult)
    ensures ok == PointMapResult.Ok && count == 1
    ensures fail == Error(OutOfBounds(1000.0, 100.0))
  {
    var pm := new PointMap(100.0, 100.0, 10);
    assert Coord(11.0, 100.0, 10) == 1;
    ok := pm.Insert(Circle(11.0, 11.0, 10.0));
    count := |pm.points[1][1]|;
    assert Coord(1000.0, 100.0, 10) == 100;
    fail := pm.Insert(Circle(1000.0, 100.0, 10.0));
  }

  /** The `get_neighbors` unit test: one copy of (11, 11), the circle in row 5 not seen. */
  method GetNeighborsFixture() returns (r: Option<seq<Circle>>)
    ensures r == Some([Circle(11.0, 11.0, 5.0)])
  {
    var pm := new PointMap(100.0, 100.0, 10);
    var circle := Circle(11.0, 11.0, 5.0);
    assert Coord(11.0, 100.0, 10) == 1;
    assert Coord(30.3, 100.0, 10) == 3 && Coord(50.4, 100.0, 10) == 5;
    var _ := pm.Insert(circle);
    var _ := pm.Insert(Circle(30.3, 50.4, 10.0));
    r := pm.GetNeighbors(circle);
    assert Repeat([circle], 1) == [circle];
  }

  /** The edge-case unit test: (99, 11) sits in column 9, so its own cell comes back twice. */
  method GetNeighborsEdgeFixture() returns (r: Option<seq<Circle>>)
    ensures r == Some([Circle(99.0, 11.0, 5.0), Circle(99.0, 11.0, 5.0)])
  {
    var pm := new PointMap(100.0, 100.0, 10);
    var circle := Circle(99.0, 11.0, 5.0);
    assert Coord(99.0, 100.0, 10) == 9 && Coord(11.0, 100.0, 10) == 1;
    assert Coord(101.1, 100.0, 10) == 10;
    var _ := pm.Insert(circle);
    assert pm.points[1][9] == [circle];
    var _ := pm.Insert(Circle(101.1, 50.4, 10.0));
    assert pm.points[1][9] == [circle];
    r := pm.GetNeighbors(circle);
    assert Repeat([circle], 1) == [circle];
    assert Repeat([circle], 2) == [circle, circle];
  }
}
