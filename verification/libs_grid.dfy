/**
  The grid index of the shared shapes library (libs/shapes/src/pointmap.rs).
  It has the same index arithmetic and neighbour scan as the one in
  src/shapes, with two differences: the neighbour filter measures the true
  Euclidean distance, and `get_items` gathers the items with explicit loops.
*/
module LibsGrid {
  import opened Wrappers
  import opened Math
  import opened Points
  import opened Rectangles
  import opened Grid

  /** `Point::distance` of the shared library: the Euclidean distance. */
  function Distance(m: Libm, p: Point, other: Point): (d: real)
    ensures ExactSqrt(m) ==> 0.0 <= d && d * d == Square(p.x - other.x) + Square(p.y - other.y)
  {
    var dx := Abs(p.x - other.x);
    var dy := Abs(p.y - other.y);
    assert Square(dx) == Square(p.x - other.x) && Square(dy) == Square(p.y - other.y);
    m.sqrt(Square(dx) + Square(dy))
  }

  lemma DistanceSymmetric(m: Libm, p: Point, q: Point)
    ensures Distance(m, p, q) == Distance(m, q, p)
  {
    assert Square(p.x - q.x) == Square(q.x - p.x) && Square(p.y - q.y) == Square(q.y - p.y);
    assert Abs(p.x - q.x) == Abs(q.x - p.x) && Abs(p.y - q.y) == Abs(q.y - p.y);
  }

  /** The `distance` unit test of the shared library: (-10, 0) to (10, 10) rounds to 22. */
  lemma DistanceFixture(m: Libm)
    requires ExactSqrt(m)
    ensures 21.5 <= Distance(m, Point(-10.0, 0.0), Point(10.0, 10.0)) < 22.5
  {
    var d := Distance(m, Point(-10.0, 0.0), Point(10.0, 10.0));
    assert d * d == 500.0;
    if d < 21.5 {
      SquareStrictMonotone(d, 21.5);
    }
    if 22.5 <= d {
      SquareMonotone(22.5, d);
    }
  }

  /** The distance a library query filters by: the Euclidean distance between the two centres. */
  function EuclideanDistance(m: Libm): (Point, Point) -> real {
    (a, b) => Distance(m, a, b)
  }

  /** With a limit, a point passes the filter exactly when its squared distance is below the limit squared. */
  lemma WithinIffSquaredDistance(m: Libm, p: Point, q: Point, limit: real)
    requires ExactSqrt(m)
    ensures Within(EuclideanDistance(m), p, q, Some(limit)) <==>
      0.0 < limit && Square(p.x - q.x) + Square(p.y - q.y) < limit * limit
  {
    var dx := Abs(p.x - q.x);
    var dy := Abs(p.y - q.y);
    var sq := Square(p.x - q.x) + Square(p.y - q.y);
    assert Square(dx) == Square(p.x - q.x) && Square(dy) == Square(p.y - q.y);
    MulNonNegative(dx, dx);
    MulNonNegative(dy, dy);
    assert Square(dx) + Square(dy) == sq;
    assert Distance(m, p, q) == m.sqrt(sq);
    SqrtLess(m, sq, limit);
  }

  /** The inner loop of `get_items`: push every item of one cell, in order. */
  method PushEach<T>(items: seq<T>, cell: seq<T>) returns (r: seq<T>)
    ensures r == items + cell
  {
    r := items;
    var k := 0;
    while k < |cell|
      invariant 0 <= k <= |cell|
      invariant r == items + cell[..k]
    {
      assert cell[..k + 1] == cell[..k] + [cell[k]];
      r := r + [cell[k]];
      k := k + 1;
    }
    assert cell[..k] == cell;
  }

  /**
    The grid object. The library's `get_index` reads `bounds.x` and `bounds.y`,
    fields its own Rectangle does not have (that Rectangle holds only a position,
    a width, a height and a colour); the model reads the position's x and y in
    their place.
  */
  class PointMap<T(==,!new)> {
    const bounds: Rectangle
    const resolution: nat
    const ops: ShapeOps<T>
    var cells: seq<seq<T>>

    ghost predicate Valid()
      reads this
    {
      && Divisible(bounds)
      && resolution * resolution <= VecCapacity
      && |cells| == resolution * resolution
      && Placed(cells, bounds, resolution, ops)
    }

    /** `new`: resolution^2 empty cells. */
    constructor(bounds: Rectangle, resolution: nat, ops: ShapeOps<T>)
      requires Divisible(bounds) && resolution * resolution <= VecCapacity
      ensures Valid()
      ensures this.bounds == bounds && this.resolution == resolution && this.ops == ops
      ensures cells == EmptyCells(resolution * resolution)
    {
      this.bounds := bounds;
      this.resolution := resolution;
      this.ops := ops;
      cells := EmptyCells(resolution * resolution);
    }

    /** `insert`: append to the shape's cell, or hand the shape back when that cell does not exist. */
    method Insert(s: T) returns (r: Result<nat, T>)
      requires Valid()
      modifies this
      ensures Valid()
      ensures var i := CellIndex(bounds, resolution, ops.center(s));
        if i < |old(cells)| then
          r == Ok(i) && cells == old(cells)[i := old(cells)[i] + [s]]
          && multiset(Flatten(cells)) == multiset(Flatten(old(cells))) + multiset{s}
        else
          r == Err(s) && cells == old(cells)
    {
      var i := CellIndex(bounds, resolution, ops.center(s));
      if i < |cells| {
        InsertAddsItem(cells, i, s);
        cells := cells[i := cells[i] + [s]];
        return Ok(i);
      }
      r := Err(s);
    }

    /** `remove`: drop the first shape equal to `s` from `s`'s cell, if there is one. */
    method Remove(s: T)
      requires Valid()
      modifies this
      ensures Valid()
      ensures cells == RemoveOne(old(cells), bounds, resolution, ops, s)
    {
      var i := CellIndex(bounds, resolution, ops.center(s));
      if i < |cells| {
        var cell := cells[i];
        var k := 0;
        while k < |cell| && !ops.same(cell[k], s)
          invariant k <= |cell|
          invariant forall j :: 0 <= j < k ==> !ops.same(cell[j], s)
        {
          k := k + 1;
        }
        assert k == FirstMatch(cell, s, ops.same);
        RemoveOneKeepsPlaced(cells, bounds, resolution, ops, s);
        if k < |cell| {
          cells := cells[i := cell[..k] + cell[k + 1..]];
        }
      }
    }

    /** `get_items`: the fold that pushes every item of every cell, in cell order. */
    method GetItems() returns (items: seq<T>)
      ensures items == Flatten(cells)
      ensures forall x :: x in items <==> exists i :: 0 <= i < |cells| && x in cells[i]
    {
      items := [];
      var c := 0;
      while c < |cells|
        invariant 0 <= c <= |cells|
        invariant items + Flatten(cells[c..]) == Flatten(cells)
      {
        var cell := cells[c];
        assert Flatten(cells[c..]) == cell + Flatten(cells[c + 1..]) by {
          assert cells[c..][1..] == cells[c + 1..];
        }
        ghost var before := items;
        items := PushEach(items, cell);
        assert items + Flatten(cells[c + 1..]) == before + (cell + Flatten(cells[c + 1..]));
        c := c + 1;
      }
      assert cells[c..] == [];
      FlattenContents(cells);
    }

    /** `get_neighbors` with the Euclidean distance as the filter's distance. */
    function GetNeighbors(m: Libm, s: T, limit: Option<real>): (r: Result<seq<T>, string>)
      reads this
      requires Valid()
      ensures r.Err? <==> !Contains(bounds, ops.center(s))
      ensures r.Ok? ==> forall x :: x in r.value ==>
        (limit.Some? ==> Distance(m, ops.center(s), ops.center(x)) < limit.value)
      ensures r.Ok? ==>
        var ids := NeighboringCells(CellIndex(bounds, resolution, ops.center(s)), |cells|);
        forall x :: x in r.value <==>
          Within(EuclideanDistance(m), ops.center(s), ops.center(x), limit) &&
          exists k :: 0 <= k < |ids| && ids[k] < |cells| && x in cells[ids[k]]
    {
      Neighbors(cells, bounds, resolution, ops, EuclideanDistance(m), s, limit)
    }

    /**
      With a true square root, every neighbour returned under a limit lies
      strictly inside the circle of that radius around the query.
    */
    lemma NeighborsInsideRadius(m: Libm, s: T, limit: real)
      requires Valid() && ExactSqrt(m)
      ensures var r := GetNeighbors(m, s, Some(limit));
        r.Ok? ==> forall x :: x in r.value ==>
          Square(ops.center(s).x - ops.center(x).x) + Square(ops.center(s).y - ops.center(x).y) < limit * limit
    {
      var r := GetNeighbors(m, s, Some(limit));
      if r.Ok? {
        forall x | x in r.value
          ensures Square(ops.center(s).x - ops.center(x).x) + Square(ops.center(s).y - ops.center(x).y) < limit * limit
        {
          WithinIffSquaredDistance(m, ops.center(s), ops.center(x), limit);
        }
      }
    }
  }
}
