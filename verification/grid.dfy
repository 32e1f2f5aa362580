/**
  The uniform-grid spatial index (src/shapes/pointmap.rs). The canvas bounds are
  cut into resolution x resolution cells stored as one flat list, row after row;
  a shape lives in the cell its centre falls in. The index arithmetic and the
  neighbour scan are pure functions over the list of cells, shared with the twin
  in libs/shapes; `PointMap` is the object that owns the cells and updates them
  in place.
*/
module Grid {
  import opened Wrappers
  import opened Math
  import opened Points
  import opened Rectangles
  import Circles

  /** The largest `usize` and the modulus of 64-bit wrap-around. */
  const UsizeMax: int := 0xFFFF_FFFF_FFFF_FFFF
  const UsizeModulus: int := 0x1_0000_0000_0000_0000
  /** A `Vec` never holds more than `isize::MAX` elements. */
  const VecCapacity: int := 0x7FFF_FFFF_FFFF_FFFF
  /** The largest `i32` and the modulus of 32-bit wrap-around. */
  const I32Max: int := 0x7FFF_FFFF
  const I32Modulus: int := 0x1_0000_0000

  /**
    What the grid needs of the `Shape` trait and of `PartialEq`: the centre of a
    shape and the equality `remove` searches with (for circles and blobs that
    equality ignores the colour).
  */
  datatype ShapeOps<-T> = ShapeOps(center: T -> Point, same: (T, T) -> bool)

  /** `as usize` on an integral f64: negatives become 0 and large values saturate. */
  function SaturatingUsize(v: int): (n: nat)
    ensures v <= 0 ==> n == 0
    ensures 0 <= v <= UsizeMax ==> n == v
    ensures UsizeMax < v ==> n == UsizeMax
  {
    if v < 0 then 0 else if v > UsizeMax then UsizeMax else v
  }

  /**
    `get_index` divides by `position + extent` on each axis, so neither may be 0
    (in f64 the quotient would be infinite or NaN).
  */
  predicate Divisible(bounds: Rectangle) {
    bounds.position.x + bounds.width != 0.0 && bounds.position.y + bounds.height != 0.0
  }

  /** Bounds anchored at the origin with a positive size, as every painting builds them. */
  predicate AtOrigin(bounds: Rectangle) {
    bounds.position == Point(0.0, 0.0) && 0.0 < bounds.width && 0.0 < bounds.height
  }

  function Column(bounds: Rectangle, resolution: nat, p: Point): int
    requires Divisible(bounds)
  {
    (p.x / (bounds.position.x + bounds.width) * resolution as real).Floor
  }

  function Row(bounds: Rectangle, resolution: nat, p: Point): int
    requires Divisible(bounds)
  {
    (p.y / (bounds.position.y + bounds.height) * resolution as real).Floor
  }

  /** `get_index`: row * resolution + column - 1, saturated into `usize`. */
  function CellIndex(bounds: Rectangle, resolution: nat, p: Point): (i: nat)
    requires Divisible(bounds)
    ensures var v := Row(bounds, resolution, p) * resolution + Column(bounds, resolution, p) - 1;
      (v < 0 ==> i == 0) && (0 <= v <= UsizeMax ==> i == v) && i <= UsizeMax
  {
    SaturatingUsize(Row(bounds, resolution, p) * resolution + Column(bounds, resolution, p) - 1)
  }

  /** `(len as f64).sqrt()` rounded down for a cell count: the integer square root. */
  function FloorSqrt(n: nat): (r: nat)
    ensures r * r <= n < (r + 1) * (r + 1)
  {
    SqrtFromBounds(n, 0);
    SqrtFrom(n, 0)
  }

  function SqrtFrom(n: nat, k: nat): nat
    decreases n - k
  {
    if n <= k || n < (k + 1) * (k + 1) then k else SqrtFrom(n, k + 1)
  }

  /** `cell as usize` for a signed cell id: negatives wrap to the top of the range. */
  function AsUsize(c: int): nat {
    if c >= 0 then c
    else if -UsizeModulus <= c then c + UsizeModulus
    else c % UsizeModulus
  }

  /** The filter of `get_neighboring_cells`: `cell > 0 || (cell as usize) < len`. */
  predicate KeptCell(c: int, len: nat) {
    c > 0 || AsUsize(c) < len
  }

  /**
    `as i32` on a `usize` and `i32` addition as a release build does them: the
    low 32 bits, read as a signed number.
  */
  function WrapI32(v: int): (w: int)
    ensures -I32Max - 1 <= w <= I32Max
    ensures -I32Max - 1 <= v <= I32Max ==> w == v
  {
    (v + I32Max + 1) % I32Modulus - I32Max - 1
  }

  /** `as i32` on a non-negative whole f64: saturated at the largest `i32`. */
  function SaturatingI32(n: nat): (w: nat)
    ensures w <= I32Max && (n <= I32Max ==> w == n)
  {
    if n <= I32Max then n else I32Max
  }

  /** The 3 x 3 block around cell `i` in a grid `step` cells wide, row by row, as exact integers. */
  function PlainBlock(i: int, step: int): (b: seq<int>)
    ensures |b| == 9 && b[4] == i
  {
    [ i - step - 1, i - step, i - step + 1,
      i - 1, i, i + 1,
      i + step - 1, i + step, i + step + 1 ]
  }

  /**
    The block `get_neighboring_cells` lists, in `i32` arithmetic: over = i - step
    and under = i + step, then one either side of over, i and under, every sum
    wrapping. Away from the ends of the `i32` range it is the exact block.
  */
  function Block(i: int, step: int): (b: seq<int>)
    requires -I32Max - 1 <= i <= I32Max
    ensures |b| == 9 && b[4] == i
    ensures 0 <= step && -I32Max - 1 <= i - step - 1 && i + step + 1 <= I32Max ==> b == PlainBlock(i, step)
  {
    var over := WrapI32(i - step);
    var under := WrapI32(i + step);
    [ WrapI32(over - 1), over, WrapI32(over + 1),
      WrapI32(i - 1), i, WrapI32(i + 1),
      WrapI32(under - 1), under, WrapI32(under + 1) ]
  }

  /**
    The filter `cell > 0 || (cell as usize) < len` of `get_neighboring_cells`.
    `KeepCellsDropsOnlyNegatives` and `KeepCellsKeeps` state which ids it keeps.
  */
  function KeepCells(cs: seq<int>, len: nat): (r: seq<nat>)
    ensures |r| <= |cs|
  {
    if cs == [] then []
    else (if KeptCell(cs[0], len) then [AsUsize(cs[0])] else []) + KeepCells(cs[1..], len)
  }

  function NonNegatives(cs: seq<int>): (r: seq<nat>)
    ensures forall c: int :: c in r <==> c in cs && 0 <= c
  {
    if cs == [] then []
    else (if 0 <= cs[0] then [cs[0] as nat] else []) + NonNegatives(cs[1..])
  }

  /**
    `get_neighboring_cells`: the block around `index as i32` in a grid
    sqrt(len) as i32 cells wide, filtered; at most the nine cells of the block.
    `NeighboringCellsDropsOnlyNegatives` states which cells they are.
  */
  function NeighboringCells(index: nat, len: nat): (ids: seq<nat>)
    ensures |ids| <= 9
  {
    KeepCells(Block(WrapI32(index), SaturatingI32(FloorSqrt(len))), len)
  }

  /** The neighbour filter: no limit, or `dist(from, to)` strictly below it. */
  predicate Within(dist: (Point, Point) -> real, from: Point, to: Point, limit: Option<real>) {
    limit.None? || dist(from, to) < limit.value
  }

  function Filter<T(==,!new)>(s: seq<T>, keep: T -> bool): (r: seq<T>)
    ensures |r| <= |s|
    ensures forall x :: x in r <==> x in s && keep(x)
  {
    if s == [] then []
    else (if keep(s[0]) then [s[0]] else []) + Filter(s[1..], keep)
  }

  /** The fold of `get_neighbors`: the kept items of each existing cell in `ids`, in order. */
  function Gather<T(==,!new)>(cells: seq<seq<T>>, ids: seq<nat>, keep: T -> bool): (r: seq<T>)
    ensures forall x :: x in r <==>
      keep(x) && exists k :: 0 <= k < |ids| && ids[k] < |cells| && x in cells[ids[k]]
  {
    if ids == [] then []
    else
      var here := if ids[0] < |cells| then Filter(cells[ids[0]], keep) else [];
      var rest := Gather(cells, ids[1..], keep);
      assert forall x :: x in rest <==>
        keep(x) && exists k :: 1 <= k < |ids| && ids[k] < |cells| && x in cells[ids[k]] by {
        forall x | keep(x) && exists k :: 1 <= k < |ids| && ids[k] < |cells| && x in cells[ids[k]]
          ensures x in rest
        {
          var k :| 1 <= k < |ids| && ids[k] < |cells| && x in cells[ids[k]];
          assert ids[1..][k - 1] == ids[k];
        }
      }
      here + rest
  }

  /**
    `get_neighbors`: an error when the query centre is outside the bounds,
    otherwise the items of the block around the query's cell that pass the
    distance filter.
  */
  function Neighbors<T(==,!new)>(cells: seq<seq<T>>, bounds: Rectangle, resolution: nat, ops: ShapeOps<T>,
                        dist: (Point, Point) -> real, s: T, limit: Option<real>): (r: Result<seq<T>, string>)
    requires Divisible(bounds)
    ensures r.Err? <==> !Contains(bounds, ops.center(s))
    ensures r.Ok? ==> forall x :: x in r.value ==> Within(dist, ops.center(s), ops.center(x), limit)
    ensures r.Ok? ==>
      var ids := NeighboringCells(CellIndex(bounds, resolution, ops.center(s)), |cells|);
      forall x :: x in r.value <==>
        Within(dist, ops.center(s), ops.center(x), limit) &&
        exists k :: 0 <= k < |ids| && ids[k] < |cells| && x in cells[ids[k]]
  {
    var c := ops.center(s);
    if !Contains(bounds, c) then Err("out of bounds call for this pointmap")
    else
      var i := CellIndex(bounds, resolution, c);
      Ok(Gather(cells, NeighboringCells(i, |cells|), item => Within(dist, c, ops.center(item), limit)))
  }

  /** The distance a `PointMap` query filters by: `distance_to` between the two centres. */
  function PointDistance(m: Libm): (Point, Point) -> real {
    (p, q) => DistanceTo(m, p, q)
  }

  /** A grid of `n` empty cells. */
  function EmptyCells<T>(n: nat): (cells: seq<seq<T>>)
    ensures |cells| == n && forall i :: 0 <= i < n ==> cells[i] == []
  {
    seq(n, _ => [])
  }

  /** Every stored shape sits in the cell its centre indexes. */
  ghost predicate Placed<T(!new)>(cells: seq<seq<T>>, bounds: Rectangle, resolution: nat, ops: ShapeOps<T>)
    requires Divisible(bounds)
  {
    forall i, k :: 0 <= i < |cells| && 0 <= k < |cells[i]| ==>
      CellIndex(bounds, resolution, ops.center(cells[i][k])) == i
  }

  /** `get_items`: all cells concatenated in cell order. */
  function Flatten<T(==,!new)>(cells: seq<seq<T>>): seq<T> {
    if cells == [] then [] else cells[0] + Flatten(cells[1..])
  }

  /** The index of the first element of `cell` equal to `s`, or |cell| when there is none. */
  function FirstMatch<T(==,!new)>(cell: seq<T>, s: T, same: (T, T) -> bool): (k: nat)
    ensures k <= |cell|
    ensures k < |cell| ==> same(cell[k], s)
    ensures forall j :: 0 <= j < k ==> !same(cell[j], s)
  {
    if cell == [] then 0
    else if same(cell[0], s) then 0
    else 1 + FirstMatch(cell[1..], s, same)
  }

  /** What `remove` leaves of a cell: the first equal element dropped, if there is one. */
  function RemoveFirst<T(==,!new)>(cell: seq<T>, s: T, same: (T, T) -> bool): (r: seq<T>)
    ensures (forall j :: 0 <= j < |cell| ==> !same(cell[j], s)) ==> r == cell
    ensures (exists j :: 0 <= j < |cell| && same(cell[j], s)) ==>
      var k := FirstMatch(cell, s, same);
      |r| == |cell| - 1 && multiset(r) + multiset{cell[k]} == multiset(cell)
    ensures forall x :: x in r ==> x in cell
  {
    var k := FirstMatch(cell, s, same);
    if k < |cell| then
      assert cell == cell[..k] + [cell[k]] + cell[k + 1..];
      cell[..k] + cell[k + 1..]
    else cell
  }

  /**
    Inserting each shape in turn, as a commit loop does; a shape whose cell does not exist is skipped.
    `InsertAllAppend` and `InsertAddsItem` state what each insertion does to the cells.
  */
  function InsertAll<T(==,!new)>(cells: seq<seq<T>>, bounds: Rectangle, resolution: nat, ops: ShapeOps<T>, shapes: seq<T>): (r: seq<seq<T>>)
    requires Divisible(bounds)
    ensures |r| == |cells|
    decreases |shapes|
  {
    if shapes == [] then cells
    else
      var i := CellIndex(bounds, resolution, ops.center(shapes[0]));
      var next := if i < |cells| then cells[i := cells[i] + [shapes[0]]] else cells;
      InsertAll(next, bounds, resolution, ops, shapes[1..])
  }

  /**
    What one `remove` leaves of the cells: the first equal shape dropped from the shape's cell.
    `RemoveFirst` states what the cell loses and `RemoveDropsItem` what the items lose.
  */
  function RemoveOne<T(==,!new)>(cells: seq<seq<T>>, bounds: Rectangle, resolution: nat, ops: ShapeOps<T>, s: T): (r: seq<seq<T>>)
    requires Divisible(bounds)
    ensures |r| == |cells|
  {
    var i := CellIndex(bounds, resolution, ops.center(s));
    if i < |cells| then cells[i := RemoveFirst(cells[i], s, ops.same)] else cells
  }

  /** Removing a shape keeps every remaining shape in the cell its centre indexes. */
  lemma RemoveOneKeepsPlaced<T(!new)>(cells: seq<seq<T>>, bounds: Rectangle, resolution: nat, ops: ShapeOps<T>, s: T)
    requires Divisible(bounds) && Placed(cells, bounds, resolution, ops)
    ensures Placed(RemoveOne(cells, bounds, resolution, ops, s), bounds, resolution, ops)
  {
    var r := RemoveOne(cells, bounds, resolution, ops, s);
    forall i, k | 0 <= i < |r| && 0 <= k < |r[i]|
      ensures CellIndex(bounds, resolution, ops.center(r[i][k])) == i
    {
      assert r[i][k] in r[i];
      assert r[i][k] in cells[i];
      var j :| 0 <= j < |cells[i]| && cells[i][j] == r[i][k];
    }
  }

  /**
    Removing each shape in turn, as the linking pass of nightfall does.
    `RemoveAllAppend` states that one more shape is one more `RemoveOne`.
  */
  function RemoveAll<T(==,!new)>(cells: seq<seq<T>>, bounds: Rectangle, resolution: nat, ops: ShapeOps<T>, shapes: seq<T>): (r: seq<seq<T>>)
    requires Divisible(bounds)
    ensures |r| == |cells|
    decreases |shapes|
  {
    if shapes == [] then cells
    else RemoveAll(RemoveOne(cells, bounds, resolution, ops, shapes[0]), bounds, resolution, ops, shapes[1..])
  }

  // ---------------------------------------------------------------------------
  // Lemmas
  // ---------------------------------------------------------------------------

  lemma {:induction false} SqrtFromBounds(n: nat, k: nat)
    requires k * k <= n
    ensures var r := SqrtFrom(n, k); r * r <= n < (r + 1) * (r + 1)
    decreases n - k
  {
    if k < n && (k + 1) * (k + 1) <= n {
      SqrtFromBounds(n, k + 1);
    }
  }

  lemma FloorSqrtUnique(n: nat, r: nat)
    requires r * r <= n < (r + 1) * (r + 1)
    ensures FloorSqrt(n) == r
  {
    var s := FloorSqrt(n);
    if s < r {
      IntSquareMonotone(s + 1, r);
    } else if r < s {
      IntSquareMonotone(r + 1, s);
    }
  }

  lemma IntSquareMonotone(a: nat, b: nat)
    requires a <= b
    ensures a * a <= b * b
  {
    assert a * a <= a * b;
    assert a * b <= b * b;
  }

  /** A grid of resolution^2 cells is `resolution` cells wide. */
  lemma FloorSqrtOfSquare(resolution: nat)
    ensures FloorSqrt(resolution * resolution) == resolution
  {
    assert (resolution + 1) * (resolution + 1) == resolution * resolution + 2 * resolution + 1;
    FloorSqrtUnique(resolution * resolution, resolution);
  }

  /**
    In any real grid (at least one cell, fewer than 2^63) the filter of
    `get_neighboring_cells` drops exactly the negative ids, since a negative i32
    becomes a huge `usize`.
  */
  lemma {:induction false} KeepCellsDropsOnlyNegatives(cs: seq<int>, len: nat)
    requires 0 < len <= VecCapacity
    requires forall c :: c in cs ==> -VecCapacity <= c
    ensures KeepCells(cs, len) == NonNegatives(cs)
  {
    if cs != [] {
      var c := cs[0];
      assert c in cs;
      if c < 0 {
        assert AsUsize(c) == c + UsizeModulus;
        assert !KeptCell(c, len);
      } else {
        assert KeptCell(c, len) && AsUsize(c) == c;
      }
      assert forall d :: d in cs[1..] ==> d in cs;
      KeepCellsDropsOnlyNegatives(cs[1..], len);
    }
  }

  /**
    While no `i32` sum overflows, `get_neighboring_cells` lists the exact block
    around `index` and drops only its negative ids.
  */
  lemma NeighboringCellsDropsOnlyNegatives(index: nat, len: nat)
    requires 0 < len <= VecCapacity && index + FloorSqrt(len) + 1 <= I32Max
    ensures NeighboringCells(index, len) == NonNegatives(PlainBlock(index, FloorSqrt(len)))
  {
    var step := FloorSqrt(len);
    assert Block(WrapI32(index), SaturatingI32(step)) == PlainBlock(index, step);
    KeepCellsDropsOnlyNegatives(PlainBlock(index, step), len);
  }

  /** An existing cell whose id fits an `i32` is always among its own neighbouring cells. */
  lemma OwnCellIsNeighbor(index: nat, len: nat)
    requires index < len && index <= I32Max
    ensures index in NeighboringCells(index, len)
  {
    var b := Block(WrapI32(index), SaturatingI32(FloorSqrt(len)));
    assert b[4] == index && index in b;
    KeepCellsKeeps(b, len, index);
  }

  lemma {:induction false} KeepCellsKeeps(cs: seq<int>, len: nat, c: int)
    requires c in cs && 0 <= c && KeptCell(c, len)
    ensures c in KeepCells(cs, len)
  {
    if cs[0] != c {
      assert c in cs[1..];
      KeepCellsKeeps(cs[1..], len, c);
    }
  }

  /** The `get_surrounding_cells` unit test: cell 25 of a 10 x 10 grid. */
  lemma NeighboringCellsFixture()
    ensures NeighboringCells(25, 100) == [14, 15, 16, 24, 25, 26, 34, 35, 36]
  {
    FloorSqrtOfSquare(10);
    var b := Block(WrapI32(25), SaturatingI32(10));
    assert b == [14, 15, 16, 24, 25, 26, 34, 35, 36];
    KeepPositive(b, 100);
  }

  lemma {:induction false} KeepPositive(cs: seq<int>, len: nat)
    requires 0 < len && forall k :: 0 <= k < |cs| ==> 0 <= cs[k]
    ensures KeepCells(cs, len) == cs
  {
    if cs != [] {
      KeepPositive(cs[1..], len);
    }
  }

  /** Rows do not wrap: the last cell of a row lists the first cell of the next row. */
  lemma NeighboringCellsDoNotWrap()
    ensures 20 in NeighboringCells(19, 100)
  {
    FloorSqrtOfSquare(10);
    var b := Block(WrapI32(19), SaturatingI32(10));
    assert b[5] == 20 && 20 in b;
    KeepCellsKeeps(b, 100, 20);
  }

  lemma UnitFraction(a: real, b: real)
    requires 0.0 <= a < b
    ensures 0.0 <= a / b < 1.0
  {
    var q := a / b;
    assert q * b == a;
    if q < 0.0 {
      MulPositive(-q, b);
    }
    if 1.0 <= q {
      MulNonNegative(q - 1.0, b);
    }
  }

  lemma FloorBelow(q: real, n: nat)
    requires 0.0 <= q < 1.0 && 1 <= n
    ensures 0 <= (q * n as real).Floor < n
  {
    var t := q * n as real;
    MulNonNegative(q, n as real);
    MulPositive(1.0 - q, n as real);
    assert t < n as real;
  }

  lemma RowTimesWidth(row: int, col: int, n: nat)
    requires 0 <= row < n && 0 <= col < n
    ensures row * n + col - 1 <= n * n - 2
  {
    assert row * n <= (n - 1) * n;
  }

  /**
    Boundary safety: for bounds at the origin, every point the bounds contain
    (the near edges included) falls in a cell that exists.
  */
  lemma CellIndexInRange(bounds: Rectangle, resolution: nat, p: Point)
    requires AtOrigin(bounds) && 1 <= resolution && resolution * resolution <= VecCapacity
    requires Contains(bounds, p)
    ensures 0 <= Column(bounds, resolution, p) < resolution
    ensures 0 <= Row(bounds, resolution, p) < resolution
    ensures CellIndex(bounds, resolution, p) < resolution * resolution
  {
    ColumnInRange(bounds, resolution, p);
    RowInRange(bounds, resolution, p);
    var col, row := Column(bounds, resolution, p), Row(bounds, resolution, p);
    RowTimesWidth(row, col, resolution);
  }

  lemma ColumnInRange(bounds: Rectangle, resolution: nat, p: Point)
    requires AtOrigin(bounds) && 1 <= resolution && Contains(bounds, p)
    ensures 0 <= Column(bounds, resolution, p) < resolution
  {
    var w := bounds.position.x + bounds.width;
    assert w == bounds.width;
    UnitFraction(p.x, w);
    FloorBelow(p.x / w, resolution);
  }

  lemma RowInRange(bounds: Rectangle, resolution: nat, p: Point)
    requires AtOrigin(bounds) && 1 <= resolution && Contains(bounds, p)
    ensures 0 <= Row(bounds, resolution, p) < resolution
  {
    var h := bounds.position.y + bounds.height;
    assert h == bounds.height;
    UnitFraction(p.y, h);
    FloorBelow(p.y / h, resolution);
  }

  /** The 100 x 100 square of the unit tests. */
  function TestBounds(): Rectangle {
    New(Point(0.0, 0.0), 100.0, 100.0)
  }

  /** On the 10 x 10 test grid a point lies in the column and row its coordinates / 10 fall in. */
  lemma TestCell(p: Point, col: int, row: int)
    requires col as real <= p.x / 10.0 < col as real + 1.0
    requires row as real <= p.y / 10.0 < row as real + 1.0
    ensures Column(TestBounds(), 10, p) == col && Row(TestBounds(), 10, p) == row
  {
    var b := TestBounds();
    assert b.position.x + b.width == 100.0 && b.position.y + b.height == 100.0;
    assert p.x / 100.0 * 10.0 == p.x / 10.0;
    assert p.y / 100.0 * 10.0 == p.y / 10.0;
  }

  /** The `get_index` unit test on a 10 x 10 grid over 100 x 100. */
  lemma CellIndexFixtures()
    ensures var b := New(Point(0.0, 0.0), 100.0, 100.0);
      && CellIndex(b, 10, Point(9.0, 0.0)) == 0
      && CellIndex(b, 10, Point(11.0, 0.0)) == 0
      && CellIndex(b, 10, Point(20.0, 0.0)) == 1
      && CellIndex(b, 10, Point(34.0, 0.0)) == 2
      && CellIndex(b, 10, Point(99.999, 0.0)) == 8
  {
    TestCell(Point(9.0, 0.0), 0, 0);
    TestCell(Point(11.0, 0.0), 1, 0);
    TestCell(Point(20.0, 0.0), 2, 0);
    TestCell(Point(34.0, 0.0), 3, 0);
    TestCell(Point(99.999, 0.0), 9, 0);
  }

  /** The insert unit tests: (11, 11) goes to cell 10, (1000, 100) to cell 199, which does not exist. */
  lemma InsertIndexFixtures()
    ensures CellIndex(New(Point(0.0, 0.0), 100.0, 100.0), 10, Point(11.0, 11.0)) == 10
    ensures CellIndex(New(Point(0.0, 0.0), 100.0, 100.0), 10, Point(1000.0, 100.0)) == 199
  {
    TestCell(Point(11.0, 11.0), 1, 1);
    TestCell(Point(1000.0, 100.0), 100, 10);
  }

  /** Inserting one more shape at the end of a commit is one more `insert` step. */
  lemma {:induction false} InsertAllAppend<T(!new)>(cells: seq<seq<T>>, bounds: Rectangle, resolution: nat, ops: ShapeOps<T>, shapes: seq<T>, s: T)
    requires Divisible(bounds)
    ensures var c := InsertAll(cells, bounds, resolution, ops, shapes);
      var i := CellIndex(bounds, resolution, ops.center(s));
      InsertAll(cells, bounds, resolution, ops, shapes + [s]) == if i < |c| then c[i := c[i] + [s]] else c
    decreases |shapes|
  {
    if shapes == [] {
      assert [] + [s] == [s] && [s][1..] == [];
    } else {
      var i := CellIndex(bounds, resolution, ops.center(shapes[0]));
      var next := if i < |cells| then cells[i := cells[i] + [shapes[0]]] else cells;
      assert (shapes + [s])[1..] == shapes[1..] + [s];
      InsertAllAppend(next, bounds, resolution, ops, shapes[1..], s);
    }
  }

  /** Removing one more shape at the end of the pass is one more `remove` step. */
  lemma {:induction false} RemoveAllAppend<T(!new)>(cells: seq<seq<T>>, bounds: Rectangle, resolution: nat, ops: ShapeOps<T>, shapes: seq<T>, s: T)
    requires Divisible(bounds)
    ensures RemoveAll(cells, bounds, resolution, ops, shapes + [s])
      == RemoveOne(RemoveAll(cells, bounds, resolution, ops, shapes), bounds, resolution, ops, s)
    decreases |shapes|
  {
    if shapes == [] {
      assert [] + [s] == [s] && [s][1..] == [];
    } else {
      assert (shapes + [s])[1..] == shapes[1..] + [s];
      RemoveAllAppend(RemoveOne(cells, bounds, resolution, ops, shapes[0]), bounds, resolution, ops, shapes[1..], s);
    }
  }

  /** Every item of the concatenation comes from a cell, and every cell's items are in it. */
  lemma {:induction false} FlattenMembership<T(!new)>(cells: seq<seq<T>>, x: T)
    ensures x in Flatten(cells) <==> exists i :: 0 <= i < |cells| && x in cells[i]
  {
    if cells != [] {
      FlattenMembership(cells[1..], x);
      if exists i :: 0 <= i < |cells| && x in cells[i] {
        var i :| 0 <= i < |cells| && x in cells[i];
        if i > 0 {
          assert cells[1..][i - 1] == cells[i];
        }
      }
      if x in Flatten(cells[1..]) {
        var i :| 0 <= i < |cells[1..]| && x in cells[1..][i];
        assert cells[i + 1] == cells[1..][i];
      }
    }
  }

  /**
    Replacing one cell changes the stored items by exactly that cell's difference
    (stated without multiset subtraction).
  */
  lemma {:induction false} FlattenReplace<T(!new)>(cells: seq<seq<T>>, i: nat, c: seq<T>)
    requires i < |cells|
    ensures multiset(Flatten(cells[i := c])) + multiset(cells[i]) == multiset(Flatten(cells)) + multiset(c)
  {
    if i == 0 {
      assert cells[0 := c] == [c] + cells[1..];
      assert (cells[0 := c])[1..] == cells[1..];
    } else {
      FlattenReplace(cells[1..], i - 1, c);
      assert (cells[i := c])[1..] == cells[1..][i - 1 := c];
      assert (cells[i := c])[0] == cells[0];
      assert Flatten(cells[i := c]) == cells[0] + Flatten(cells[1..][i - 1 := c]);
      assert cells[1..][i - 1] == cells[i];
      calc {
        multiset(Flatten(cells[i := c])) + multiset(cells[i]);
        multiset(cells[0]) + multiset(Flatten(cells[1..][i - 1 := c])) + multiset(cells[i]);
        multiset(cells[0]) + (multiset(Flatten(cells[1..][i - 1 := c])) + multiset(cells[1..][i - 1]));
        multiset(cells[0]) + (multiset(Flatten(cells[1..])) + multiset(c));
        multiset(Flatten(cells)) + multiset(c);
      }
    }
  }

  /** `insert` adds exactly the inserted shape to the stored items. */
  lemma InsertAddsItem<T(!new)>(cells: seq<seq<T>>, i: nat, s: T)
    requires i < |cells|
    ensures multiset(Flatten(cells[i := cells[i] + [s]])) == multiset(Flatten(cells)) + multiset{s}
  {
    FlattenReplace(cells, i, cells[i] + [s]);
    assert multiset(cells[i] + [s]) == multiset(cells[i]) + multiset{s};
    MultisetCancel(multiset(Flatten(cells[i := cells[i] + [s]])), multiset(Flatten(cells)) + multiset{s}, multiset(cells[i]));
  }

  lemma MultisetCancel<T>(a: multiset<T>, b: multiset<T>, c: multiset<T>)
    requires a + c == b + c
    ensures a == b
  {
    forall x ensures a[x] == b[x] {
      assert (a + c)[x] == (b + c)[x];
    }
  }

  /** `remove` takes exactly the first equal element out of the stored items. */
  lemma RemoveDropsItem<T(!new)>(cells: seq<seq<T>>, i: nat, s: T, same: (T, T) -> bool)
    requires i < |cells|
    requires exists j :: 0 <= j < |cells[i]| && same(cells[i][j], s)
    ensures var k := FirstMatch(cells[i], s, same);
      multiset(Flatten(cells[i := RemoveFirst(cells[i], s, same)])) + multiset{cells[i][k]} == multiset(Flatten(cells))
  {
    var k := FirstMatch(cells[i], s, same);
    var r := RemoveFirst(cells[i], s, same);
    FlattenReplace(cells, i, r);
    assert multiset(r) + multiset{cells[i][k]} == multiset(cells[i]);
    MultisetCancel(multiset(Flatten(cells[i := r])) + multiset{cells[i][k]}, multiset(Flatten(cells)), multiset(r));
  }

  /** A grid where only cell `j` holds anything lists exactly that cell's items. */
  lemma {:induction false} FlattenSingle<T(!new)>(cells: seq<seq<T>>, j: nat)
    requires j < |cells|
    requires forall i :: 0 <= i < |cells| && i != j ==> cells[i] == []
    ensures Flatten(cells) == cells[j]
  {
    if j == 0 {
      FlattenEmpty(cells[1..]);
    } else {
      FlattenSingle(cells[1..], j - 1);
    }
  }

  lemma {:induction false} FlattenEmpty<T(!new)>(cells: seq<seq<T>>)
    requires forall i :: 0 <= i < |cells| ==> cells[i] == []
    ensures Flatten(cells) == []
  {
    if cells != [] {
      FlattenEmpty(cells[1..]);
    }
  }

  /**
    Gathering over ids of which only `j` names a non-empty cell, named once,
    yields the kept items of cell `j`.
  */
  lemma {:induction false} GatherSingle<T(!new)>(cells: seq<seq<T>>, ids: seq<nat>, keep: T -> bool, j: nat, at: nat)
    requires j < |cells| && at < |ids| && ids[at] == j
    requires forall k :: 0 <= k < |ids| && k != at ==> ids[k] != j
    requires forall k :: 0 <= k < |ids| && ids[k] < |cells| && ids[k] != j ==> cells[ids[k]] == []
    ensures Gather(cells, ids, keep) == Filter(cells[j], keep)
  {
    if at == 0 {
      GatherEmpty(cells, ids[1..], keep);
    } else {
      assert ids[0] != j;
      assert ids[0] < |cells| ==> Filter(cells[ids[0]], keep) == [];
      GatherSingle(cells, ids[1..], keep, j, at - 1);
    }
  }

  /**
    The fold keeps the order of the ids: gathering over `a + b` is gathering
    over `a` followed by gathering over `b`, and one id contributes its cell's
    kept items in the cell's own order (nothing for a missing cell). So the
    `take(max_count)` that follows a query keeps the first items of the first cells.
  */
  lemma {:induction false} GatherInIdOrder<T(!new)>(cells: seq<seq<T>>, a: seq<nat>, b: seq<nat>, keep: T -> bool)
    ensures Gather(cells, a + b, keep) == Gather(cells, a, keep) + Gather(cells, b, keep)
    ensures |a| == 1 ==> Gather(cells, a, keep) == if a[0] < |cells| then Filter(cells[a[0]], keep) else []
  {
    if a == [] {
      assert a + b == b;
    } else {
      var ab := a + b;
      assert ab[0] == a[0] && ab[1..] == a[1..] + b;
      var here := if a[0] < |cells| then Filter(cells[a[0]], keep) else [];
      GatherHead(cells, ab, keep);
      GatherHead(cells, a, keep);
      GatherInIdOrder(cells, a[1..], b, keep);
      AppendRegroup(here, Gather(cells, a[1..], keep), Gather(cells, b, keep),
        Gather(cells, ab, keep), Gather(cells, a, keep));
    }
  }

  /**
    The filter keeps the order of its input: filtering `s + t` is filtering `s`
    followed by filtering `t`, and a sequence whose every element passes is kept whole.
  */
  lemma {:induction false} FilterInOrder<T(!new)>(s: seq<T>, t: seq<T>, keep: T -> bool)
    ensures Filter(s + t, keep) == Filter(s, keep) + Filter(t, keep)
    ensures (forall k :: 0 <= k < |s| ==> keep(s[k])) ==> Filter(s, keep) == s
  {
    if s == [] {
      assert s + t == t;
    } else {
      var st := s + t;
      assert st[0] == s[0] && st[1..] == s[1..] + t;
      var here := if keep(s[0]) then [s[0]] else [];
      assert Filter(st, keep) == here + Filter(s[1..] + t, keep);
      assert Filter(s, keep) == here + Filter(s[1..], keep);
      FilterInOrder(s[1..], t, keep);
      AppendRegroup(here, Filter(s[1..], keep), Filter(t, keep), Filter(st, keep), Filter(s, keep));
      if forall k :: 0 <= k < |s| ==> keep(s[k]) {
        assert forall k :: 0 <= k < |s[1..]| ==> keep(s[1..][k]) by {
          forall k | 0 <= k < |s[1..]| ensures keep(s[1..][k]) {
            assert s[1..][k] == s[k + 1];
          }
        }
        assert s == [s[0]] + s[1..];
      }
    }
  }

  /** Regrouping a three-part concatenation. */
  lemma AppendRegroup<T>(h: seq<T>, x: seq<T>, y: seq<T>, whole: seq<T>, front: seq<T>)
    requires whole == h + (x + y) && front == h + x
    ensures whole == front + y
  {
  }

  /** One step of the fold: the first id's kept items, then the rest. */
  lemma GatherHead<T(!new)>(cells: seq<seq<T>>, ids: seq<nat>, keep: T -> bool)
    requires ids != []
    ensures Gather(cells, ids, keep) ==
      (if ids[0] < |cells| then Filter(cells[ids[0]], keep) else []) + Gather(cells, ids[1..], keep)
  {
  }

  lemma {:induction false} GatherEmpty<T(!new)>(cells: seq<seq<T>>, ids: seq<nat>, keep: T -> bool)
    requires forall k :: 0 <= k < |ids| && ids[k] < |cells| ==> cells[ids[k]] == []
    ensures Gather(cells, ids, keep) == []
  {
    if ids != [] {
      GatherEmpty(cells, ids[1..], keep);
    }
  }

  /**
    Self-containment: once a shape whose centre is inside the bounds has been
    inserted (its cell exists), an unfiltered query for it finds it.
  */
  lemma InsertedIsNeighbor<T(!new)>(cells: seq<seq<T>>, bounds: Rectangle, resolution: nat, ops: ShapeOps<T>,
                              dist: (Point, Point) -> real, s: T)
    requires Divisible(bounds) && Contains(bounds, ops.center(s))
    requires CellIndex(bounds, resolution, ops.center(s)) < |cells|
    requires CellIndex(bounds, resolution, ops.center(s)) <= I32Max
    ensures var i := CellIndex(bounds, resolution, ops.center(s));
      var r := Neighbors(cells[i := cells[i] + [s]], bounds, resolution, ops, dist, s, None);
      r.Ok? && s in r.value
  {
    var i := CellIndex(bounds, resolution, ops.center(s));
    var after := cells[i := cells[i] + [s]];
    var ids := NeighboringCells(i, |after|);
    OwnCellIsNeighbor(i, |after|);
    var k :| 0 <= k < |ids| && ids[k] == i;
    assert s in after[ids[k]];
  }

  lemma FlattenContents<T(!new)>(cells: seq<seq<T>>)
    ensures forall x :: x in Flatten(cells) <==> exists i :: 0 <= i < |cells| && x in cells[i]
  {
    forall x ensures x in Flatten(cells) <==> exists i :: 0 <= i < |cells| && x in cells[i] {
      FlattenMembership(cells, x);
    }
  }

  /**
    Two shapes in different cells of an empty grid: an unfiltered query for the
    first, whose cell does not list the second's among its neighbours, returns
    just the first.
  */
  lemma TwoShapeQuery<T(!new)>(bounds: Rectangle, resolution: nat, n: nat, ops: ShapeOps<T>,
                               dist: (Point, Point) -> real, a: T, b: T, i: nat, j: nat, ids: seq<nat>, at: nat)
    requires Divisible(bounds) && Contains(bounds, ops.center(a))
    requires i == CellIndex(bounds, resolution, ops.center(a)) && j == CellIndex(bounds, resolution, ops.center(b))
    requires i < n && j < n && i != j
    requires ids == NeighboringCells(i, n) && j !in ids
    requires at < |ids| && ids[at] == i && forall k :: 0 <= k < |ids| && k != at ==> ids[k] != i
    ensures Neighbors(InsertAll(EmptyCells(n), bounds, resolution, ops, [a, b]), bounds, resolution, ops, dist, a, None) == Ok([a])
  {
    var empty: seq<seq<T>> := EmptyCells(n);
    var cells := empty[i := [a]][j := [b]];
    assert empty[i] + [a] == [a];
    var first := empty[i := [a]];
    assert first[j] + [b] == [b];
    assert [a, b][1..] == [b] && [b][1..] == [];
    assert InsertAll(first, bounds, resolution, ops, [b]) == InsertAll(cells, bounds, resolution, ops, []);
    assert InsertAll(empty, bounds, resolution, ops, [a, b]) == InsertAll(first, bounds, resolution, ops, [b]);
    var keep := (item: T) => Within(dist, ops.center(a), ops.center(item), None);
    assert forall k :: 0 <= k < |ids| ==> ids[k] != j;
    assert forall k :: 0 <= k < |ids| && ids[k] < |cells| && ids[k] != i ==> cells[ids[k]] == [];
    GatherSingle(cells, ids, keep, i, at);
    assert Filter([a], keep) == [a] by {
      assert [a][1..] == [];
    }
    assert Neighbors(cells, bounds, resolution, ops, dist, a, None) == Ok(Gather(cells, ids, keep));
  }

  /** Where the circles of the two `get_neighbors` unit tests land in a 10 x 10 grid over 100 x 100. */
  lemma NeighborFixtureCells()
    ensures CellIndex(New(Point(0.0, 0.0), 100.0, 100.0), 10, Point(11.0, 11.0)) == 10
    ensures CellIndex(New(Point(0.0, 0.0), 100.0, 100.0), 10, Point(30.3, 50.4)) == 52
  {
    TestCell(Point(11.0, 11.0), 1, 1);
    TestCell(Point(30.3, 50.4), 3, 5);
  }

  lemma NeighborEdgeFixtureCells()
    ensures CellIndex(New(Point(0.0, 0.0), 100.0, 100.0), 10, Point(99.0, 11.0)) == 18
    ensures CellIndex(New(Point(0.0, 0.0), 100.0, 100.0), 10, Point(101.1, 50.4)) == 59
  {
    TestCell(Point(99.0, 11.0), 9, 1);
    TestCell(Point(101.1, 50.4), 10, 5);
  }

  lemma NeighborIdsOfTen()
    ensures NeighboringCells(10, 100) == [0, 1, 9, 10, 11, 19, 20, 21]
  {
    FloorSqrtOfSquare(10);
    var b := Block(WrapI32(10), SaturatingI32(10));
    assert b == [-1, 0, 1, 9, 10, 11, 19, 20, 21];
    KeepPositive(b[1..], 100);
    assert KeepCells(b, 100) == KeepCells(b[1..], 100);
  }

  lemma NeighborIdsOfEighteen()
    ensures NeighboringCells(18, 100) == [7, 8, 9, 17, 18, 19, 27, 28, 29]
  {
    FloorSqrtOfSquare(10);
    var b := Block(WrapI32(18), SaturatingI32(10));
    assert b == [7, 8, 9, 17, 18, 19, 27, 28, 29];
    KeepPositive(b, 100);
  }

  lemma TenSkipsFar(ids: seq<nat>)
    requires ids == [0, 1, 9, 10, 11, 19, 20, 21]
    ensures 52 !in ids && 3 < |ids| && ids[3] == 10
    ensures forall k :: 0 <= k < |ids| && k != 3 ==> ids[k] != 10
  {
  }

  lemma EighteenSkipsFar(ids: seq<nat>)
    requires ids == [7, 8, 9, 17, 18, 19, 27, 28, 29]
    ensures 59 !in ids && 4 < |ids| && ids[4] == 18
    ensures forall k :: 0 <= k < |ids| && k != 4 ==> ids[k] != 18
  {
  }

  /** The `get_neighbors` unit test: (11, 11) and a circle in cell 52. */
  lemma GetNeighborsFixture(dist: (Point, Point) -> real)
    ensures var bounds := New(Point(0.0, 0.0), 100.0, 100.0);
      var ops := ShapeOps(Circles.CenterOf, Circles.Eq);
      var circle := Circles.New(Point(11.0, 11.0), 5.0);
      var far := Circles.New(Point(30.3, 50.4), 10.0);
      var cells := InsertAll(EmptyCells(100), bounds, 10, ops, [circle, far]);
      Neighbors(cells, bounds, 10, ops, dist, circle, None) == Ok([circle])
  {
    var bounds := New(Point(0.0, 0.0), 100.0, 100.0);
    var ops := ShapeOps(Circles.CenterOf, Circles.Eq);
    var circle, far := Circles.New(Point(11.0, 11.0), 5.0), Circles.New(Point(30.3, 50.4), 10.0);
    assert ops.center(circle) == Point(11.0, 11.0) && ops.center(far) == Point(30.3, 50.4);
    assert Contains(bounds, Point(11.0, 11.0));
    var ids: seq<nat> := [0, 1, 9, 10, 11, 19, 20, 21];
    TenSkipsFar(ids);
    NeighborFixtureCells();
    NeighborIdsOfTen();
    TwoShapeQuery(bounds, 10, 100, ops, dist, circle, far, 10, 52, ids, 3);
  }

  /** The edge-case unit test: (99, 11) at the end of a row, a circle just past the right edge. */
  lemma GetNeighborsEdgeFixture(dist: (Point, Point) -> real)
    ensures var bounds := New(Point(0.0, 0.0), 100.0, 100.0);
      var ops := ShapeOps(Circles.CenterOf, Circles.Eq);
      var circle := Circles.New(Point(99.0, 11.0), 5.0);
      var far := Circles.New(Point(101.1, 50.4), 10.0);
      var cells := InsertAll(EmptyCells(100), bounds, 10, ops, [circle, far]);
      Neighbors(cells, bounds, 10, ops, dist, circle, None) == Ok([circle])
  {
    var bounds := New(Point(0.0, 0.0), 100.0, 100.0);
    var ops := ShapeOps(Circles.CenterOf, Circles.Eq);
    var circle, far := Circles.New(Point(99.0, 11.0), 5.0), Circles.New(Point(101.1, 50.4), 10.0);
    assert ops.center(circle) == Point(99.0, 11.0) && ops.center(far) == Point(101.1, 50.4);
    assert Contains(bounds, Point(99.0, 11.0));
    var ids: seq<nat> := [7, 8, 9, 17, 18, 19, 27, 28, 29];
    EighteenSkipsFar(ids);
    NeighborEdgeFixtureCells();
    NeighborIdsOfEighteen();
    TwoShapeQuery(bounds, 10, 100, ops, dist, circle, far, 18, 59, ids, 4);
  }

  /** The `get_all_items` unit test: a map of points holding only the origin lists just the origin. */
  lemma GetItemsFixture()
    ensures var bounds := New(Point(0.0, 0.0), 100.0, 100.0);
      var ops := ShapeOps((p: Point) => p, (p: Point, q: Point) => p == q);
      Flatten(InsertAll(EmptyCells(100), bounds, 10, ops, [Point(0.0, 0.0)])) == [Point(0.0, 0.0)]
  {
    var bounds := New(Point(0.0, 0.0), 100.0, 100.0);
    TestCell(Point(0.0, 0.0), 0, 0);
    assert CellIndex(bounds, 10, Point(0.0, 0.0)) == 0;
    var empty: seq<seq<Point>> := EmptyCells(100);
    var cells := empty[0 := [Point(0.0, 0.0)]];
    FlattenSingle(cells, 0);
  }

  /**
    The grid itself: its bounds and resolution are fixed at construction, and
    `cells` holds resolution^2 lists that `insert` and `remove` update in place.
  */
  class PointMap<T(==,!new)> {
    const bounds: Rectangle
    const resolution: nat
    const ops: ShapeOps<T>
    var cells: seq<seq<T>>

    ghost predicate Valid()
      reads this
    {
      && Divisible(bounds)
      && resolution * resolution <= VecCapacity
      && |cells| == resolution * resolution
      && Placed(cells, bounds, resolution, ops)
    }

    /** `new`: resolution^2 empty cells. */
    constructor(bounds: Rectangle, resolution: nat, ops: ShapeOps<T>)
      requires Divisible(bounds) && resolution * resolution <= VecCapacity
      ensures Valid()
      ensures this.bounds == bounds && this.resolution == resolution && this.ops == ops
      ensures cells == EmptyCells(resolution * resolution)
    {
      this.bounds := bounds;
      this.resolution := resolution;
      this.ops := ops;
      cells := EmptyCells(resolution * resolution);
    }

    /** `insert`: append to the shape's cell, or hand the shape back when that cell does not exist. */
    method Insert(s: T) returns (r: Result<nat, T>)
      requires Valid()
      modifies this
      ensures Valid()
      ensures var i := CellIndex(bounds, resolution, ops.center(s));
        if i < |old(cells)| then
          r == Ok(i) && cells == old(cells)[i := old(cells)[i] + [s]]
          && multiset(GetItems()) == multiset(old(GetItems())) + multiset{s}
        else
          r == Err(s) && cells == old(cells)
    {
      var i := CellIndex(bounds, resolution, ops.center(s));
      if i < |cells| {
        InsertAddsItem(cells, i, s);
        cells := cells[i := cells[i] + [s]];
        r := Ok(i);
      } else {
        r := Err(s);
      }
    }

    /** One `insert` of a commit loop, its result ignored: the cells grow by one more InsertAll step. */
    method InsertNext(ghost start: seq<seq<T>>, ghost done: seq<T>, s: T)
      requires Valid() && cells == InsertAll(start, bounds, resolution, ops, done)
      modifies this
      ensures Valid() && cells == InsertAll(start, bounds, resolution, ops, done + [s])
    {
      var _ := Insert(s);
      InsertAllAppend(start, bounds, resolution, ops, done, s);
    }

    /** `remove`: drop the first shape equal to `s` from `s`'s cell, if there is one. */
    method Remove(s: T)
      requires Valid()
      modifies this
      ensures Valid()
      ensures cells == RemoveOne(old(cells), bounds, resolution, ops, s)
    {
      var i := CellIndex(bounds, resolution, ops.center(s));
      if i < |cells| {
        var cell := cells[i];
        var k := 0;
        while k < |cell| && !ops.same(cell[k], s)
          invariant k <= |cell|
          invariant forall j :: 0 <= j < k ==> !ops.same(cell[j], s)
        {
          k := k + 1;
        }
        assert k == FirstMatch(cell, s, ops.same);
        RemoveOneKeepsPlaced(cells, bounds, resolution, ops, s);
        if k < |cell| {
          cells := cells[i := cell[..k] + cell[k + 1..]];
        }
      }
    }

    /** `get_items`: every stored shape, cell after cell. */
    function GetItems(): (items: seq<T>)
      reads this
      ensures forall x :: x in items <==> exists i :: 0 <= i < |cells| && x in cells[i]
    {
      FlattenContents(cells);
      Flatten(cells)
    }

    /** `get_neighbors` with the source's `distance_to` as the filter's distance. */
    function GetNeighbors(m: Libm, s: T, limit: Option<real>): (r: Result<seq<T>, string>)
      reads this
      requires Valid()
      ensures r.Err? <==> !Contains(bounds, ops.center(s))
      ensures r.Ok? ==> forall x :: x in r.value ==>
        (limit.Some? ==> DistanceTo(m, ops.center(s), ops.center(x)) < limit.value)
      ensures r.Ok? ==>
        var ids := NeighboringCells(CellIndex(bounds, resolution, ops.center(s)), |cells|);
        forall x :: x in r.value <==>
          Within(PointDistance(m), ops.center(s), ops.center(x), limit) &&
          exists k :: 0 <= k < |ids| && ids[k] < |cells| && x in cells[ids[k]]
    {
      Neighbors(cells, bounds, resolution, ops, PointDistance(m), s, limit)
    }
  }
}
