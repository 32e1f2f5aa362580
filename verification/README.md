# Generative-art grid index and growth loops, in Dafny

This project models the core of a generative-art program written in Rust.

- **The grid index.** The `PointMap` is a uniform grid over a rectangle. It stores shapes in a flat list of resolution² cells, and answers neighbour queries over the 3 × 3 block of cells around a point. There are three versions:
  - `src/shapes/pointmap.rs` (module `Grid`);
  - its twin in the libs crate, which uses the Euclidean point distance (module `LibsGrid`);
  - the older two-dimensional grid of circles in `src/pointmap.rs` (module `LegacyGrid`).
- **The growth loops** that use the grid:
  - forces: lines of circles grow through a noise field (module `Forces`);
  - wildlands: trails of blobs do the same (module `Wildlands`);
  - nightfall: a linking pass queries each point's neighbours and then removes the point (module `Nightfall`).
- **The shape helpers** the loops rely on: `Points`, `Rectangles`, `Circles`, `Blobs`, `Paths` and `RangeMap` (the linear range `map`).
- **The rectangle-splitting worklist** shared by the piet painting and the regional palette (modules `Subdivision`, `Piet`, `RegionalPalettes`).

How the model is built:

- f64 values are `real`, and `floor` is `.Floor`.
- `as usize` on a float saturates: negatives become 0 and large values become `usize::MAX` (`Grid.SaturatingUsize`, `Nightfall.TruncateToUsize`).
- `sqrt`, `cos` and `sin` are fields of a `Libm` value passed in. The predicate `ExactSqrt` says that its square root is exact, and `UnitCircle` says that cos² + sin² = 1. Only the properties that need these require them.
- `get_neighboring_cells` works in `i32`: `index as i32` wraps (`Grid.WrapI32`), the float-to-`i32` cast of the step saturates (`Grid.SaturatingI32`), and the sums wrap as a release build does.
- The noise field is a function parameter. The random draws are functions of the line, trail or (round, index) they belong to.
- The `Shape` trait and `PartialEq` are the `ShapeOps` pair: a shape's centre and the equality `remove` searches with. For circles and blobs that equality ignores the colour.
- Shapes, points and rectangles are values. Point equality is structural, as the derived `PartialEq` is.
- Each `PointMap` is a class whose `cells` field its methods update. Its specification functions are `CellIndex`, `NeighboringCells`, `Neighbors`, `Flatten`, `InsertAll` and `RemoveOne`.
- `Path` is a class with `points` and `style`. Its `length` and `contains` loops are proved against `PathLength` and `PolygonContains`.

The source's quirks are reproduced as written:

- `distance_to` uses the other point's y for the x term, and `between` does the same.
  - So the documented example distance between (0, 0) and (20, 0) is 0 and not 20 (`Points.DistanceToDocExample`).
  - The distance is not symmetric.
  - A step along the x axis adds nothing to a path's length.
- `Path::center` is always (0, 0).
- `Rectangle::center` is ((x + w) / 2, (y + h) / 2).
- `get_index` divides by position + extent and subtracts 1.
- The neighbouring cells do not stop at row ends.
- The wildlands loop condition lets long trails grow without the 150 cap, because of operator precedence.
- The legacy neighbour query returns copies of the query's own cell only.
  - It returns one copy per valid (row, column) pair of the block.
  - It answers None in row or column 0.
- `split_line` drops the points after the last split, and with a gap the first point too.

The fixtures of the Rust tests are restated as lemmas. Two of them disagree with the code:

- The libs crate's `insert_point` test expects cell 1 for the point (11, 11), and the code gives 10 (`Grid.InsertIndexFixtures`).
- The distance doc comment noted above.

## Model

| member | source | states |
|---|---|---|
| Points.DistanceTo | src/shapes/point.rs:31-36 | with an exact sqrt the result is non-negative and its square is (x − other.y)² + (y − other.y)², as written |
| Points.DistanceToFixture | src/shapes/point.rs:98-103 | distance_to((−10,0),(10,10)) rounds to 22 |
| Points.DistanceToDocExample | src/shapes/point.rs:24-28 | as written the documented distance between (0,0) and (20,0) is 0, not the 20 the comment gives |
| Points.DistanceToNotSymmetric | src/shapes/point.rs:31-36 | distance_to is not symmetric: (0,1)→(2,3) and (2,3)→(0,1) differ |
| Points.Offset | src/shapes/point.rs:39-41 | the result differs from the point by exactly (dx, dy) |
| Points.OffsetComposes | src/shapes/point.rs:39-41 | two offsets compose into one by the summed deltas; a zero offset is the identity |
| Points.OffsetFixture | src/shapes/point.rs:118-124 | (5,−100) offset by (10,0) is (15,−100) |
| Points.OffsetInPlace | src/shapes/point.rs:44-47 | the in-place offset leaves the point equal to what `offset` returns |
| Points.Between | src/shapes/point.rs:56-61 | percent 0 gives the point itself; percent 1 gives (other.y, other.y), as written |
| Points.BetweenIsAffine | src/shapes/point.rs:52-61 | between is (1 − t)·p + t·(other.y, other.y); t = 0.5 is the midpoint; for t in [0,1] each coordinate lies between the two ends |
| Rectangles.New | src/shapes/rectangle.rs:52-58 | the rectangle has the given position and size and no colour |
| Rectangles.WithColor | src/shapes/rectangle.rs:62-64 | set_color gives the colour and keeps the geometry (equal under `eq`) |
| Rectangles.Area | src/shapes/rectangle.rs:84-86 | a rectangle of non-negative size has non-negative area |
| Rectangles.AreaOfScale | src/shapes/rectangle.rs:69-86 | scaling by s multiplies the area by s² |
| Rectangles.XRange | src/shapes/rectangle.rs:90-92 | the x range starts at the left edge and is `width` long |
| Rectangles.YRange | src/shapes/rectangle.rs:96-98 | the y range starts at the top edge and is `height` long |
| Rectangles.Center | src/shapes/rectangle.rs:183-188 | at the origin the centre is (w/2, h/2) |
| Rectangles.Eq | src/shapes/rectangle.rs:211-218 | eq holds iff the two rectangles differ at most in colour |
| Rectangles.Scale | src/shapes/rectangle.rs:69-81 | width and height are multiplied by the factor, the geometric centre is kept, the colour is kept |
| Rectangles.ScaleFixtures | src/shapes/rectangle.rs:248-297 | scaling the 100×100 box at the origin by 1.1 gives (−5,−5,110,110) and by 0.9 gives (5,5,90,90) |
| Rectangles.ScaleComposes | src/shapes/rectangle.rs:69-81 | scaling by a then b is scaling by a·b; scaling by 1 is the identity |
| Rectangles.RangeContains | src/shapes/rectangle.rs:90-98 | x_range and y_range are half-open: start ≤ v < end |
| Rectangles.Contains | src/shapes/rectangle.rs:179-181 | contains holds iff x ∈ [x, x+w) and y ∈ [y, y+h) |
| Rectangles.ContainsIsHalfOpen | src/shapes/rectangle.rs:179-181 | a proper rectangle contains its corner and not the points at x+w or y+h |
| Rectangles.ContainsFixture | src/shapes/rectangle.rs:234-245 | (10,30) is not in the 20×20 box at the origin |
| Rectangles.CenterFixtures | src/shapes/rectangle.rs:300-311 | the centres of the two test boxes are (50,50) and (75,50) |
| Rectangles.CenterIsMidpointOnlyAtOrigin | src/shapes/rectangle.rs:183-188 | center is the geometric midpoint iff the rectangle sits at the origin |
| Rectangles.ToPath | src/shapes/rectangle.rs:101-113 | the outline is (x,y), (x+w,y), (x+w,y+h), (x,y+h) and back to (x,y) |
| Rectangles.SplitHorizontally | src/shapes/rectangle.rs:127-144 | the widths plus twice the padding are the width; both heights are kept; the second half starts at split.x + padding |
| Rectangles.SplitVertically | src/shapes/rectangle.rs:146-163 | the heights plus twice the padding are the height; both widths are kept; the second half starts at split.y + padding |
| Rectangles.Subdivide | src/shapes/rectangle.rs:116-125 | subdivide splits in the chosen direction with padding 16 |
| Rectangles.SubdivideAreas | src/shapes/rectangle.rs:116-163 | the two halves' areas sum to the area less the 2·16-wide band around the split line |
| RangeMap.Map | src/transforms/map.rs:15-23 | from.start maps to to.start and from.end maps to to.end |
| RangeMap.MapDocExample | src/transforms/map.rs:12 | map(10, 0..20, 0..40) is 20 |
| RangeMap.MapIsAffine | src/transforms/map.rs:22 | map is affine in the value with slope (to.end − to.start)/(from.end − from.start) |
| RangeMap.MapRoundTrip | src/transforms/map.rs:22 | mapping there and back between two proper ranges gives the value back |
| Circles.Distance | src/shapes/circle.rs:45-49 | with an exact sqrt, distance plus both half radii is the Euclidean distance between the centres |
| Circles.DistanceDocExample | src/shapes/circle.rs:40-44 | two radius-10 circles 20 apart are at distance 10 |
| Circles.DistanceSymmetric | src/shapes/circle.rs:45-49 | distance is symmetric in its two circles |
| Circles.New | src/shapes/circle.rs:27-33 | the circle has the given centre and radius and no colour |
| Circles.Intersects | src/shapes/circle.rs:52-54 | intersects holds iff the Euclidean centre distance is below r₁ + r₂ (the half radii cancel) |
| Circles.IntersectsIffCentresClose | src/shapes/circle.rs:52-54 | for non-negative radii, intersects holds iff the squared centre distance is below (r₁ + r₂)² |
| Circles.IntersectsSymmetric | src/shapes/circle.rs:52-54 | intersects is symmetric |
| Circles.IntersectsAny | src/shapes/circle.rs:57-59 | instersects_any holds iff some element intersects |
| Circles.ContainsIffSquared | src/shapes/circle.rs:102-104 | with an exact sqrt, contains holds iff the radius is positive and the as-written squared distance_to from the centre is below r² |
| Circles.Contains | src/shapes/circle.rs:102-104 | with an exact sqrt, a circle contains a point only when its radius is positive |
| Circles.CenterOf | src/shapes/circle.rs:89-91 | the Shape centre of a circle is its centre field |
| Circles.Eq | src/shapes/circle.rs:107-113 | eq holds iff the two circles differ at most in colour |
| Circles.Scale | src/shapes/circle.rs:67-73 | the radius is multiplied by the factor; centre and colour are kept |
| Circles.ScaleComposes | src/shapes/circle.rs:67-73 | scaling composes multiplicatively; scaling by 1 is the identity |
| Circles.EqIgnoresColor | src/shapes/circle.rs:107-113 | eq compares centre and radius only, ignores colour, and is an equivalence |
| Blobs.EqIgnoresColor | src/shapes/blob.rs:38-40 | eq holds iff the two blobs differ at most in colour; blobs that differ only in colour are eq but not identical |
| Blobs.Eq | src/shapes/blob.rs:38-40 | eq blobs have the same Shape centre; for blobs of the same colour eq is identity |
| Blobs.CenterOf | src/shapes/blob.rs:100-102 | the Shape centre of a blob is its position |
| Blobs.Distance | src/shapes/blob.rs:67-70 | with an exact sqrt, distance plus both radii is non-negative and squares to the as-written squared distance_to between the centres |
| Paths.PathLengthNonNegative | src/shapes/path.rs:76-86 | with an exact sqrt the length is non-negative |
| Paths.PathLength | src/shapes/path.rs:76-86 | a path of at most one point has length 0 |
| Paths.PathLengthAppend | src/shapes/path.rs:76-86 | appending a point adds the distance_to from the last point |
| Paths.PathLengthIgnoresHorizontalSteps | src/shapes/path.rs:76-86 | as written, the path (0,0)→(20,0) has length 0 |
| Paths.Path.constructor | src/shapes/path.rs:38 | the path holds the given points and style |
| Paths.Path.AddPoint | src/shapes/path.rs:44-46 | the point is appended, the prefix and the style are kept |
| Paths.Path.Length | src/shapes/path.rs:76-86 | the loop computes the sum of distance_to over consecutive pairs; 0 for at most one point |
| Paths.SegmentsIntersectSymmetric | src/shapes/path.rs:89-99 | the segment test is symmetric in its two segments |
| Paths.SegmentsIntersect | src/shapes/path.rs:89-99 | two segments that start at the same point intersect |
| Paths.SegmentsIntersectFixture | src/shapes/path.rs:317-322 | the vertical and horizontal test segments intersect |
| Paths.Extent | src/shapes/path.rs:158-194 | the fold's min/max bound every point and each is attained by a point or the seed |
| Paths.BoundingBox | src/shapes/path.rs:158-194 | None iff the path is empty; otherwise an uncoloured box containing every point whose four edges each touch a point |
| Paths.BoundingBoxFixture | src/shapes/path.rs:293-313 | the test path's box is at (−5,0) with size 10×10 |
| Paths.Path.BoundingBoxOf | src/shapes/path.rs:158-194 | None iff the path has no points; otherwise an uncoloured box that contains every point and whose four edges each touch a point |
| Paths.BoundingBoxOfRectanglePath | src/shapes/rectangle.rs:101-113 | the bounding box of a rectangle's outline is the rectangle itself, uncoloured |
| Paths.CenterIgnoresBoundingBox | src/shapes/path.rs:150-156 | center is (0,0) even where the bounding box's centre is not |
| Paths.PathCenter | src/shapes/path.rs:150-156 | center is the origin for every path, empty or not |
| Paths.Rays | src/shapes/path.rs:221-283 | four rays, each starting at the query point |
| Paths.OutsideBoundingBox | src/shapes/path.rs:221-230 | a point outside the bounding box is not contained |
| Paths.PolygonContains | src/shapes/path.rs:221-283 | a contained point lies in the path's bounding box |
| Paths.PolygonContainsOutsideFixture | src/shapes/path.rs:338 | (500,50) is not in the test polygon |
| Paths.ContainsByRays | src/shapes/path.rs:221-283 | a point in the box whose four rays each cross the outline once is contained |
| Paths.UpRayCrossesOnce | src/shapes/path.rs:221-283 | the upward ray from (50,50) crosses the test polygon once |
| Paths.DownRayCrossesOnce | src/shapes/path.rs:221-283 | the downward ray from (50,50) crosses the test polygon once |
| Paths.RightRayCrossesOnce | src/shapes/path.rs:221-283 | the rightward ray from (50,50) crosses the test polygon once |
| Paths.LeftRayCrossesOnce | src/shapes/path.rs:221-283 | the leftward ray from (50,50) crosses the test polygon once |
| Paths.TestPolygonBox | src/shapes/path.rs:325-339 | the test polygon's bounding box is the 100×100 box at the origin |
| Paths.PolygonContainsInsideFixture | src/shapes/path.rs:325-337 | (50,50) is in the test polygon |
| Paths.Path.Contains | src/shapes/path.rs:221-283 | the nested crossing loops answer PolygonContains: inside the box and an odd crossing count on all four rays |
| Grid.SaturatingUsize | src/shapes/pointmap.rs:147 | `as usize`: negatives to 0, in-range values kept, large values to usize::MAX |
| Grid.CellIndex | src/shapes/pointmap.rs:141-148 | get_index is row·res + column − 1, saturated into usize |
| Grid.CellIndexFixtures | src/shapes/pointmap.rs:182-196 | (9,0)→0, (11,0)→0, (20,0)→1, (34,0)→2, (99.999,0)→8 |
| Grid.InsertIndexFixtures | src/shapes/pointmap.rs:198-231 | (11,11) goes to cell 10; (1000,100) goes to cell 199, past the 100 cells |
| Grid.CellIndexInRange | src/shapes/pointmap.rs:141-148 | for a box at the origin, a contained point has column and row in [0,res) and a cell index below res² |
| Grid.ColumnInRange | src/shapes/pointmap.rs:144 | a contained point's column is in [0,res) |
| Grid.RowInRange | src/shapes/pointmap.rs:145 | a contained point's row is in [0,res) |
| Grid.FloorSqrt | src/shapes/pointmap.rs:156 | the step is the integer square root r of the cell count n: r² ≤ n < (r+1)² |
| Grid.FloorSqrtUnique | src/shapes/pointmap.rs:156 | that root is the only such r |
| Grid.FloorSqrtOfSquare | src/shapes/pointmap.rs:156 | the step for res² cells is res |
| Grid.WrapI32 | src/shapes/pointmap.rs:155 | `as i32` wrap-around: the result is an i32, equal to the value when the value fits |
| Grid.SaturatingI32 | src/shapes/pointmap.rs:156 | the float-to-i32 cast of the step saturates at i32::MAX and keeps values that fit |
| Grid.Block | src/shapes/pointmap.rs:155-170 | nine candidate cells in wrapping i32 arithmetic, the middle one the cell itself; without overflow, the exact 3×3 block |
| Grid.PlainBlock | src/shapes/pointmap.rs:160-170 | the exact block has nine cells, the middle one the cell itself |
| Grid.NeighboringCells | src/shapes/pointmap.rs:154-175 | at most nine neighbouring cells |
| Grid.KeepCells | src/shapes/pointmap.rs:171-174 | the filter keeps at most the candidates |
| Grid.NonNegatives | src/shapes/pointmap.rs:171-174 | the non-negative candidates, exactly |
| Grid.KeepCellsDropsOnlyNegatives | src/shapes/pointmap.rs:171-174 | the `> 0 or < len` filter with the wrapping cast keeps exactly the non-negative cells |
| Grid.NeighboringCellsDropsOnlyNegatives | src/shapes/pointmap.rs:154-175 | get_neighboring_cells is the 3×3 block minus its negative ids |
| Grid.KeepCellsKeeps | src/shapes/pointmap.rs:171-174 | a candidate passing the filter is kept |
| Grid.OwnCellIsNeighbor | src/shapes/pointmap.rs:154-175 | an existing cell is among its own neighbouring cells |
| Grid.NeighboringCellsFixture | src/shapes/pointmap.rs:292-307 | cell 25 of 100 has neighbours [14,15,16,24,25,26,34,35,36] |
| Grid.KeepPositive | src/shapes/pointmap.rs:171-174 | a block without negative ids passes unchanged |
| Grid.NeighboringCellsDoNotWrap | src/shapes/pointmap.rs:154-175 | the last cell of a row lists the first cell of the next row |
| Grid.NeighborIdsOfTen | src/shapes/pointmap.rs:233-251 | cell 10 of 100 has neighbours [0,1,9,10,11,19,20,21] (−1 dropped) |
| Grid.NeighborIdsOfEighteen | src/shapes/pointmap.rs:254-273 | cell 18 of 100 has neighbours [7,8,9,17,18,19,27,28,29] |
| Grid.NeighborFixtureCells | src/shapes/pointmap.rs:233-251 | the test circles fall into cells 10 and 52 |
| Grid.NeighborEdgeFixtureCells | src/shapes/pointmap.rs:254-273 | the edge-case circles fall into cells 18 and 59 |
| Grid.Filter | src/shapes/pointmap.rs:125-130 | the filter keeps exactly the elements passing the test |
| Grid.Gather | src/shapes/pointmap.rs:118-135 | the fold collects exactly the kept items of the existing listed cells |
| Grid.Neighbors | src/shapes/pointmap.rs:112-137 | Err iff the centre is outside the half-open bounds; otherwise exactly the items of existing neighbouring cells within the distance |
| Grid.GetNeighborsFixture | src/shapes/pointmap.rs:233-251 | with the two test circles inserted, the query for the first gives [circle] |
| Grid.GetNeighborsEdgeFixture | src/shapes/pointmap.rs:254-273 | the edge-case query also gives [circle] |
| Grid.TwoShapeQuery | src/shapes/pointmap.rs:233-273 | two shapes in separate cells where the second's cell is not a neighbour: the query for the first gives just the first |
| Grid.InsertedIsNeighbor | src/shapes/pointmap.rs:44-55 | after inserting an in-bounds shape into an existing cell, the unlimited query for it contains it |
| Grid.EmptyCells | src/shapes/pointmap.rs:35-41 | n cells, all empty |
| Grid.FlattenEmpty | src/shapes/pointmap.rs:72-74 | a grid of empty cells has no items |
| Grid.FlattenSingle | src/shapes/pointmap.rs:72-74 | with only one non-empty cell, the items are that cell |
| Grid.FlattenMembership | src/shapes/pointmap.rs:72-74 | an item is listed iff some cell holds it |
| Grid.FlattenContents | src/shapes/pointmap.rs:72-74 | the same, for every item |
| Grid.GatherSingle | src/shapes/pointmap.rs:118-135 | a fold over ids where only one cell is non-empty gives that cell's kept items |
| Grid.GatherEmpty | src/shapes/pointmap.rs:118-135 | a fold over empty cells gives nothing |
| Grid.GatherInIdOrder | src/shapes/pointmap.rs:118-135 | the fold keeps id order: gathering over a + b is gathering over a followed by b, and one id gives its cell's kept items (nothing for a missing cell) |
| Grid.FilterInOrder | src/shapes/pointmap.rs:125-130 | the filter keeps input order: filtering s + t is filtering s followed by t, and a sequence whose every element passes is kept whole |
| Grid.GetItemsFixture | src/shapes/pointmap.rs:275-290 | one point inserted, get_items lists exactly that point |
| Grid.FirstMatch | src/shapes/pointmap.rs:63 | the first index whose element is eq to the shape, or the length |
| Grid.RemoveFirst | src/shapes/pointmap.rs:65-67 | no match: the cell is unchanged; a match: one element fewer, exactly the first match gone |
| Grid.RemoveOne | src/shapes/pointmap.rs:58-69 | remove keeps the number of cells |
| Grid.InsertAll | src/shapes/pointmap.rs:44-55 | inserting a sequence keeps the number of cells |
| Grid.InsertAllAppend | src/shapes/pointmap.rs:44-55 | inserting one more shape appends it to its cell if the cell exists and changes nothing otherwise |
| Grid.RemoveAllAppend | src/shapes/pointmap.rs:58-69 | removing one more shape is one more remove |
| Grid.RemoveAll | src/shapes/pointmap.rs:58-69 | removing a sequence keeps the number of cells |
| Grid.FlattenReplace | src/shapes/pointmap.rs:72-74 | replacing one cell swaps its items in the multiset of all items |
| Grid.InsertAddsItem | src/shapes/pointmap.rs:44-55 | appending to a cell adds exactly that item to the multiset of items |
| Grid.RemoveDropsItem | src/shapes/pointmap.rs:58-69 | removing the first match drops exactly that element from the multiset of items |
| Grid.PointMap.constructor | src/shapes/pointmap.rs:35-41 | the new map has res² empty cells |
| Grid.PointMap.Insert | src/shapes/pointmap.rs:44-55 | Ok(i) and the shape appended to cell i (and to the items) when cell i exists; otherwise Err(shape) and no change |
| Grid.PointMap.InsertNext | src/shapes/pointmap.rs:44-55 | inserting the next shape of a sequence extends the cells to the sequence's InsertAll |
| Grid.PointMap.Remove | src/shapes/pointmap.rs:58-69 | only the first eq element of the shape's cell is removed; no-op when absent or out of range |
| Grid.PointMap.GetItems | src/shapes/pointmap.rs:72-74 | the items are those of every cell |
| Grid.PointMap.GetNeighbors | src/shapes/pointmap.rs:81-138 | Err iff outside the bounds; every item within the given distance_to; exactly the items of the neighbouring cells that pass |
| LibsGrid.Distance | libs/shapes/src/point.rs:12-17 | the libs query uses the Euclidean distance: non-negative, squared it is dx² + dy² |
| LibsGrid.DistanceSymmetric | libs/shapes/src/point.rs:12-17 | that distance is symmetric |
| LibsGrid.DistanceFixture | libs/shapes/src/point.rs:80-84 | between (−10,0) and (10,10) it rounds to 22 |
| LibsGrid.WithinIffSquaredDistance | libs/shapes/src/pointmap.rs:99-103 | the distance filter holds iff the limit is positive and the squared distance is below limit² |
| LibsGrid.PointMap.constructor | libs/shapes/src/pointmap.rs:12-20 | res² empty cells |
| LibsGrid.PointMap.Insert | libs/shapes/src/pointmap.rs:22-32 | Ok(i) plus an append when cell i exists; else Err(shape) and no change |
| LibsGrid.PointMap.Remove | libs/shapes/src/pointmap.rs:34-45 | only the first eq element of the computed cell is removed |
| LibsGrid.PushEach | libs/shapes/src/pointmap.rs:47-54 | the inner loop appends the cell's items, in order |
| LibsGrid.PointMap.GetItems | libs/shapes/src/pointmap.rs:47-54 | the fold's loops collect every cell's items in cell order |
| LibsGrid.PointMap.GetNeighbors | libs/shapes/src/pointmap.rs:85-112 | Err iff outside the bounds; exactly the neighbouring cells' items strictly within the Euclidean distance |
| LibsGrid.PointMap.NeighborsInsideRadius | libs/shapes/src/pointmap.rs:85-112 | every item returned for a limit is inside the circle of that radius |
| LegacyGrid.Coord | src/pointmap.rs:92-98 | get_x/get_y: floor(coord / extent · res), saturated into usize |
| LegacyGrid.ValidIndexIffInside | src/pointmap.rs:100-102 | index_is_valid (0 < index < res) holds for a coordinate exactly when it lies between one cell width and the far edge, so get_neighbors answers None in the first row and column and past the edge |
| LegacyGrid.CoordFixtures | src/pointmap.rs:113-130 | 9→0, 11→1, 20→2, 34→3, 99.999→9 and the get_y values |
| LegacyGrid.EmptyGrid | src/pointmap.rs:17-33 | res rows of res empty cells |
| LegacyGrid.Repeat | src/pointmap.rs:79-88 | n copies of a cell have n times its length |
| LegacyGrid.PairCount | src/pointmap.rs:79-88 | for a valid index v, {v−1, v} holds two valid indices from 2 on and one at 1 |
| LegacyGrid.CopiesOfOwnCell | src/pointmap.rs:79-88 | the block holds (y ≥ 2 ? 2 : 1)·(x ≥ 2 ? 2 : 1) valid pairs |
| LegacyGrid.PointMap.constructor | src/pointmap.rs:17-33 | the nested loops build res × res empty cells |
| LegacyGrid.PointMap.Insert | src/pointmap.rs:35-54 | with both coordinates below res the circle is pushed to points[y][x] only; otherwise an OutOfBounds error and no change |
| LegacyGrid.PointMap.GetNeighbors | src/pointmap.rs:71-90 | None unless both coordinates are valid (not 0); otherwise the own cell repeated once per valid pair |
| LegacyGrid.InsertFixture | src/pointmap.rs:132-151 | inserting (11,11) succeeds into a cell then holding one circle; (1000,100) fails out of bounds |
| LegacyGrid.GetNeighborsFixture | src/pointmap.rs:153-165 | the query at (11,11) gives the one circle |
| LegacyGrid.GetNeighborsEdgeFixture | src/pointmap.rs:167-179 | the query at (99,11) gives two copies of the circle |
| Forces.FirstLineTakesLongSteps | src/paintings/forces/algo.rs:65-75 | the first line has radius 350, step 180 and the base smoothness |
| Forces.WeightedRadiiTakeShortSteps | src/paintings/forces/algo.rs:61-90 | every weighted radius (40, 100, 150) steps 20 with the base smoothness |
| Forces.Radius | src/paintings/forces/algo.rs:65-69 | the first line has radius 350; every other line its drawn radius |
| Forces.StepSize | src/paintings/forces/algo.rs:71-75 | the step is 20 exactly for radii in [0,150], otherwise 180 |
| Forces.Smoothness | src/paintings/forces/algo.rs:86-90 | the base smoothness or three times it, non-zero when the base is |
| Forces.NextPoint | src/paintings/forces/algo.rs:92-94 | when cos² + sin² = 1, the step moves the point exactly `step_size` |
| Forces.LineFlow | src/paintings/forces/algo.rs:71-94 | a line's field has non-zero smoothness when the configured one is non-zero |
| Forces.AcceptedIsInBounds | src/paintings/forces/algo.rs:97 | a query that answered Ok was for a point inside the bounds |
| Forces.TryStep | src/paintings/forces/algo.rs:92-106 | the noise step, and acceptance exactly when the query is Ok and no neighbour is closer than r/2; an accepted point is in bounds |
| Forces.WalkedExtend | src/paintings/forces/algo.rs:85-108 | a step taken extends a walked line by that point |
| Forces.GrowLine | src/paintings/forces/algo.rs:85-109 | the line is `Grown`, the recursive reading of the loop; every point is in bounds and came from a taken step; unless fuel ran out, the loop left the inner box, reached the length, or the next point was rejected |
| Forces.CirclesAlong | src/paintings/forces/algo.rs:112-113 | one circle of radius r per point, in order |
| Forces.CommitLine | src/paintings/forces/algo.rs:111-115 | committed iff the length exceeds the minimum strictly; then every point goes in as a circle, else the map is unchanged |
| Forces.PositiveLengthNeedsTwoPoints | src/paintings/forces/algo.rs:111 | a committed line of positive length has at least two points |
| Forces.LastSplit | src/paintings/forces/algo.rs:148-157 | the last split index stays within the line or is the start |
| Forces.PiecesCount | src/paintings/forces/algo.rs:149-157 | one piece per split coin that came up |
| Forces.PiecesAreSlices | src/paintings/forces/algo.rs:151-155 | every piece is a slice of the line |
| Forces.GapPiecesTile | src/paintings/forces/algo.rs:151-156 | with a gap the pieces tile line[1..last split] |
| Forces.SplitLine | src/paintings/forces/algo.rs:145-161 | the loop emits line[last..i] or line[last−1..i+1] at each split and sets last = i |
| Forces.LineStyle | src/paintings/forces/algo.rs:121-127 | the stroke has weight r and no fill |
| Forces.Strokes | src/paintings/forces/algo.rs:117-138 | split: one stroke per piece, with its own colour; otherwise the whole line in the line colour |
| Forces.StrokesInside | src/paintings/forces/algo.rs:117-138 | every stroked point is in the bounds when the line's points are |
| Forces.SliceMembers | src/paintings/forces/algo.rs:151-155 | a point of a slice is a point of the line |
| Forces.LineStrokes | src/paintings/forces/algo.rs:117-138 | unsplit: one stroke of the whole line in its colour; split: one stroke per split coin that came up |
| Forces.StrokeLine | src/paintings/forces/algo.rs:117-138 | the strokes are the line's `LineStrokes`, all of weight r and inside the bounds |
| Forces.DrawLine | src/paintings/forces/algo.rs:77-139 | the line is the one grown on the old grid; when its length exceeds the minimum its circles are inserted and its `LineStrokes` drawn, otherwise the grid is unchanged and nothing is drawn; every stroke has weight r and lies in the bounds |
| Forces.Canvas | src/paintings/forces/algo.rs:23 | a canvas of positive size sits at the origin and can be indexed |
| Forces.PaintLine | src/paintings/forces/algo.rs:50-139 | line i changes the grid and draws exactly as `LineEffect` says, on the canvas |
| Forces.PaintLines | src/paintings/forces/algo.rs:49-140 | the loop over the lines draws `ForcesStrokes`: each line's strokes, grown on the grid the earlier lines left |
| Forces.GenerateForces | src/paintings/forces/algo.rs:22-143 | the strokes are `ForcesStrokes` from an empty 20 × 20 grid; every drawn point lies on the canvas and every stroke has a weight |
| Wildlands.Field | src/paintings/wildlands/algo.rs:63-65 | the wildlands field's smoothness is non-zero |
| Wildlands.OrdinaryTrailsAreCapped | src/paintings/wildlands/algo.rs:60-62 | an ordinary trail stops at 150 blobs |
| Wildlands.LongTrailsAreNotCapped | src/paintings/wildlands/algo.rs:60-62 | a long trail inside the long box keeps going whatever its length |
| Wildlands.KeepGrowing | src/paintings/wildlands/algo.rs:60-62 | an ordinary trail goes on iff it is in the inner box and shorter than 150; a long trail inside the long box always goes on |
| Wildlands.Crowded | src/paintings/wildlands/algo.rs:68-72 | a blob is crowded iff some neighbour's centre distance_to is below that neighbour's radius plus twice the blob's |
| Wildlands.FitsIsInBounds | src/paintings/wildlands/algo.rs:68 | a query that answered Ok was for a centre in the bounds |
| Wildlands.TryBlob | src/paintings/wildlands/algo.rs:63-77 | the next blob of radius 3.5, and fits exactly when the query is Ok and no neighbour is closer than its radius |
| Wildlands.TrailExtend | src/paintings/wildlands/algo.rs:60-80 | a fitting blob extends a trail |
| Wildlands.GrowTrail | src/paintings/wildlands/algo.rs:60-80 | the trail is `GrownTrail`, the recursive reading of the loop; every blob is in bounds with radius 3.5 and the trail's colour; ordinary trails have at most 150; unless fuel ran out the loop stopped on the condition or a rejection |
| Wildlands.CommitTrail | src/paintings/wildlands/algo.rs:82-88 | more than three blobs: all inserted and one shape drawn per blob; otherwise nothing |
| Wildlands.PaintTrail | src/paintings/wildlands/algo.rs:47-88 | one trail changes the grid and draws exactly as `TrailEffect` says, on the canvas |
| Wildlands.PaintTrails | src/paintings/wildlands/algo.rs:46-89 | the loop over the trails draws `WildlandsBlobs`: each trail's blobs, grown on the grid the earlier trails left |
| Wildlands.GenerateWildlands | src/paintings/wildlands/algo.rs:11-92 | the blobs are `WildlandsBlobs` from an empty 20 × 20 grid; every drawn blob lies on the canvas and has radius 3.5 |
| Nightfall.TruncateToUsize | src/paintings/nightfall/algo.rs:92-96 | `as usize`: below 1 gives 0, otherwise the saturated floor |
| Nightfall.MaxCount | src/paintings/nightfall/algo.rs:92-96 | max_count is 70 at the top of the band and 5 at its bottom |
| Nightfall.MaxCountWithinBand | src/paintings/nightfall/algo.rs:92-96 | inside the band max_count is between 5 and 70 |
| Nightfall.Links | src/paintings/nightfall/algo.rs:98-113 | min(max_count, far neighbours) paths, each [point, n] for a neighbour farther than 10, in the link style |
| Nightfall.LinksAreLinks | src/paintings/nightfall/algo.rs:98-111 | with neighbours within 50, every path is a two-point link within 50 and farther than 10 |
| Nightfall.PointLinks | src/paintings/nightfall/algo.rs:92-114 | at most max_count links, all links from the point; none for a point outside the bounds |
| Nightfall.PointLinksCount | src/paintings/nightfall/algo.rs:98-103 | an in-bounds point's query is answered and it gets min(max_count, far neighbours) links |
| Nightfall.LinkPoint | src/paintings/nightfall/algo.rs:92-114 | the links are the point's `PointLinks` on the current grid |
| Nightfall.VisitPoint | src/paintings/nightfall/algo.rs:91-117 | the point's `PointLinks` on the old grid, then one equal occurrence removed from the map |
| Nightfall.LinkEach | src/paintings/nightfall/algo.rs:91-117 | over a list of points: the paths are `PassLinks`, each point's links on the grid the earlier removals left; the map loses one occurrence of each |
| Nightfall.PassLinksAreLinks | src/paintings/nightfall/algo.rs:91-117 | every path of a pass is a link from one of its points |
| Nightfall.LinkPass | src/paintings/nightfall/algo.rs:88-117 | over the items the map held at the start: the paths are their `PassLinks`, every path a link from one of them, and each removed once |
| Subdivision.Paint | src/paintings/piet/algo.rs:47-53 | set_color when the palette gave a colour: the colour changes, the geometry does not |
| Subdivision.Children | src/paintings/piet/algo.rs:43-56 | a split yields two rects |
| Subdivision.KeptAndBornSize | src/paintings/piet/algo.rs:43-56 | each split removes one rect and adds two |
| Subdivision.RoundSize | src/paintings/piet/algo.rs:27-59 | a round grows the list by its number of splits, at most once per original rect |
| Subdivision.SplitCountBound | src/paintings/piet/algo.rs:27 | a round visits each original index once |
| Subdivision.RoundsSize | src/paintings/piet/algo.rs:26-60 | after all rounds the list has grown by exactly the number of splits |
| Subdivision.PartialStep | src/paintings/piet/algo.rs:27-57 | visiting index j finds the original rect there; a split removes it and appends its halves behind the rest |
| Subdivision.PartialStart | src/paintings/piet/algo.rs:27 | the reverse walk starts at the list and ends at the round's result |
| Subdivision.SplitRound | src/paintings/piet/algo.rs:27-59 | the reverse-index loop gives the kept rects then the halves, never revisiting a half |
| Subdivision.SplitRounds | src/paintings/piet/algo.rs:26-60 | `rounds` rounds of that loop |
| Subdivision.AlwaysKeepsNothing | src/palette/regional_palette.rs:34-57 | when every rect splits, none stays and every index splits |
| Subdivision.BornArePainted | src/palette/regional_palette.rs:50-51 | halves painted with colours have colours |
| Subdivision.AlwaysDoubles | src/palette/regional_palette.rs:34-57 | when every rect splits, n rounds multiply the count by 2ⁿ |
| Piet.OnlyLargeRectsSplit | src/paintings/piet/algo.rs:29 | a rect of at most 1% of the canvas area never splits |
| Piet.PietRuleSplitsIff | src/paintings/piet/algo.rs:29 | under the piet rule a rect splits iff its coin comes up and its area exceeds 1% of the canvas |
| Piet.RectPath | src/paintings/piet/algo.rs:65-73 | a final rect is drawn as its outline filled with its colour |
| Piet.GeneratePiet | src/paintings/piet/algo.rs:16-81 | the rects after the rounds, one more than the start per split, and one path per final rect in order |
| RegionalPalettes.AlwaysRoundIsColored | src/palette/regional_palette.rs:34-57 | after a round where every rect splits with colours drawn, every rect has a colour |
| RegionalPalettes.FromRegion | src/palette/regional_palette.rs:29-60 | seven rounds give 2⁷ = 128 rects, each coloured |
| RegionalPalettes.FirstContaining | src/palette/regional_palette.rs:63 | the first index whose rect contains the point, or the length |
| RegionalPalettes.GetColor | src/palette/regional_palette.rs:62-67 | the colour of the first rect containing the point; None when no rect contains it |
| RegionalPalettes.CoveredPointsGetAColor | src/palette/regional_palette.rs:62-67 | in a palette of coloured rects, a covered point gets a colour |

## Left out

- Growth loops: `Forces.GrowLine`, `Wildlands.GrowTrail`, `Forces.GenerateForces` and `Wildlands.GenerateWildlands` take a `fuel` bound. The source loops have no termination measure: a step along x adds no length, and long trails are uncapped. So the model says nothing about a run that uses up the fuel, beyond its points so far.
- f64 rounding, NaN and infinity are not modelled. Arithmetic is exact over the reals, and the fixtures that depend on rounding (99.999 → cell 8) hold with exact arithmetic.
- `sqrt`, `cos`, `sin` and the SuperSimplex noise are abstract parameters. The random number generators become draws passed in as functions.
- RangeMap.Map: requires from.end ≠ from.start, because the source then divides by zero and returns NaN or an infinity.
- Grid.CellIndex: requires the bounds' position + extent to be non-zero on both axes (`Divisible`), because the source then divides by zero.
- LegacyGrid.Coord: requires a non-zero extent. With zero-width or zero-height bounds the source's quotient is infinite or NaN, and `as usize` saturates it without a panic. The model does not capture that case.
- Nightfall.LinkPoint: requires the max_count band to be proper (`BandIsProper`), for the same reason.
- Forces.NextPoint: requires a non-zero smoothness, because the noise coordinates divide by it.
- Forces.SplitLine: requires a non-empty line, because the source computes `len() - 1` on a usize and underflows. A committed line always has two points (`Forces.PositiveLengthNeedsTwoPoints`).
- Forces.GenerateForces: requires min_line_length ≥ 0, so that a committed line has positive length.
- Forces.GenerateForces: requires a positive size. For size ≤ 0 the source's `gen_range(inner_bounds.x_range())` (src/paintings/forces/algo.rs:50-51) draws from an empty range and panics, and the model does not capture that panic.
- Forces.GenerateForces: the split coin is a draw for any chance. The source's `gen_bool(split_line_chance)` (src/paintings/forces/algo.rs:117) panics for a chance above 1, which src/paintings/forces/config.rs:56 accepts unchecked. The model draws the pieces instead of capturing that panic.
- The piet painting and the regional palette call `subdivide` with a third padding argument. The `subdivide` in `src/shapes/rectangle.rs` takes none and always pads by 16, and the model follows `rectangle.rs`.
- Forces.GenerateForces: does not model the 20 colour-region blobs. A line's colour is a draw, as is each piece's colour.
- Palettes, weighted choice (the radii 40/100/150 are draws) and `gen_weighted` are left out. They are random choices.
- `Blob::new` outline generation is left out (random). A blob is its centre, radius and colour.
- Nightfall's point-filling phase is left out: the random points and the three spheres that push points around (algo.rs:37-86). The linking pass starts from a given map.
- `Path::wobble` is left out (random).
- SVG output, documents and groups are left out. A drawn shape is a `Drawn` value of points and style.
- Paths.Path.Length and Paths.Path.Contains loop over the `points` sequence. The growth loops keep their line as a sequence of points rather than a `Path` object.
- Points.OffsetInPlace: returns the moved point as a value. The model does not capture the update in place of a `Copy` struct.
- The libs PointMap's `get_index` reads `bounds.x` and `bounds.y`, but the libs Rectangle has no such fields: it holds only a position, a width, a height and a colour. The model reads `position.x` and `position.y` in their place.
- The legacy `Circle` of `src/pointmap.rs` is its own datatype (x, y, r). It is only stored, never measured.
- `Point::angle_to` and `atan2` are left out. Only nightfall's point-filling phase and `Path::wobble` call them, and both are left out.
- Grid.NeighboringCells: the i32 sums wrap as in a release build. A debug build panics on that overflow instead, and the model does not capture the panic.
- RegionalPalettes.FromRegion: the split point is any drawn point. The source draws it with `gen_range(rect.x_range())` and `gen_range(rect.y_range())`, which panic on an empty range. Each child is 16 narrower than its parent's part on its side of the split, so its range is empty (gen_range panics) once a split falls within 16 of an edge. The model does not capture that panic, and its 128-rect result also covers runs that the source aborts.
- RegionalPalettes.FromRegion: `get_random_color().unwrap()` panics when the palette gives no colour. The model requires the colour draws to give colours (`Colored`) instead of modelling the panic.
- Piet.GeneratePiet: the split coin is a draw for any chance. The source's `gen_bool(split_chance)` (src/paintings/piet/algo.rs:29) panics for a chance outside [0, 1], which src/piet_config.rs:13 accepts unchecked. The model does not capture that panic.
- Piet.GeneratePiet: the split point is any drawn point. The source draws it with `gen_range` over the 0.9-scaled rect's ranges, which panics when a range is empty. The model does not capture that panic.
- Grid.Flatten has no contract of its own. `Grid.FlattenMembership` and `Grid.FlattenContents` state what it lists.
- Forces.Grown, Forces.LineEffect, Forces.ForcesStrokes, Wildlands.GrownTrail, Wildlands.TrailEffect, Wildlands.WildlandsBlobs and Nightfall.PassLinks are specification functions without contracts of their own. The methods that run the loops are proved equal to them.
