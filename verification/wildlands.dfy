/**
  The wildlands painting (src/paintings/wildlands/algo.rs): short trails of
  blobs grow through a noise field over a 1400 x 1960 canvas, each step
  checked against a grid of the blobs already laid down; a trail of more than
  three blobs is committed to the grid and drawn. The noise field and the
  random draws arrive as parameters.
*/
module Wildlands {
  import opened Wrappers
  import opened Math
  import opened Colors
  import opened Points
  import opened Rectangles
  import opened Blobs
  import opened Grid
  import Forces

  /** The canvas. Its background colour only matters to the drawing. */
  const Canvas: Rectangle := Rectangles.New(Point(0.0, 0.0), 1400.0, 1400.0 * 1.4)
  /** Blob radius and step length. */
  const BlobRadius: real := 3.5
  const StepLength: real := BlobRadius * 2.5
  /** Ordinary trails stop after this many blobs. */
  const MaxBlobs: nat := 150
  /** How many trails are attempted. */
  const TrailCount: nat := 15000

  /** The field: noise at p / 500, angle 4 * noise, step 8.75. */
  function Field(noise: (real, real) -> real): (f: Forces.Flow)
    ensures f.smoothness != 0.0
  {
    Forces.Flow(noise, 4.0, 500.0, StepLength)
  }

  /** The random draws of one trail: is it long, where it starts, its colour. */
  datatype TrailDraws = TrailDraws(isLong: bool, start: Point, color: Option<Color>)

  /** The grid sees a blob at its centre; blobs are equal by centre and radius. */
  const BlobOps: ShapeOps<Blob> := ShapeOps(Blobs.CenterOf, Blobs.Eq)

  /**
    The loop condition as written: `&&` binds tighter than `||`, so a long
    trail keeps going anywhere inside `long` without the 150 cap.
  */
  predicate KeepGrowing(isLong: bool, long: Rectangle, inner: Rectangle, p: Point, count: nat)
    ensures !isLong ==> (KeepGrowing(isLong, long, inner, p, count) <==> Rectangles.Contains(inner, p) && count < MaxBlobs)
    ensures isLong && Rectangles.Contains(long, p) ==> KeepGrowing(isLong, long, inner, p, count)
  {
    (isLong && Rectangles.Contains(long, p)) || (Rectangles.Contains(inner, p) && count < MaxBlobs)
  }

  /** An ordinary trail stops at 150 blobs. */
  lemma OrdinaryTrailsAreCapped(long: Rectangle, inner: Rectangle, p: Point, count: nat)
    requires MaxBlobs <= count
    ensures !KeepGrowing(false, long, inner, p, count)
  {
  }

  /** A long trail inside `long` keeps growing whatever its length, even outside `inner`. */
  lemma LongTrailsAreNotCapped(long: Rectangle, inner: Rectangle, p: Point, count: nat)
    requires Rectangles.Contains(long, p)
    ensures KeepGrowing(true, long, inner, p, count)
  {
  }

  /**
    Some neighbour's blob distance to `b` is below b's radius: its centre is
    closer than its own radius plus twice b's radius.
  */
  predicate Crowded(m: Libm, neighbors: seq<Blob>, b: Blob)
    ensures Crowded(m, neighbors, b) <==>
      (exists k :: 0 <= k < |neighbors| &&
         DistanceTo(m, Blobs.CenterOf(neighbors[k]), Blobs.CenterOf(b)) < neighbors[k].radius + 2.0 * b.radius)
  {
    exists k :: 0 <= k < |neighbors| && Blobs.Distance(m, neighbors[k], b) < b.radius
  }

  /** A candidate blob is kept by the grid `cells`: the query is answered and no neighbour is too close. */
  predicate FitsIn(m: Libm, cells: seq<seq<Blob>>, bounds: Rectangle, resolution: nat, b: Blob)
    requires Divisible(bounds)
  {
    var q := Neighbors(cells, bounds, resolution, BlobOps, PointDistance(m), b, None);
    q.Ok? && !Crowded(m, q.value, b)
  }

  /** The same test asked of a grid object holding blobs. */
  predicate Fits(m: Libm, pm: PointMap<Blob>, b: Blob)
    reads pm
    requires pm.Valid()
  {
    FitsIn(m, pm.cells, pm.bounds, pm.resolution, b)
  }

  /** The grid only answers for centres inside its bounds. */
  lemma FitsIsInBounds(m: Libm, pm: PointMap<Blob>, b: Blob)
    requires pm.Valid() && pm.ops == BlobOps
    requires pm.GetNeighbors(m, b, None).Ok?
    ensures Rectangles.Contains(pm.bounds, b.position)
  {
    assert Blobs.CenterOf(b) == b.position;
  }

  /** Where the trail stands: its last blob's centre, or the start. */
  function Position(start: Point, line: seq<Blob>): Point {
    if line == [] then start else line[|line| - 1].position
  }

  /** The k-th blob of a trail came from one loop iteration. */
  predicate BlobTaken(m: Libm, pm: PointMap<Blob>, d: TrailDraws, long: Rectangle, inner: Rectangle,
                      noise: (real, real) -> real, prefix: seq<Blob>, b: Blob)
    reads pm
    requires pm.Valid()
  {
    && KeepGrowing(d.isLong, long, inner, Position(d.start, prefix), |prefix|)
    && b == Blob(Forces.NextPoint(m, Field(noise), Position(d.start, prefix)), BlobRadius, d.color)
    && Fits(m, pm, b)
  }

  predicate Trail(m: Libm, pm: PointMap<Blob>, d: TrailDraws, long: Rectangle, inner: Rectangle,
                  noise: (real, real) -> real, line: seq<Blob>)
    reads pm
    requires pm.Valid()
  {
    forall k :: 0 <= k < |line| ==> BlobTaken(m, pm, d, long, inner, noise, line[..k], line[k])
  }

  lemma TrailExtend(m: Libm, pm: PointMap<Blob>, d: TrailDraws, long: Rectangle, inner: Rectangle,
                    noise: (real, real) -> real, line: seq<Blob>, b: Blob)
    requires pm.Valid()
    requires Trail(m, pm, d, long, inner, noise, line)
    requires BlobTaken(m, pm, d, long, inner, noise, line, b)
    ensures Trail(m, pm, d, long, inner, noise, line + [b])
  {
    var l := line + [b];
    forall k | 0 <= k < |l|
      ensures BlobTaken(m, pm, d, long, inner, noise, l[..k], l[k])
    {
      Forces.AppendPrefix(line, b, k);
    }
  }

  /** One step of the loop body: the candidate blob and whether it fits. */
  method TryBlob(m: Libm, pm: PointMap<Blob>, p: Point, color: Option<Color>, noise: (real, real) -> real)
    returns (b: Blob, fits: bool)
    requires pm.Valid() && pm.ops == BlobOps
    ensures b == Blob(Forces.NextPoint(m, Field(noise), p), BlobRadius, color)
    ensures fits == Fits(m, pm, b)
    ensures fits ==> Rectangles.Contains(pm.bounds, b.position)
  {
    b := Blob(Forces.NextPoint(m, Field(noise), p), BlobRadius, color);
    var neighbors := pm.GetNeighbors(m, b, None);
    if neighbors.Err? {
      return b, false;
    }
    FitsIsInBounds(m, pm, b);
    fits := !Crowded(m, neighbors.value, b);
  }

  /**
    The trail the growth loop grows from `line` on against the grid `cells`: it
    ends when `fuel` blobs are taken, when the loop condition fails, or at the
    first candidate that does not fit.
  */
  function GrownTrail(m: Libm, cells: seq<seq<Blob>>, bounds: Rectangle, resolution: nat, d: TrailDraws,
                      long: Rectangle, inner: Rectangle, noise: (real, real) -> real, fuel: nat, line: seq<Blob>): seq<Blob>
    requires Divisible(bounds)
    decreases fuel - |line|
  {
    var cur := Position(d.start, line);
    if |line| >= fuel || !KeepGrowing(d.isLong, long, inner, cur, |line|) then line
    else
      var b := Blob(Forces.NextPoint(m, Field(noise), cur), BlobRadius, d.color);
      if FitsIn(m, cells, bounds, resolution, b)
      then GrownTrail(m, cells, bounds, resolution, d, long, inner, noise, fuel, line + [b])
      else line
  }

  /**
    The growth loop of one trail. Every blob is inside the grid's bounds, has
    radius 3.5 and the trail's colour; an ordinary trail has at most 150
    blobs; unless the fuel ran out, the loop stopped because the condition
    failed or the next blob did not fit.
  */
  method GrowTrail(m: Libm, pm: PointMap<Blob>, d: TrailDraws, long: Rectangle, inner: Rectangle,
                   noise: (real, real) -> real, fuel: nat) returns (line: seq<Blob>)
    requires pm.Valid() && pm.ops == BlobOps
    ensures |line| <= fuel
    ensures !d.isLong ==> |line| <= MaxBlobs
    ensures forall b :: b in line ==> Rectangles.Contains(pm.bounds, b.position) && b.radius == BlobRadius && b.color == d.color
    ensures Trail(m, pm, d, long, inner, noise, line)
    ensures |line| < fuel ==>
      var cur := Position(d.start, line);
      !KeepGrowing(d.isLong, long, inner, cur, |line|) ||
      !Fits(m, pm, Blob(Forces.NextPoint(m, Field(noise), cur), BlobRadius, d.color))
    ensures line == GrownTrail(m, pm.cells, pm.bounds, pm.resolution, d, long, inner, noise, fuel, [])
  {
    line := [];
    var point := d.start;
    while |line| < fuel && KeepGrowing(d.isLong, long, inner, point, |line|)
      invariant |line| <= fuel
      invariant point == Position(d.start, line)
      invariant !d.isLong ==> |line| <= MaxBlobs
      invariant forall b :: b in line ==> Rectangles.Contains(pm.bounds, b.position) && b.radius == BlobRadius && b.color == d.color
      invariant Trail(m, pm, d, long, inner, noise, line)
      invariant GrownTrail(m, pm.cells, pm.bounds, pm.resolution, d, long, inner, noise, fuel, line)
                == GrownTrail(m, pm.cells, pm.bounds, pm.resolution, d, long, inner, noise, fuel, [])
      decreases fuel - |line|
    {
      var blob, fits := TryBlob(m, pm, point, d.color, noise);
      if !fits {
        break;
      }
      TrailExtend(m, pm, d, long, inner, noise, line, blob);
      line := line + [blob];
      point := blob.position;
    }
  }

  /** The commit rule: a trail of more than three blobs goes into the grid and is drawn. */
  method CommitTrail(pm: PointMap<Blob>, line: seq<Blob>) returns (drawn: seq<Blob>)
    requires pm.Valid()
    modifies pm
    ensures pm.Valid()
    ensures drawn == if |line| > 3 then line else []
    ensures pm.cells == if |line| > 3 then InsertAll(old(pm.cells), pm.bounds, pm.resolution, pm.ops, line) else old(pm.cells)
  {
    drawn := [];
    if |line| > 3 {
      var k := 0;
      while k < |line|
        invariant 0 <= k <= |line|
        invariant pm.Valid()
        invariant pm.cells == InsertAll(old(pm.cells), pm.bounds, pm.resolution, pm.ops, line[..k])
        invariant drawn == line[..k]
      {
        pm.InsertNext(old(pm.cells), line[..k], line[k]);
        assert line[..k + 1] == line[..k] + [line[k]];
        drawn := drawn + [Blob(Blobs.CenterOf(line[k]), line[k].radius, line[k].color)];
        k := k + 1;
      }
      assert line[..|line|] == line;
    }
  }

  /**
    What one trail does to the grid `cells` over `bounds`: the grid after it
    and the blobs it draws.
  */
  function TrailEffect(m: Libm, cells: seq<seq<Blob>>, bounds: Rectangle, d: TrailDraws, noise: (real, real) -> real,
                       fuel: nat): (effect: (seq<seq<Blob>>, seq<Blob>))
    requires Divisible(bounds)
  {
    var line := GrownTrail(m, cells, bounds, 20, d, Rectangles.Scale(bounds, 0.94), Rectangles.Scale(bounds, 0.9),
                           noise, fuel, []);
    if |line| > 3 then (InsertAll(cells, bounds, 20, BlobOps, line), line) else (cells, [])
  }

  /** The blobs of trails i .. count - 1, each grown against the grid the earlier trails left. */
  function WildlandsBlobs(m: Libm, cells: seq<seq<Blob>>, bounds: Rectangle, draws: nat -> TrailDraws,
                          noise: (real, real) -> real, fuel: nat, i: nat, count: nat): seq<Blob>
    requires Divisible(bounds)
    decreases count - i
  {
    if i >= count then []
    else
      var effect := TrailEffect(m, cells, bounds, draws(i), noise, fuel);
      effect.1 + WildlandsBlobs(m, effect.0, bounds, draws, noise, fuel, i + 1, count)
  }

  /** One trail more: the blobs drawn so far grow by the blobs of trail `i`. */
  lemma WildlandsBlobsStep(m: Libm, start: seq<seq<Blob>>, cells: seq<seq<Blob>>, after: seq<seq<Blob>>,
                           bounds: Rectangle, draws: nat -> TrailDraws, noise: (real, real) -> real, fuel: nat,
                           i: nat, count: nat, blobs: seq<Blob>, drawn: seq<Blob>)
    requires Divisible(bounds) && i < count
    requires blobs + WildlandsBlobs(m, cells, bounds, draws, noise, fuel, i, count)
             == WildlandsBlobs(m, start, bounds, draws, noise, fuel, 0, count)
    requires (after, drawn) == TrailEffect(m, cells, bounds, draws(i), noise, fuel)
    ensures (blobs + drawn) + WildlandsBlobs(m, after, bounds, draws, noise, fuel, i + 1, count)
            == WildlandsBlobs(m, start, bounds, draws, noise, fuel, 0, count)
  {
    WildlandsBlobsUnfold(m, cells, bounds, draws, noise, fuel, i, count);
    AppendStep(blobs, drawn, WildlandsBlobs(m, after, bounds, draws, noise, fuel, i + 1, count),
               WildlandsBlobs(m, cells, bounds, draws, noise, fuel, i, count));
  }

  lemma AppendStep<T>(done: seq<T>, next: seq<T>, rest: seq<T>, tail: seq<T>)
    requires tail == next + rest
    ensures done + tail == (done + next) + rest
  {
  }

  lemma WildlandsBlobsUnfold(m: Libm, cells: seq<seq<Blob>>, bounds: Rectangle, draws: nat -> TrailDraws,
                             noise: (real, real) -> real, fuel: nat, i: nat, count: nat)
    requires Divisible(bounds) && i < count
    ensures var effect := TrailEffect(m, cells, bounds, draws(i), noise, fuel);
      WildlandsBlobs(m, cells, bounds, draws, noise, fuel, i, count)
      == effect.1 + WildlandsBlobs(m, effect.0, bounds, draws, noise, fuel, i + 1, count)
  {
  }

  /** Every blob lies on the canvas and has radius 3.5. */
  predicate OnCanvas(blobs: seq<Blob>) {
    forall b :: b in blobs ==> Rectangles.Contains(Canvas, b.position) && b.radius == BlobRadius
  }

  lemma OnCanvasAppend(a: seq<Blob>, b: seq<Blob>)
    requires OnCanvas(a) && OnCanvas(b)
    ensures OnCanvas(a + b)
  {
  }

  /** Trail `i` of the painting, grown and committed against the painting's grid object. */
  method PaintTrail(m: Libm, pm: PointMap<Blob>, d: TrailDraws, noise: (real, real) -> real, fuel: nat)
    returns (drawn: seq<Blob>)
    requires pm.Valid() && pm.bounds == Canvas && pm.resolution == 20 && pm.ops == BlobOps
    modifies pm
    ensures pm.Valid()
    ensures (pm.cells, drawn) == TrailEffect(m, old(pm.cells), pm.bounds, d, noise, fuel)
    ensures OnCanvas(drawn)
  {
    var line := GrowTrail(m, pm, d, Rectangles.Scale(pm.bounds, 0.94), Rectangles.Scale(pm.bounds, 0.9), noise, fuel);
    drawn := CommitTrail(pm, line);
  }

  /**
    `wildlands`: a 20 x 20 grid over the canvas and 15000 trails, ordinary
    ones inside the canvas scaled by 0.9, long ones inside it scaled by 0.94.
    The blobs are those of every trail in turn; every drawn blob lies on the
    canvas and has radius 3.5.
  */
  method GenerateWildlands(m: Libm, draws: nat -> TrailDraws, noise: (real, real) -> real, fuel: nat)
    returns (blobs: seq<Blob>)
    ensures blobs == WildlandsBlobs(m, EmptyCells(20 * 20), Canvas, draws, noise, fuel, 0, TrailCount)
    ensures forall b :: b in blobs ==> Rectangles.Contains(Canvas, b.position) && b.radius == BlobRadius
  {
    var pm := new PointMap(Canvas, 20, BlobOps);
    blobs := PaintTrails(m, pm, draws, noise, fuel, TrailCount);
  }

  /** The loop of `wildlands` over `count` trails, against the painting's grid object. */
  method PaintTrails(m: Libm, pm: PointMap<Blob>, draws: nat -> TrailDraws, noise: (real, real) -> real, fuel: nat,
                     count: nat) returns (blobs: seq<Blob>)
    requires pm.Valid() && pm.bounds == Canvas && pm.resolution == 20 && pm.ops == BlobOps
    modifies pm
    ensures blobs == WildlandsBlobs(m, old(pm.cells), pm.bounds, draws, noise, fuel, 0, count)
    ensures OnCanvas(blobs)
  {
    blobs := [];
    var i := 0;
    while i < count
      invariant pm.Valid()
      invariant blobs + WildlandsBlobs(m, pm.cells, pm.bounds, draws, noise, fuel, i, count)
                == WildlandsBlobs(m, old(pm.cells), pm.bounds, draws, noise, fuel, 0, count)
      invariant OnCanvas(blobs)
    {
      ghost var cells := pm.cells;
      var drawn := PaintTrail(m, pm, draws(i), noise, fuel);
      WildlandsBlobsStep(m, old(pm.cells), cells, pm.cells, pm.bounds, draws, noise, fuel, i, count, blobs, drawn);
      OnCanvasAppend(blobs, drawn);
      blobs := blobs + drawn;
      i := i + 1;
    }
  }
}
