/**
  The forces painting (src/paintings/forces/algo.rs): lines grow step by step
  through a noise field, each step checked against a grid of the circles
  already laid down; a line long enough is committed to the grid and drawn,
  whole or split into pieces. The noise field and every random draw arrive as
  parameters.
*/
module Forces {
  import opened Wrappers
  import opened Math
  import opened Colors
  import opened Points
  import opened Rectangles
  import Circles
  import opened Paths
  import opened Grid

  /** The settings the painting reads. */
  datatype ForcesConfig = ForcesConfig(
    size: real,
    lineCount: nat,
    maxLineLength: real,
    minLineLength: real,
    smoothness: real,
    chaos: real,
    splitLineChance: real,
    splitWithGap: bool)

  /** The noise field a line follows and the length of one step. */
  datatype Flow = Flow(noise: (real, real) -> real, chaos: real, smoothness: real, step: real)

  /** The random draws of one line: its start, its weighted radius, its colour and how it is split. */
  datatype LineDraws = LineDraws(
    start: Point,
    radius: real,
    color: Option<Color>,
    split: bool,
    splitCoins: nat -> bool,
    pieceColors: nat -> Option<Color>)

  /** The grid sees a circle at its centre; circles are equal by centre and radius. */
  const CircleOps: ShapeOps<Circles.Circle> := ShapeOps(Circles.CenterOf, Circles.Eq)

  /** The weighted radii every line after the first draws from. */
  const RadiusChoices: seq<real> := [40.0, 100.0, 150.0]

  /** The first line is 350 wide; later lines use their drawn radius. */
  function Radius(line: nat, drawn: real): (r: real)
    ensures line == 0 ==> r == 350.0
    ensures r == 350.0 || r == drawn
  {
    if line < 1 then 350.0 else drawn
  }

  /** Radii in [0, 150] take steps of 20, wider lines steps of 180. */
  function StepSize(r: real): (step: real)
    ensures step == 20.0 <==> 0.0 <= r <= 150.0
    ensures step == 20.0 || step == 180.0
  {
    if 0.0 <= r <= 150.0 then 20.0 else 180.0
  }

  /** Radii in [400, 600) follow a field three times smoother. */
  function Smoothness(r: real, base: real): (s: real)
    ensures s == base || s == base * 3.0
    ensures base != 0.0 ==> s != 0.0
  {
    if 400.0 <= r < 600.0 then base * 3.0 else base
  }

  /** The first line takes long steps, and its radius is outside the smoothing band. */
  lemma FirstLineTakesLongSteps(drawn: real, base: real)
    ensures Radius(0, drawn) == 350.0 && StepSize(Radius(0, drawn)) == 180.0
    ensures Smoothness(Radius(0, drawn), base) == base
  {
  }

  /** Every weighted radius takes short steps and none is ever smoothed more. */
  lemma WeightedRadiiTakeShortSteps(line: nat, k: nat, base: real)
    requires 1 <= line && k < |RadiusChoices|
    ensures StepSize(Radius(line, RadiusChoices[k])) == 20.0
    ensures Smoothness(Radius(line, RadiusChoices[k]), base) == base
  {
  }

  /**
    One step from `p`: sample the field at p / smoothness and move `step` along
    the angle chaos * noise. With cos and sin on the unit circle the step is
    exactly `step` long.
  */
  function NextPoint(m: Libm, flow: Flow, p: Point): (q: Point)
    requires flow.smoothness != 0.0
    ensures UnitCircle(m) ==> Square(q.x - p.x) + Square(q.y - p.y) == Square(flow.step)
  {
    var angle := flow.chaos * flow.noise(p.x / flow.smoothness, p.y / flow.smoothness);
    MoveOnUnitCircle(m.cos(angle), m.sin(angle), flow.step);
    Point(p.x + m.cos(angle) * flow.step, p.y + m.sin(angle) * flow.step)
  }

  /** The field a line of radius `r` follows. */
  function LineFlow(noise: (real, real) -> real, config: ForcesConfig, r: real): (flow: Flow)
    ensures config.smoothness != 0.0 ==> flow.smoothness != 0.0
  {
    Flow(noise, config.chaos, Smoothness(r, config.smoothness), StepSize(r))
  }

  /** Some neighbour's edge distance to `c` is below r / 2. */
  predicate Collides(m: Libm, neighbors: seq<Circles.Circle>, c: Circles.Circle, r: real) {
    exists k :: 0 <= k < |neighbors| && Circles.Distance(m, neighbors[k], c) < r / 2.0
  }

  /**
    A candidate point is kept by the grid `cells`: the query for a circle of
    radius `r` there is answered and nothing collides.
  */
  predicate AcceptedIn(m: Libm, cells: seq<seq<Circles.Circle>>, bounds: Rectangle, resolution: nat, p: Point, r: real)
    requires Divisible(bounds)
  {
    var q := Neighbors(cells, bounds, resolution, CircleOps, PointDistance(m), Circles.New(p, r), None);
    q.Ok? && !Collides(m, q.value, Circles.New(p, r), r)
  }

  /** The same test asked of a grid object holding circles. */
  predicate Accepted(m: Libm, pm: PointMap<Circles.Circle>, p: Point, r: real)
    reads pm
    requires pm.Valid()
  {
    AcceptedIn(m, pm.cells, pm.bounds, pm.resolution, p, r)
  }

  /** The grid only answers for centres inside its bounds. */
  lemma AcceptedIsInBounds(m: Libm, pm: PointMap<Circles.Circle>, p: Point, r: real)
    requires pm.Valid() && pm.ops == CircleOps
    requires pm.GetNeighbors(m, Circles.New(p, r), None).Ok?
    ensures Rectangles.Contains(pm.bounds, p)
  {
    assert Circles.CenterOf(Circles.New(p, r)) == p;
  }

  /** Where the walk stands: the last accepted point, or the start. */
  function Current(start: Point, line: seq<Point>): Point {
    if line == [] then start else line[|line| - 1]
  }

  /** One step of the loop body: the candidate point and whether the grid lets it be added. */
  method TryStep(m: Libm, pm: PointMap<Circles.Circle>, p: Point, r: real, flow: Flow) returns (next: Point, accepted: bool)
    requires pm.Valid() && pm.ops == CircleOps && flow.smoothness != 0.0
    ensures next == NextPoint(m, flow, p)
    ensures accepted == Accepted(m, pm, next, r)
    ensures accepted ==> Rectangles.Contains(pm.bounds, next)
  {
    next := NextPoint(m, flow, p);
    var circle := Circles.New(next, r);
    var neighbors := pm.GetNeighbors(m, circle, None);
    if neighbors.Err? {
      return next, false;
    }
    AcceptedIsInBounds(m, pm, next, r);
    accepted := !Collides(m, neighbors.value, circle, r);
  }

  /**
    The k-th point of a line came from one loop iteration: before it the walk
    stood at Current(start, prefix) inside `inner`, the line was shorter than
    `maxLength`, and the grid accepted the step.
  */
  predicate StepTaken(m: Libm, pm: PointMap<Circles.Circle>, inner: Rectangle, start: Point, r: real,
                      flow: Flow, maxLength: real, prefix: seq<Point>, q: Point)
    reads pm
    requires pm.Valid() && flow.smoothness != 0.0
  {
    var cur := Current(start, prefix);
    && Rectangles.Contains(inner, cur)
    && PathLength(m, prefix) < maxLength
    && q == NextPoint(m, flow, cur)
    && Accepted(m, pm, q, r)
  }

  /** Every point of `line` was taken by a step of the loop. */
  predicate Walked(m: Libm, pm: PointMap<Circles.Circle>, inner: Rectangle, start: Point, r: real,
                   flow: Flow, maxLength: real, line: seq<Point>)
    reads pm
    requires pm.Valid() && flow.smoothness != 0.0
  {
    forall k :: 0 <= k < |line| ==> StepTaken(m, pm, inner, start, r, flow, maxLength, line[..k], line[k])
  }

  lemma WalkedExtend(m: Libm, pm: PointMap<Circles.Circle>, inner: Rectangle, start: Point, r: real,
                     flow: Flow, maxLength: real, line: seq<Point>, next: Point)
    requires pm.Valid() && flow.smoothness != 0.0
    requires Walked(m, pm, inner, start, r, flow, maxLength, line)
    requires StepTaken(m, pm, inner, start, r, flow, maxLength, line, next)
    ensures Walked(m, pm, inner, start, r, flow, maxLength, line + [next])
    ensures Current(start, line + [next]) == next
  {
    var l := line + [next];
    forall k | 0 <= k < |l|
      ensures StepTaken(m, pm, inner, start, r, flow, maxLength, l[..k], l[k])
    {
      AppendPrefix(line, next, k);
    }
  }

  /** The prefixes and points of `line + [x]`: those of `line`, then `line` itself before `x`. */
  lemma AppendPrefix<T>(line: seq<T>, x: T, k: nat)
    requires k <= |line|
    ensures k < |line| ==> (line + [x])[..k] == line[..k] && (line + [x])[k] == line[k]
    ensures k == |line| ==> (line + [x])[..k] == line && (line + [x])[k] == x
  {
    assert (line + [x])[..k] == line[..k];
  }

  lemma InsideExtend(line: seq<Point>, next: Point, bounds: Rectangle)
    requires forall p :: p in line ==> Rectangles.Contains(bounds, p)
    requires Rectangles.Contains(bounds, next)
    ensures forall p :: p in line + [next] ==> Rectangles.Contains(bounds, p)
  {
  }

  /**
    The step loop. It runs while the walk is inside `inner` and the line is
    shorter than `maxLength`; a candidate that the grid rejects (out of bounds)
    or that collides ends the line without being added. `fuel` bounds the
    number of steps. Every point is inside the grid's bounds, every point was
    taken by a step, and unless the fuel ran out the loop stopped for one of
    the source's reasons.
  */
  method GrowLine(m: Libm, pm: PointMap<Circles.Circle>, inner: Rectangle, start: Point, r: real,
                  flow: Flow, maxLength: real, fuel: nat) returns (line: seq<Point>)
    requires pm.Valid() && pm.ops == CircleOps && flow.smoothness != 0.0
    ensures |line| <= fuel
    ensures forall p :: p in line ==> Rectangles.Contains(pm.bounds, p)
    ensures Walked(m, pm, inner, start, r, flow, maxLength, line)
    ensures |line| < fuel ==>
      var cur := Current(start, line);
      !(Rectangles.Contains(inner, cur) && PathLength(m, line) < maxLength) || !Accepted(m, pm, NextPoint(m, flow, cur), r)
    ensures line == Grown(m, pm.cells, pm.bounds, pm.resolution, inner, start, r, flow, maxLength, fuel, [])
  {
    line := [];
    var p := start;
    while |line| < fuel && Rectangles.Contains(inner, p) && PathLength(m, line) < maxLength
      invariant |line| <= fuel
      invariant p == Current(start, line)
      invariant forall q :: q in line ==> Rectangles.Contains(pm.bounds, q)
      invariant Walked(m, pm, inner, start, r, flow, maxLength, line)
      invariant Grown(m, pm.cells, pm.bounds, pm.resolution, inner, start, r, flow, maxLength, fuel, line)
                == Grown(m, pm.cells, pm.bounds, pm.resolution, inner, start, r, flow, maxLength, fuel, [])
      decreases fuel - |line|
    {
      var next, accepted := TryStep(m, pm, p, r, flow);
      if !accepted {
        break;
      }
      WalkedExtend(m, pm, inner, start, r, flow, maxLength, line, next);
      InsideExtend(line, next, pm.bounds);
      line := line + [next];
      p := next;
    }
  }

  /**
    The line the step loop grows from `line` on against the grid `cells`: it
    ends when `fuel` points are taken, when the walk stands outside `inner`, when
    the line has reached `maxLength`, or at the first candidate the grid rejects.
  */
  function Grown(m: Libm, cells: seq<seq<Circles.Circle>>, bounds: Rectangle, resolution: nat, inner: Rectangle,
                 start: Point, r: real, flow: Flow, maxLength: real, fuel: nat, line: seq<Point>): seq<Point>
    requires Divisible(bounds) && flow.smoothness != 0.0
    decreases fuel - |line|
  {
    var cur := Current(start, line);
    if |line| >= fuel || !Rectangles.Contains(inner, cur) || PathLength(m, line) >= maxLength then line
    else
      var next := NextPoint(m, flow, cur);
      if AcceptedIn(m, cells, bounds, resolution, next, r)
      then Grown(m, cells, bounds, resolution, inner, start, r, flow, maxLength, fuel, line + [next])
      else line
  }

  /** The circles a committed line leaves in the grid, one per point. */
  function CirclesAlong(line: seq<Point>, r: real): (cs: seq<Circles.Circle>)
    ensures |cs| == |line| && forall k :: 0 <= k < |line| ==> cs[k] == Circles.New(line[k], r)
  {
    seq(|line|, k requires 0 <= k < |line| => Circles.New(line[k], r))
  }

  /** The commit rule: a line strictly longer than `minLength` puts a circle at every point into the grid. */
  method CommitLine(m: Libm, pm: PointMap<Circles.Circle>, line: seq<Point>, r: real, minLength: real)
    returns (committed: bool)
    requires pm.Valid()
    modifies pm
    ensures pm.Valid()
    ensures committed == (PathLength(m, line) > minLength)
    ensures pm.cells == if committed then InsertAll(old(pm.cells), pm.bounds, pm.resolution, pm.ops, CirclesAlong(line, r))
                        else old(pm.cells)
  {
    committed := PathLength(m, line) > minLength;
    if committed {
      var circles := CirclesAlong(line, r);
      var k := 0;
      while k < |line|
        invariant 0 <= k <= |line|
        invariant pm.Valid()
        invariant pm.cells == InsertAll(old(pm.cells), pm.bounds, pm.resolution, pm.ops, circles[..k])
      {
        pm.InsertNext(old(pm.cells), circles[..k], circles[k]);
        assert circles[..k + 1] == circles[..k] + [circles[k]];
        k := k + 1;
      }
      assert circles[..|line|] == circles;
    }
  }

  /** A line of at least two points is needed for a positive length. */
  lemma {:induction false} PositiveLengthNeedsTwoPoints(m: Libm, line: seq<Point>)
    requires PathLength(m, line) > 0.0
    ensures |line| >= 2
  {
  }

  /**
    The pieces `split_line` emits from index `i` on, the previous split having
    been at `last`: with a gap, line[last..i] at every split i; without, the
    piece reaches one point further on each side.
  */
  function Pieces(line: seq<Point>, useGap: bool, coins: nat -> bool, i: nat, last: nat): (pieces: seq<seq<Point>>)
    requires 1 <= last <= i
    decreases |line| - i
  {
    if i + 1 >= |line| then []
    else if coins(i) then
      [if useGap then line[last..i] else line[last - 1..i + 1]] + Pieces(line, useGap, coins, i + 1, i)
    else Pieces(line, useGap, coins, i + 1, last)
  }

  /** How many coins in [i, |line| - 1) come up. */
  function Splits(line: seq<Point>, coins: nat -> bool, i: nat): nat
    decreases |line| - i
  {
    if i + 1 >= |line| then 0 else (if coins(i) then 1 else 0) + Splits(line, coins, i + 1)
  }

  /** The last split index before |line| - 1, or `last` when no coin comes up. */
  function LastSplit(line: seq<Point>, coins: nat -> bool, i: nat, last: nat): (l: nat)
    requires last <= i
    ensures last <= l < |line| || l == last
    decreases |line| - i
  {
    if i + 1 >= |line| then last
    else if coins(i) then LastSplit(line, coins, i + 1, i)
    else LastSplit(line, coins, i + 1, last)
  }

  /** `piece` is a run of consecutive points of `line`. */
  predicate SliceOf(piece: seq<Point>, line: seq<Point>) {
    exists a, b :: 0 <= a <= b <= |line| && piece == line[a..b]
  }

  function Concat(pieces: seq<seq<Point>>): seq<Point> {
    if pieces == [] then [] else pieces[0] + Concat(pieces[1..])
  }

  /** One piece per split. */
  lemma {:induction false} PiecesCount(line: seq<Point>, useGap: bool, coins: nat -> bool, i: nat, last: nat)
    requires 1 <= last <= i
    ensures |Pieces(line, useGap, coins, i, last)| == Splits(line, coins, i)
    decreases |line| - i
  {
    if i + 1 < |line| {
      if coins(i) {
        PiecesCount(line, useGap, coins, i + 1, i);
      } else {
        PiecesCount(line, useGap, coins, i + 1, last);
      }
    }
  }

  /** Every piece is a run of consecutive points of the line. */
  lemma {:induction false} PiecesAreSlices(line: seq<Point>, useGap: bool, coins: nat -> bool, i: nat, last: nat)
    requires 1 <= last <= i
    ensures forall k :: 0 <= k < |Pieces(line, useGap, coins, i, last)| ==> SliceOf(Pieces(line, useGap, coins, i, last)[k], line)
    decreases |line| - i
  {
    var ps := Pieces(line, useGap, coins, i, last);
    if i + 1 >= |line| {
      assert ps == [];
    } else if coins(i) {
      PiecesAreSlices(line, useGap, coins, i + 1, i);
      var rest := Pieces(line, useGap, coins, i + 1, i);
      var a := if useGap then last else last - 1;
      var b := if useGap then i else i + 1;
      assert ps == [line[a..b]] + rest;
      assert SliceOf(ps[0], line);
      forall k | 1 <= k < |ps|
        ensures SliceOf(ps[k], line)
      {
        assert ps[k] == rest[k - 1];
      }
    } else {
      PiecesAreSlices(line, useGap, coins, i + 1, last);
      assert ps == Pieces(line, useGap, coins, i + 1, last);
    }
  }

  /**
    With a gap the pieces, laid end to end, are exactly line[last..l] for the
    last split l: the point at each split starts the next piece, and the points
    after the last split are not emitted.
  */
  lemma {:induction false} GapPiecesTile(line: seq<Point>, coins: nat -> bool, i: nat, last: nat)
    requires 1 <= last <= i && i <= |line|
    ensures LastSplit(line, coins, i, last) <= |line|
    ensures Concat(Pieces(line, true, coins, i, last)) == line[last..LastSplit(line, coins, i, last)]
    decreases |line| - i
  {
    if i + 1 < |line| {
      if coins(i) {
        GapPiecesTile(line, coins, i + 1, i);
        var l := LastSplit(line, coins, i + 1, i);
        var rest := Pieces(line, true, coins, i + 1, i);
        var ps := Pieces(line, true, coins, i, last);
        assert ps == [line[last..i]] + rest;
        assert ps[1..] == rest;
        assert line[last..l] == line[last..i] + line[i..l];
      } else {
        GapPiecesTile(line, coins, i + 1, last);
      }
    }
  }

  /**
    `split_line`: walk the interior indices 1 .. |line| - 1, flipping one coin
    each; at every split emit the piece since the previous split. The source
    needs a non-empty line (it computes |line| - 1 in `usize`).
  */
  method SplitLine(line: seq<Point>, useGap: bool, coins: nat -> bool) returns (lines: seq<seq<Point>>)
    requires |line| >= 1
    ensures lines == Pieces(line, useGap, coins, 1, 1)
    ensures |lines| == Splits(line, coins, 1)
    ensures forall k :: 0 <= k < |lines| ==> SliceOf(lines[k], line)
  {
    lines := [];
    var lastSplit := 1;
    var i := 1;
    while i < |line| - 1
      invariant 1 <= lastSplit <= i <= |line|
      invariant lines + Pieces(line, useGap, coins, i, lastSplit) == Pieces(line, useGap, coins, 1, 1)
    {
      if coins(i) {
        if useGap {
          lines := lines + [line[lastSplit..i]];
        } else {
          lines := lines + [line[lastSplit - 1..i + 1]];
        }
        lastSplit := i;
      }
      i := i + 1;
    }
    assert Pieces(line, useGap, coins, i, lastSplit) == [];
    PiecesCount(line, useGap, coins, 1, 1);
    PiecesAreSlices(line, useGap, coins, 1, 1);
  }

  /** The style of a whole committed line and of each split piece. */
  function LineStyle(r: real, color: Option<Color>): (s: PathStyle)
    ensures s.strokeWeight == Some(r) && s.color == None
  {
    PathStyle(Some(r), color, None)
  }

  /** The drawn paths of one committed line: the whole line, or one path per piece. */
  function Strokes(line: seq<Point>, r: real, color: Option<Color>, pieces: seq<seq<Point>>, pieceColors: nat -> Option<Color>, split: bool): (ds: seq<Drawn>)
    ensures !split ==> ds == [Drawn(line, LineStyle(r, color))]
    ensures split ==> |ds| == |pieces| && forall k :: 0 <= k < |pieces| ==> ds[k] == Drawn(pieces[k], LineStyle(r, pieceColors(k)))
  {
    if split then seq(|pieces|, k requires 0 <= k < |pieces| => Drawn(pieces[k], LineStyle(r, pieceColors(k))))
    else [Drawn(line, LineStyle(r, color))]
  }

  /** Whether a committed line is split: the chance is positive and the coin came up. */
  predicate SplitsLine(config: ForcesConfig, d: LineDraws) {
    config.splitLineChance > 0.0 && d.split
  }

  /** What a committed line draws: its pieces when it splits, otherwise the whole line. */
  function LineStrokes(line: seq<Point>, r: real, config: ForcesConfig, d: LineDraws): (ds: seq<Drawn>)
    ensures !SplitsLine(config, d) ==> ds == [Drawn(line, LineStyle(r, d.color))]
    ensures SplitsLine(config, d) ==> |ds| == Splits(line, d.splitCoins, 1)
  {
    var split := SplitsLine(config, d);
    PiecesCount(line, config.splitWithGap, d.splitCoins, 1, 1);
    Strokes(line, r, d.color, if split then Pieces(line, config.splitWithGap, d.splitCoins, 1, 1) else [], d.pieceColors, split)
  }

  /** The canvas: size wide, 1.4 times as tall, at the origin. */
  function Canvas(size: real): (c: Rectangle)
    ensures 0.0 < size ==> AtOrigin(c) && Divisible(c)
  {
    Rectangles.New(Point(0.0, 0.0), size, size * 1.4)
  }

  /** Every point of a run of the line's points is one of the line's points. */
  lemma SliceMembers(line: seq<Point>, piece: seq<Point>, p: Point)
    requires SliceOf(piece, line) && p in piece
    ensures p in line
  {
    var a, b :| 0 <= a <= b <= |line| && piece == line[a..b];
    assert forall q :: q in line[a..b] ==> q in line;
  }

  /** Every stroke has weight `r` and lies inside `bounds`. */
  predicate StrokedWith(ds: seq<Drawn>, r: real, bounds: Rectangle) {
    forall k :: 0 <= k < |ds| ==>
      ds[k].style.strokeWeight == Some(r) && forall p :: p in ds[k].points ==> Rectangles.Contains(bounds, p)
  }

  /**
    What one line of the painting does: it grows against the grid, and when it
    is longer than the minimum its circles go into the grid and its strokes are
    drawn; otherwise the grid is unchanged and nothing is drawn. Every stroke has
    the line's weight and stays inside the grid's bounds.
  */
  method DrawLine(m: Libm, pm: PointMap<Circles.Circle>, inner: Rectangle, config: ForcesConfig, d: LineDraws,
                  r: real, flow: Flow, fuel: nat) returns (line: seq<Point>, drawn: seq<Drawn>)
    requires pm.Valid() && pm.ops == CircleOps && flow.smoothness != 0.0 && 0.0 <= config.minLineLength
    modifies pm
    ensures pm.Valid()
    ensures line == Grown(m, old(pm.cells), pm.bounds, pm.resolution, inner, d.start, r, flow, config.maxLineLength, fuel, [])
    ensures pm.cells == if PathLength(m, line) > config.minLineLength
      then InsertAll(old(pm.cells), pm.bounds, pm.resolution, pm.ops, CirclesAlong(line, r)) else old(pm.cells)
    ensures drawn == if PathLength(m, line) > config.minLineLength then LineStrokes(line, r, config, d) else []
    ensures StrokedWith(drawn, r, pm.bounds)
  {
    line := GrowLine(m, pm, inner, d.start, r, flow, config.maxLineLength, fuel);
    var committed := CommitLine(m, pm, line, r, config.minLineLength);
    if committed {
      drawn := StrokeLine(m, line, r, config, d, pm.bounds);
    } else {
      drawn := [];
    }
  }

  /**
    The drawing half of a committed line: the whole line as one stroke, or,
    when the line splits, its pieces. Every stroke has the line's weight and
    stays inside the bounds the line stayed in.
  */
  method StrokeLine(m: Libm, line: seq<Point>, r: real, config: ForcesConfig, d: LineDraws, bounds: Rectangle)
    returns (drawn: seq<Drawn>)
    requires PathLength(m, line) > config.minLineLength >= 0.0
    requires forall p :: p in line ==> Rectangles.Contains(bounds, p)
    ensures drawn == LineStrokes(line, r, config, d)
    ensures StrokedWith(drawn, r, bounds)
  {
    PositiveLengthNeedsTwoPoints(m, line);
    var split := config.splitLineChance > 0.0 && d.split;
    var pieces: seq<seq<Point>> := [];
    if split {
      pieces := SplitLine(line, config.splitWithGap, d.splitCoins);
    }
    drawn := Strokes(line, r, d.color, pieces, d.pieceColors, split);
    StrokesInside(line, r, d.color, pieces, d.pieceColors, split, bounds);
  }

  lemma StrokesInside(line: seq<Point>, r: real, color: Option<Color>, pieces: seq<seq<Point>>,
                      pieceColors: nat -> Option<Color>, split: bool, bounds: Rectangle)
    requires forall p :: p in line ==> Rectangles.Contains(bounds, p)
    requires split ==> forall k :: 0 <= k < |pieces| ==> SliceOf(pieces[k], line)
    ensures StrokedWith(Strokes(line, r, color, pieces, pieceColors, split), r, bounds)
  {
    var ds := Strokes(line, r, color, pieces, pieceColors, split);
    forall k, p | 0 <= k < |ds| && p in ds[k].points
      ensures Rectangles.Contains(bounds, p)
    {
      if split {
        SliceMembers(line, pieces[k], p);
      }
    }
  }

  /**
    What line `i` does to the grid `cells` of the painting: the grid after it
    and the strokes it draws.
  */
  function LineEffect(m: Libm, cells: seq<seq<Circles.Circle>>, config: ForcesConfig, d: LineDraws,
                      noise: (real, real) -> real, fuel: nat, i: nat): (effect: (seq<seq<Circles.Circle>>, seq<Drawn>))
    requires 0.0 < config.size && config.smoothness != 0.0
  {
    var bounds := Canvas(config.size);
    var r := Radius(i, d.radius);
    var line := Grown(m, cells, bounds, 20, Rectangles.Scale(bounds, 0.9), d.start, r, LineFlow(noise, config, r),
                      config.maxLineLength, fuel, []);
    if PathLength(m, line) > config.minLineLength
    then (InsertAll(cells, bounds, 20, CircleOps, CirclesAlong(line, r)), LineStrokes(line, r, config, d))
    else (cells, [])
  }

  /** The strokes of lines i .. lineCount - 1, each drawn against the grid the earlier lines left. */
  function ForcesStrokes(m: Libm, cells: seq<seq<Circles.Circle>>, config: ForcesConfig, draws: nat -> LineDraws,
                         noise: (real, real) -> real, fuel: nat, i: nat): seq<Drawn>
    requires 0.0 < config.size && config.smoothness != 0.0
    decreases config.lineCount - i
  {
    if i >= config.lineCount then []
    else
      var effect := LineEffect(m, cells, config, draws(i), noise, fuel, i);
      effect.1 + ForcesStrokes(m, effect.0, config, draws, noise, fuel, i + 1)
  }

  /** One line more: the strokes drawn so far grow by the strokes of line `i`. */
  lemma ForcesStrokesStep(m: Libm, start: seq<seq<Circles.Circle>>, cells: seq<seq<Circles.Circle>>,
                          after: seq<seq<Circles.Circle>>, config: ForcesConfig, draws: nat -> LineDraws,
                          noise: (real, real) -> real, fuel: nat, i: nat, strokes: seq<Drawn>, drawn: seq<Drawn>)
    requires 0.0 < config.size && config.smoothness != 0.0
    requires i < config.lineCount
    requires strokes + ForcesStrokes(m, cells, config, draws, noise, fuel, i) == ForcesStrokes(m, start, config, draws, noise, fuel, 0)
    requires (after, drawn) == LineEffect(m, cells, config, draws(i), noise, fuel, i)
    ensures (strokes + drawn) + ForcesStrokes(m, after, config, draws, noise, fuel, i + 1)
            == ForcesStrokes(m, start, config, draws, noise, fuel, 0)
  {
  }

  /** Every stroke has a width and lies inside `bounds`. */
  predicate Painted(ds: seq<Drawn>, bounds: Rectangle) {
    forall k :: 0 <= k < |ds| ==>
      ds[k].style.strokeWeight.Some? && forall p :: p in ds[k].points ==> Rectangles.Contains(bounds, p)
  }

  lemma PaintedAppend(a: seq<Drawn>, b: seq<Drawn>, bounds: Rectangle)
    requires Painted(a, bounds) && Painted(b, bounds)
    ensures Painted(a + b, bounds)
  {
    forall k | 0 <= k < |a + b|
      ensures (a + b)[k].style.strokeWeight.Some? && forall p :: p in (a + b)[k].points ==> Rectangles.Contains(bounds, p)
    {
      if k < |a| {
        assert (a + b)[k] == a[k];
      } else {
        assert (a + b)[k] == b[k - |a|];
      }
    }
  }

  /** Line `i` of the painting, drawn against the painting's grid object. */
  method PaintLine(m: Libm, pm: PointMap<Circles.Circle>, config: ForcesConfig, d: LineDraws,
                   noise: (real, real) -> real, fuel: nat, i: nat) returns (drawn: seq<Drawn>)
    requires 0.0 < config.size && config.smoothness != 0.0 && 0.0 <= config.minLineLength
    requires pm.Valid() && pm.bounds == Canvas(config.size) && pm.resolution == 20 && pm.ops == CircleOps
    modifies pm
    ensures pm.Valid()
    ensures (pm.cells, drawn) == LineEffect(m, old(pm.cells), config, d, noise, fuel, i)
    ensures Painted(drawn, pm.bounds)
  {
    var r := Radius(i, d.radius);
    var line;
    line, drawn := DrawLine(m, pm, Rectangles.Scale(pm.bounds, 0.9), config, d, r, LineFlow(noise, config, r), fuel);
  }

  /**
    `generate_forces`: a 20 x 20 grid over the canvas; line i starts from its
    drawn start with radius Radius(i, ..), grows inside the canvas scaled by
    0.9, and is committed and drawn when it is long enough. The strokes are
    those of every line in turn; every drawn point lies on the canvas, and every
    drawn path has a stroke width.
  */
  method GenerateForces(m: Libm, config: ForcesConfig, draws: nat -> LineDraws, noise: (real, real) -> real, fuel: nat)
    returns (strokes: seq<Drawn>)
    requires 0.0 < config.size && config.smoothness != 0.0 && 0.0 <= config.minLineLength
    ensures strokes == ForcesStrokes(m, EmptyCells(20 * 20), config, draws, noise, fuel, 0)
    ensures forall k :: 0 <= k < |strokes| ==>
      forall p :: p in strokes[k].points ==> Rectangles.Contains(Canvas(config.size), p)
    ensures forall k :: 0 <= k < |strokes| ==> strokes[k].style.strokeWeight.Some?
  {
    var pm := new PointMap(Canvas(config.size), 20, CircleOps);
    strokes := PaintLines(m, pm, config, draws, noise, fuel);
  }

  /** The loop of `generate_forces` over the lines, against the painting's grid object. */
  method PaintLines(m: Libm, pm: PointMap<Circles.Circle>, config: ForcesConfig, draws: nat -> LineDraws,
                    noise: (real, real) -> real, fuel: nat) returns (strokes: seq<Drawn>)
    requires 0.0 < config.size && config.smoothness != 0.0 && 0.0 <= config.minLineLength
    requires pm.Valid() && pm.bounds == Canvas(config.size) && pm.resolution == 20 && pm.ops == CircleOps
    modifies pm
    ensures strokes == ForcesStrokes(m, old(pm.cells), config, draws, noise, fuel, 0)
    ensures Painted(strokes, pm.bounds)
  {
    strokes := [];
    var i := 0;
    while i < config.lineCount
      invariant pm.Valid()
      invariant strokes + ForcesStrokes(m, pm.cells, config, draws, noise, fuel, i)
                == ForcesStrokes(m, old(pm.cells), config, draws, noise, fuel, 0)
      invariant Painted(strokes, pm.bounds)
    {
      ghost var cells := pm.cells;
      var drawn := PaintLine(m, pm, config, draws(i), noise, fuel, i);
      ForcesStrokesStep(m, old(pm.cells), cells, pm.cells, config, draws, noise, fuel, i, strokes, drawn);
      PaintedAppend(strokes, drawn, pm.bounds);
      strokes := strokes + drawn;
      i := i + 1;
    }
  }
}
