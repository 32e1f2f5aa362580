/** Axis-aligned rectangles (src/shapes/rectangle.rs). */
module Rectangles {
  import opened Wrappers
  import opened Colors
  import opened Points

  /** `position` is the upper-left corner. */
  datatype Rectangle = Rectangle(position: Point, width: real, height: real, color: Option<Color>)

  /** A half-open range `start..end`. */
  datatype Range = Range(start: real, end: real)

  datatype SplitDirection = Horizontally | Vertically

  /** The padding `subdivide` always passes to the split functions. */
  const SubdividePadding: real := 16.0

  function RangeContains(r: Range, v: real): (b: bool)
    ensures b <==> r.start <= v && v < r.end
  {
    r.start <= v < r.end
  }

  /** `Rectangle::new`: no colour. */
  function New(position: Point, width: real, height: real): (r: Rectangle)
    ensures r.position == position && r.width == width && r.height == height && r.color == None
  {
    Rectangle(position, width, height, None)
  }

  /** `set_color` on a copy. */
  function WithColor(r: Rectangle, c: Color): (s: Rectangle)
    ensures s.color == Some(c) && Eq(s, r)
  {
    r.(color := Some(c))
  }

  /** `scale`: width and height are multiplied and the geometric centre stays put. */
  function Scale(r: Rectangle, s: real): (q: Rectangle)
    ensures q.width == r.width * s && q.height == r.height * s && q.color == r.color
    ensures q.position.x + q.width / 2.0 == r.position.x + r.width / 2.0
    ensures q.position.y + q.height / 2.0 == r.position.y + r.height / 2.0
  {
    var width := r.width * s;
    var height := r.height * s;
    var x := r.position.x - (width - r.width) / 2.0;
    var y := r.position.y - (height - r.height) / 2.0;
    Rectangle(Point(x, y), width, height, r.color)
  }

  /** `area`: width times height, never negative for a rectangle of non-negative size. */
  function Area(r: Rectangle): (a: real)
    ensures 0.0 <= r.width && 0.0 <= r.height ==> 0.0 <= a
  {
    r.width * r.height
  }

  /** `x_range`: the half-open span of x coordinates, starting at the left edge, `width` long. */
  function XRange(r: Rectangle): (x: Range)
    ensures x.start == r.position.x && x.end - x.start == r.width
  {
    Range(r.position.x, r.position.x + r.width)
  }

  /** `y_range`: the half-open span of y coordinates, starting at the top edge, `height` long. */
  function YRange(r: Rectangle): (y: Range)
    ensures y.start == r.position.y && y.end - y.start == r.height
  {
    Range(r.position.y, r.position.y + r.height)
  }

  /** `contains`: both coordinates in the half-open ranges. */
  function Contains(r: Rectangle, p: Point): (b: bool)
    ensures b <==> r.position.x <= p.x < r.position.x + r.width && r.position.y <= p.y < r.position.y + r.height
  {
    RangeContains(XRange(r), p.x) && RangeContains(YRange(r), p.y)
  }

  /** `center` as written: ((x + w) / 2, (y + h) / 2), the true centre only at the origin. */
  function Center(r: Rectangle): (c: Point)
    ensures r.position == Point(0.0, 0.0) ==> c == Point(r.width / 2.0, r.height / 2.0)
  {
    Point((r.position.x + r.width) / 2.0, (r.position.y + r.height) / 2.0)
  }

  /**
    `to_path`: the four corners clockwise from the upper left (upper right, lower
    right, lower left), closed by repeating the first.
  */
  function ToPath(r: Rectangle): (ps: seq<Point>)
    ensures |ps| == 5 && ps[0] == ps[4] == r.position
    ensures ps[1] == Offset(r.position, r.width, 0.0)
    ensures ps[2] == Offset(r.position, r.width, r.height)
    ensures ps[3] == Offset(r.position, 0.0, r.height)
  {
    [ Point(r.position.x, r.position.y),
      Point(r.position.x + r.width, r.position.y),
      Point(r.position.x + r.width, r.position.y + r.height),
      Point(r.position.x, r.position.y + r.height),
      Point(r.position.x, r.position.y) ]
  }

  /** The `PartialEq` impl: geometry only, the colour is ignored. */
  predicate Eq(a: Rectangle, b: Rectangle)
    ensures Eq(a, b) <==> a.(color := b.color) == b
  {
    a.position == b.position && a.width == b.width && a.height == b.height
  }

  /** `split_horizontally`: left and right parts with `padding` on each side of the cut. */
  function SplitHorizontally(r: Rectangle, split: Point, padding: real): (parts: (Rectangle, Rectangle))
    ensures parts.0.width + parts.1.width + 2.0 * padding == r.width
    ensures parts.0.height == r.height && parts.1.height == r.height
    ensures parts.0.position == r.position
    ensures parts.1.position == Point(split.x + padding, r.position.y)
    ensures parts.0.color == None && parts.1.color == None
  {
    ( New(r.position, split.x - padding - r.position.x, r.height),
      New(Point(split.x + padding, r.position.y), r.position.x + r.width - split.x - padding, r.height) )
  }

  /** `split_vertically`: upper and lower parts with `padding` on each side of the cut. */
  function SplitVertically(r: Rectangle, split: Point, padding: real): (parts: (Rectangle, Rectangle))
    ensures parts.0.height + parts.1.height + 2.0 * padding == r.height
    ensures parts.0.width == r.width && parts.1.width == r.width
    ensures parts.0.position == r.position
    ensures parts.1.position == Point(r.position.x, split.y + padding)
    ensures parts.0.color == None && parts.1.color == None
  {
    ( New(r.position, r.width, split.y - padding - r.position.y),
      New(Point(r.position.x, split.y + padding), r.width, r.position.y + r.height - split.y - padding) )
  }

  /** `subdivide`: the split in the given direction, always with padding 16. */
  function Subdivide(r: Rectangle, split: Point, direction: SplitDirection): (parts: (Rectangle, Rectangle))
    ensures direction == Horizontally ==> parts == SplitHorizontally(r, split, SubdividePadding)
    ensures direction == Vertically ==> parts == SplitVertically(r, split, SubdividePadding)
  {
    match direction
    case Horizontally => SplitHorizontally(r, split, SubdividePadding)
    case Vertically => SplitVertically(r, split, SubdividePadding)
  }

  /** `contains` includes the upper-left corner and excludes the far edges. */
  lemma ContainsIsHalfOpen(r: Rectangle)
    requires 0.0 < r.width && 0.0 < r.height
    ensures Contains(r, r.position)
    ensures !Contains(r, Point(r.position.x + r.width, r.position.y))
    ensures !Contains(r, Point(r.position.x, r.position.y + r.height))
  {
  }

  /** The `does_not_contain` unit test: (10, 30) is outside a 20 by 20 box at the origin. */
  lemma ContainsFixture()
    ensures !Contains(New(Point(0.0, 0.0), 20.0, 20.0), Point(10.0, 30.0))
  {
  }

  /** The scale unit tests: 1.1 gives (-5, -5) and 110, 0.9 gives (5, 5) and 90. */
  lemma ScaleFixtures()
    ensures Scale(New(Point(0.0, 0.0), 100.0, 100.0), 1.1) == New(Point(-5.0, -5.0), 110.0, 110.0)
    ensures Scale(New(Point(0.0, 0.0), 100.0, 100.0), 0.9) == New(Point(5.0, 5.0), 90.0, 90.0)
  {
  }

  /** Scaling twice is scaling once by the product; scaling by 1 changes nothing. */
  lemma ScaleComposes(r: Rectangle, a: real, b: real)
    ensures Scale(Scale(r, a), b) == Scale(r, a * b)
    ensures Scale(r, 1.0) == r
  {
    var q := Scale(Scale(r, a), b);
    assert q.width == r.width * (a * b);
    assert q.height == r.height * (a * b);
  }

  /** Scaling by `s` multiplies the area by s * s. */
  lemma AreaOfScale(r: Rectangle, s: real)
    ensures Area(Scale(r, s)) == s * s * Area(r)
  {
    assert (r.width * s) * (r.height * s) == s * s * (r.width * r.height);
  }

  /**
    The two halves of `subdivide` cover the rectangle less the 2 * 16 wide band cut
    out around the split line.
  */
  lemma SubdivideAreas(r: Rectangle, split: Point, direction: SplitDirection)
    ensures var parts := Subdivide(r, split, direction);
      direction == Horizontally ==>
        Area(parts.0) + Area(parts.1) == Area(r) - 2.0 * SubdividePadding * r.height
    ensures var parts := Subdivide(r, split, direction);
      direction == Vertically ==>
        Area(parts.0) + Area(parts.1) == Area(r) - 2.0 * SubdividePadding * r.width
  {
    var parts := Subdivide(r, split, direction);
    if direction == Horizontally {
      assert parts.0.width * r.height + parts.1.width * r.height == (parts.0.width + parts.1.width) * r.height;
    } else {
      assert r.width * parts.0.height + r.width * parts.1.height == r.width * (parts.0.height + parts.1.height);
    }
  }

  /** The centre unit tests: (50, 50) at the origin and (75, 50) for the box at (50, 0). */
  lemma CenterFixtures()
    ensures Center(New(Point(0.0, 0.0), 100.0, 100.0)) == Point(50.0, 50.0)
    ensures Center(New(Point(50.0, 0.0), 100.0, 100.0)) == Point(75.0, 50.0)
  {
  }

  /** `center` is the geometric centre exactly when the rectangle sits at the origin. */
  lemma CenterIsMidpointOnlyAtOrigin(r: Rectangle)
    ensures Center(r) == Point(r.position.x + r.width / 2.0, r.position.y + r.height / 2.0)
            <==> r.position == Point(0.0, 0.0)
  {
  }
}
