/**
  A point on the canvas (src/shapes/point.rs). `distance_to` and `between` read the OTHER point's y coordinate where an x is expected; the model
  keeps that as written.
*/
module Points {
  import opened Math

  datatype Point = Point(x: real, y: real)

  /** `distance_to`: the x term is |self.x - other.y| as written. */
  function DistanceTo(m: Libm, p: Point, other: Point): (d: real)
    ensures ExactSqrt(m) ==> 0.0 <= d
    ensures ExactSqrt(m) ==> d * d == Square(p.x - other.y) + Square(p.y - other.y)
  {
    var dx := Abs(p.x - other.y);
    var dy := Abs(p.y - other.y);
    m.sqrt(Square(dx) + Square(dy))
  }

  /** `offset`: a new point moved by (dx, dy). */
  function Offset(p: Point, dx: real, dy: real): (q: Point)
    ensures q.x - p.x == dx && q.y - p.y == dy
  {
    Point(p.x + dx, p.y + dy)
  }

  /** `offset_mut`: the same move applied field by field to the receiver. */
  method OffsetInPlace(p: Point, dx: real, dy: real) returns (moved: Point)
    ensures moved == Offset(p, dx, dy)
  {
    moved := p;
    moved := moved.(x := moved.x + dx);
    moved := moved.(y := moved.y + dy);
  }

  /** `between`: moves `percent` of the way towards (other.y, other.y) as written. */
  function Between(p: Point, other: Point, percent: real): (q: Point)
    ensures percent == 0.0 ==> q == p
    ensures percent == 1.0 ==> q == Point(other.y, other.y)
  {
    Point(p.x + (other.y - p.x) * percent, p.y + (other.y - p.y) * percent)
  }

  /**
    `between` is the affine combination (1 - percent) * p + percent * t of the point
    and the target t = (other.y, other.y): halfway is the midpoint, and any percent in
    0..1 lands on the segment between them, coordinate by coordinate.
  */
  lemma {:induction false} BetweenIsAffine(p: Point, other: Point, percent: real)
    ensures Between(p, other, percent) ==
      Point((1.0 - percent) * p.x + percent * other.y, (1.0 - percent) * p.y + percent * other.y)
    ensures Between(p, other, 0.5) == Point((p.x + other.y) / 2.0, (p.y + other.y) / 2.0)
    ensures 0.0 <= percent <= 1.0 ==>
      Spans(p.x, other.y, Between(p, other, percent).x) &&
      Spans(p.y, other.y, Between(p, other, percent).y)
  {
    if 0.0 <= percent <= 1.0 {
      BetweenCoordinate(p.x, other.y, percent);
      BetweenCoordinate(p.y, other.y, percent);
    }
  }

  /** `v` lies on the closed interval with ends `a` and `b`, in either order. */
  predicate Spans(a: real, b: real, v: real) {
    a <= v <= b || b <= v <= a
  }

  /** One coordinate of `between`: a + (b - a) * t stays between a and b for t in 0..1. */
  lemma BetweenCoordinate(a: real, b: real, t: real)
    requires 0.0 <= t <= 1.0
    ensures Spans(a, b, a + (b - a) * t)
  {
    if a <= b {
      MulNonNegative(b - a, t);
      MulNonNegative(b - a, 1.0 - t);
    } else {
      MulNonNegative(a - b, t);
      MulNonNegative(a - b, 1.0 - t);
    }
  }

  lemma OffsetComposes(p: Point, a: real, b: real, c: real, d: real)
    ensures Offset(Offset(p, a, b), c, d) == Offset(p, a + c, b + d)
    ensures Offset(p, 0.0, 0.0) == p
  {
  }

  /** The `offset` unit test: (5, -100) moved by (10, 0) is (15, -100). */
  lemma OffsetFixture()
    ensures Offset(Point(5.0, -100.0), 10.0, 0.0) == Point(15.0, -100.0)
  {
  }

  /** The `distance` unit test: from (-10, 0) to (10, 10) rounds to 22. */
  lemma DistanceToFixture(m: Libm)
    requires ExactSqrt(m)
    ensures 21.5 <= DistanceTo(m, Point(-10.0, 0.0), Point(10.0, 10.0)) < 22.5
  {
    var d := DistanceTo(m, Point(-10.0, 0.0), Point(10.0, 10.0));
    assert d * d == 500.0;
    if d < 21.5 {
      SquareStrictMonotone(d, 21.5);
    }
    if 22.5 <= d {
      SquareMonotone(22.5, d);
    }
  }

  /**
    The doc comment promises 20 for (0, 0) to (20, 0); as written the x term is
    |0 - 0|, so the result is 0.
  */
  lemma DistanceToDocExample(m: Libm)
    requires ExactSqrt(m)
    ensures DistanceTo(m, Point(0.0, 0.0), Point(20.0, 0.0)) == 0.0
  {
    SqrtOfSquare(m, 0.0);
  }

  /** As written, `distance_to` is not symmetric. */
  lemma DistanceToNotSymmetric(m: Libm)
    requires ExactSqrt(m)
    ensures DistanceTo(m, Point(0.0, 1.0), Point(2.0, 3.0)) != DistanceTo(m, Point(2.0, 3.0), Point(0.0, 1.0))
  {
    var d1 := DistanceTo(m, Point(0.0, 1.0), Point(2.0, 3.0));
    var d2 := DistanceTo(m, Point(2.0, 3.0), Point(0.0, 1.0));
    assert d1 * d1 == 13.0;
    assert d2 * d2 == 5.0;
  }
}
