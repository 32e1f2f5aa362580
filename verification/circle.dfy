/** Circles (src/shapes/circle.rs). */
module Circles {
  import opened Wrappers
  import opened Math
  import opened Colors
  import opened Points

  datatype Circle = Circle(center: Point, radius: real, color: Option<Color>)

  /** `Circle::new`: no colour. */
  function New(center: Point, radius: real): (c: Circle)
    ensures c.center == center && c.radius == radius && c.color == None
  {
    Circle(center, radius, None)
  }

  /** The `Shape::center` of a circle. */
  function CenterOf(c: Circle): (p: Point)
    ensures p == c.center
  {
    Point(c.center.x, c.center.y)
  }

  /** `distance`: the centre distance minus half of each radius. */
  function Distance(m: Libm, c: Circle, other: Circle): (d: real)
    ensures ExactSqrt(m) ==>
      var e := d + c.radius / 2.0 + other.radius / 2.0;
      0.0 <= e && e * e == Square(c.center.x - other.center.x) + Square(c.center.y - other.center.y)
  {
    var dx := c.center.x - other.center.x;
    var dy := c.center.y - other.center.y;
    m.sqrt(Square(dx) + Square(dy)) - c.radius / 2.0 - other.radius / 2.0
  }

  /**
    `intersects`: the edge distance is below the sum of the half radii, that is,
    the `sqrt` of the squared centre distance is below the sum of the full radii.
  */
  predicate Intersects(m: Libm, c: Circle, other: Circle)
    ensures Intersects(m, c, other) <==>
      m.sqrt(Square(c.center.x - other.center.x) + Square(c.center.y - other.center.y)) < c.radius + other.radius
  {
    Distance(m, c, other) < c.radius / 2.0 + other.radius / 2.0
  }

  /** `instersects_any` (sic): some circle in the list intersects `c`. */
  function IntersectsAny(m: Libm, c: Circle, others: seq<Circle>): (b: bool)
    ensures b <==> exists k :: 0 <= k < |others| && Intersects(m, c, others[k])
  {
    if others == [] then false
    else Intersects(m, c, others[0]) || IntersectsAny(m, c, others[1..])
  }

  /** `scale`: the radius is multiplied, centre and colour are kept. */
  function Scale(c: Circle, s: real): (q: Circle)
    ensures q.center == c.center && q.color == c.color && q.radius == c.radius * s
  {
    Circle(c.center, c.radius * s, c.color)
  }

  /** `contains`: `distance_to` from the centre (as written) is below the radius. */
  predicate Contains(m: Libm, c: Circle, p: Point)
    ensures ExactSqrt(m) && Contains(m, c, p) ==> 0.0 < c.radius
  {
    DistanceTo(m, CenterOf(c), p) < c.radius
  }

  /**
    With a true square root, `contains` compares the as-written squared
    `distance_to` (its x term uses p.y) with the squared radius.
  */
  lemma ContainsIffSquared(m: Libm, c: Circle, p: Point)
    requires ExactSqrt(m)
    ensures Contains(m, c, p) <==>
      0.0 < c.radius && Square(c.center.x - p.y) + Square(c.center.y - p.y) < Square(c.radius)
  {
    var s := Square(Abs(c.center.x - p.y)) + Square(Abs(c.center.y - p.y));
    assert s == Square(c.center.x - p.y) + Square(c.center.y - p.y);
    assert 0.0 <= s;
    SqrtLess(m, s, c.radius);
  }

  /** The `PartialEq` impl: centre and radius, not colour. */
  predicate Eq(a: Circle, b: Circle)
    ensures Eq(a, b) <==> a.(color := b.color) == b
  {
    a.center.x == b.center.x && a.center.y == b.center.y && a.radius == b.radius
  }

  lemma DistanceSymmetric(m: Libm, a: Circle, b: Circle)
    ensures Distance(m, a, b) == Distance(m, b, a)
  {
    assert Square(a.center.x - b.center.x) == Square(b.center.x - a.center.x);
    assert Square(a.center.y - b.center.y) == Square(b.center.y - a.center.y);
  }

  /** The doc example: radius-10 circles at (0, 0) and (20, 0) are 10 apart. */
  lemma DistanceDocExample(m: Libm)
    requires ExactSqrt(m)
    ensures Distance(m, New(Point(0.0, 0.0), 10.0), New(Point(20.0, 0.0), 10.0)) == 10.0
  {
    assert Square(0.0 - 20.0) + Square(0.0 - 0.0) == 20.0 * 20.0;
    SqrtOfSquare(m, 20.0);
  }

  /**
    For circles with non-negative radii, `intersects` is a plain comparison of the
    squared centre distance with the squared sum of the radii.
  */
  lemma IntersectsIffCentresClose(m: Libm, a: Circle, b: Circle)
    requires ExactSqrt(m)
    requires 0.0 <= a.radius && 0.0 <= b.radius
    ensures Intersects(m, a, b) <==>
      Square(a.center.x - b.center.x) + Square(a.center.y - b.center.y) < Square(a.radius + b.radius)
  {
    var s := Square(a.center.x - b.center.x) + Square(a.center.y - b.center.y);
    assert Distance(m, a, b) + a.radius / 2.0 + b.radius / 2.0 == m.sqrt(s);
    SqrtLess(m, s, a.radius + b.radius);
    if a.radius + b.radius == 0.0 {
      assert !(s < Square(a.radius + b.radius));
    }
  }

  lemma IntersectsSymmetric(m: Libm, a: Circle, b: Circle)
    ensures Intersects(m, a, b) <==> Intersects(m, b, a)
  {
    DistanceSymmetric(m, a, b);
  }

  /** Colour does not take part in equality, and equality is an equivalence. */
  lemma EqIgnoresColor(a: Circle, b: Circle, c: Circle, k: Option<Color>)
    ensures Eq(a, a.(color := k))
    ensures Eq(a, b) ==> Eq(b, a)
    ensures Eq(a, b) && Eq(b, c) ==> Eq(a, c)
    ensures Eq(a, b) <==> a.center == b.center && a.radius == b.radius
  {
  }

  lemma ScaleComposes(c: Circle, s: real, t: real)
    ensures Scale(Scale(c, s), t) == Scale(c, s * t)
    ensures Scale(c, 1.0) == c
  {
    assert c.radius * s * t == c.radius * (s * t);
  }
}
