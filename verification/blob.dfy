/**
  Blobs (src/shapes/blob.rs) as the grid and the wildlands painting see them:
  a centre, an approximate radius and a colour. The randomly jittered outline
  that only the drawing uses is not part of this model.
*/
module Blobs {
  import opened Wrappers
  import opened Math
  import opened Colors
  import opened Points

  datatype Blob = Blob(position: Point, radius: real, color: Option<Color>)

  /** The `Shape::center` of a blob. */
  function CenterOf(b: Blob): (p: Point)
    ensures p == b.position
  {
    Point(b.position.x, b.position.y)
  }

  /** `distance`: the `distance_to` of the centres minus both radii (whole radii, unlike circles). */
  function Distance(m: Libm, b: Blob, other: Blob): (d: real)
    ensures ExactSqrt(m) ==>
      var e := d + b.radius + other.radius;
      0.0 <= e && e * e == Square(b.position.x - other.position.y) + Square(b.position.y - other.position.y)
  {
    DistanceTo(m, CenterOf(b), CenterOf(other)) - b.radius - other.radius
  }

  /** The `PartialEq` impl: position and radius; colour and outline are ignored. */
  predicate Eq(a: Blob, b: Blob)
    ensures Eq(a, b) ==> CenterOf(a) == CenterOf(b)
    ensures a.color == b.color ==> (Eq(a, b) <==> a == b)
  {
    a.position == b.position && a.radius == b.radius
  }

  /** Two blobs that differ only in colour are equal, and equal blobs differ at most in colour. */
  lemma EqIgnoresColor(b: Blob, c: Option<Color>, other: Blob)
    ensures Eq(b, Blob(b.position, b.radius, c))
    ensures b.color != c ==> b != Blob(b.position, b.radius, c)
    ensures Eq(b, other) <==> b.(color := other.color) == other
  {
  }
}
