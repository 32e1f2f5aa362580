/**
  The floating-point library functions the source calls (`f64::sqrt`, `cos` and
  `sin`). They are not defined here: every member that needs one takes a `Libm`
  value, and a property that depends on `sqrt` being the true square root says so
  with `ExactSqrt`, one that needs cos and sin of an angle on the unit circle with
  `UnitCircle`.
*/
module Math {

  datatype Libm = Libm(
    sqrt: real -> real,
    cos: real -> real,
    sin: real -> real)

  /** `sqrt` returns the non-negative root of every non-negative argument. */
  ghost predicate ExactSqrt(m: Libm) {
    forall x: real {:trigger m.sqrt(x)} :: 0.0 <= x ==> 0.0 <= m.sqrt(x) && m.sqrt(x) * m.sqrt(x) == x
  }

  function Square(v: real): real { v * v }

  /** `cos` and `sin` of every angle lie on the unit circle. */
  ghost predicate UnitCircle(m: Libm) {
    forall a: real {:trigger m.cos(a)} :: Square(m.cos(a)) + Square(m.sin(a)) == 1.0
  }

  /** A move by (c * step, s * step) with (c, s) on the unit circle has length |step|. */
  lemma MoveOnUnitCircle(c: real, s: real, step: real)
    ensures Square(c) + Square(s) == 1.0 ==> Square(c * step) + Square(s * step) == Square(step)
  {
    assert Square(c * step) + Square(s * step) == (Square(c) + Square(s)) * Square(step);
  }

  function Abs(v: real): (r: real)
    ensures 0.0 <= r && (r == v || r == -v)
  {
    if v < 0.0 then -v else v
  }

  lemma MulNonNegative(x: real, y: real)
    requires 0.0 <= x && 0.0 <= y
    ensures 0.0 <= x * y
  {
  }

  lemma MulPositive(x: real, y: real)
    requires 0.0 < x && 0.0 < y
    ensures 0.0 < x * y
  {
  }

  lemma SquareMonotone(a: real, b: real)
    requires 0.0 <= a <= b
    ensures a * a <= b * b
  {
    MulNonNegative(a, b - a);
    assert 0.0 <= a * b - a * a;
    MulNonNegative(b, b - a);
    assert 0.0 <= b * b - a * b;
  }

  lemma SquareStrictMonotone(a: real, b: real)
    requires 0.0 <= a < b
    ensures a * a < b * b
  {
    MulNonNegative(a, b - a);
    assert 0.0 <= a * b - a * a;
    MulPositive(b, b - a);
    assert 0.0 < b * b - a * b;
  }

  /** A non-negative number is the root of its own square. */
  lemma SqrtOfSquare(m: Libm, a: real)
    requires ExactSqrt(m)
    requires 0.0 <= a
    ensures m.sqrt(a * a) == a
  {
    var r := m.sqrt(a * a);
    assert 0.0 <= r && r * r == a * a;
    if r < a {
      SquareStrictMonotone(r, a);
    } else if a < r {
      SquareStrictMonotone(a, r);
    }
  }

  /** The root is strictly monotone: it tells squares apart. */
  lemma SqrtStrictMonotone(m: Libm, x: real, y: real)
    requires ExactSqrt(m)
    requires 0.0 <= x < y
    ensures m.sqrt(x) < m.sqrt(y)
  {
    var a, b := m.sqrt(x), m.sqrt(y);
    assert 0.0 <= a && a * a == x;
    assert 0.0 <= b && b * b == y;
    if b <= a {
      SquareMonotone(b, a);
    }
  }

  /** `sqrt(x) < t` exactly when `t` is positive and `x < t * t`. */
  lemma SqrtLess(m: Libm, x: real, t: real)
    requires ExactSqrt(m)
    requires 0.0 <= x
    ensures m.sqrt(x) < t <==> 0.0 < t && x < t * t
  {
    var a := m.sqrt(x);
    assert 0.0 <= a && a * a == x;
    if a < t {
      SquareStrictMonotone(a, t);
    }
    if 0.0 < t && x < t * t {
      if t <= a {
        SquareMonotone(t, a);
      }
    }
  }
}
