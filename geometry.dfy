/**
 * Plane vectors over the reals, standing for the introcs Vector2 class, and the
 * part of Python's floating-point library the game uses: the square root inside
 * math.sqrt and Vector2.normalize, and the sine and cosine of 120 and 240
 * degrees inside rotate_vector.
 */
module Geometry {

  datatype Vec = Vec(x: real, y: real)

  const Zero := Vec(0.0, 0.0)

  function Add(a: Vec, b: Vec): Vec
  {
    Vec(a.x + b.x, a.y + b.y)
  }

  function Scale(k: real, v: Vec): Vec
  {
    Vec(k * v.x, k * v.y)
  }

  /** A vector of length one. */
  predicate IsUnit(v: Vec)
  {
    v.x * v.x + v.y * v.y == 1.0
  }

  /**
   * The library functions the model cannot compute exactly: `sqrt` is
   * math.sqrt on non-negative arguments, and `sin120` is the sine of 120
   * degrees (its cosine is exactly -1/2).
   */
  datatype MathLib = MathLib(sqrt: real -> real, sin120: real)
  {
    ghost predicate Valid()
    {
      && (forall a :: a >= 0.0 ==> sqrt(a) >= 0.0 && sqrt(a) * sqrt(a) == a && (a > 0.0 ==> sqrt(a) > 0.0))
      && sin120 > 0.0
      && sin120 * sin120 == 0.75
    }

    /** Vector2.length: the square root of the sum of the squared components. */
    function Length(v: Vec): real
    {
      sqrt(v.x * v.x + v.y * v.y)
    }
  }

  lemma SumSquaresNonNegative(x: real, y: real)
    ensures x * x + y * y >= 0.0
  {
    assert x * x >= 0.0;
    assert y * y >= 0.0;
  }

  lemma SumSquaresPositive(x: real, y: real)
    requires x != 0.0 || y != 0.0
    ensures x * x + y * y > 0.0
  {
    if x != 0.0 {
      assert x * x > 0.0;
      assert y * y >= 0.0;
    } else {
      assert y * y > 0.0;
    }
  }

  /** A non-zero vector has a positive length, whose square is its squared norm. */
  lemma LengthPositive(m: MathLib, v: Vec)
    requires m.Valid() && v != Zero
    ensures m.Length(v) > 0.0
    ensures m.Length(v) * m.Length(v) == v.x * v.x + v.y * v.y
  {
    SumSquaresPositive(v.x, v.y);
  }

  lemma QuotientSquares(x: real, y: real, l: real)
    requires l > 0.0 && l * l == x * x + y * y
    ensures (x / l) * (x / l) + (y / l) * (y / l) == 1.0
  {
    var a, b := x / l, y / l;
    assert x == a * l && y == b * l;
    calc {
      (a * a + b * b) * (l * l);
      (a * l) * (a * l) + (b * l) * (b * l);
      x * x + y * y;
      l * l;
    }
    assert l * l > 0.0;
  }

  /** The square root of one is one. */
  lemma RootOfOne(m: MathLib)
    requires m.Valid()
    ensures m.sqrt(1.0) == 1.0
  {
    var l := m.sqrt(1.0);
    assert (l - 1.0) * (l + 1.0) == l * l - 1.0;
    assert (l - 1.0) * (l + 1.0) == 0.0;
    assert l + 1.0 > 0.0;
  }

  /**
   * Vector2.normalize on a non-zero vector: a unit vector which, scaled back by
   * the length of the original, gives the original.
   */
  function Normalize(m: MathLib, v: Vec): (u: Vec)
    requires m.Valid() && v != Zero
    ensures IsUnit(u)
    ensures Scale(m.Length(v), u) == v
  {
    LengthPositive(m, v);
    QuotientSquares(v.x, v.y, m.Length(v));
    Vec(v.x / m.Length(v), v.y / m.Length(v))
  }

  /** Normalizing a vector that is already a unit vector leaves it as it is. */
  lemma NormalizeUnit(m: MathLib, v: Vec)
    requires m.Valid() && IsUnit(v)
    ensures v != Zero && Normalize(m, v) == v
  {
    RootOfOne(m);
  }

  /** A unit vector scaled by k has squared length k * k. */
  lemma ScaledUnit(k: real, u: Vec)
    requires IsUnit(u)
    ensures Scale(k, u).x * Scale(k, u).x + Scale(k, u).y * Scale(k, u).y == k * k
  {
    assert (k * u.x) * (k * u.x) + (k * u.y) * (k * u.y) == (k * k) * (u.x * u.x + u.y * u.y);
  }

  /** A unit vector scaled by a non-zero factor is not the zero vector. */
  lemma ScaledUnitNonZero(k: real, u: Vec)
    requires IsUnit(u) && k != 0.0
    ensures Scale(k, u) != Zero
  {
    ScaledUnit(k, u);
    assert k * k > 0.0;
  }

  /** The distance from (px, py) to (qx, qy), as math.sqrt computes it. */
  function Distance(m: MathLib, px: real, py: real, qx: real, qy: real): real
  {
    m.sqrt((px - qx) * (px - qx) + (py - qy) * (py - qy))
  }

  lemma SquareBelow(l: real, r: real)
    requires l >= 0.0 && r > 0.0
    ensures l < r <==> l * l < r * r
  {
    assert r * r - l * l == (r - l) * (r + l);
    assert r + l > 0.0;
    if l < r {
      assert (r - l) * (r + l) > 0.0;
    } else {
      assert (r - l) * (r + l) <= 0.0;
    }
  }

  /**
   * Two circles' centres are closer than the sum r of their radii exactly when
   * the squared distance is below r * r: the comparison never needs the root.
   */
  lemma CloserThan(m: MathLib, px: real, py: real, qx: real, qy: real, r: real)
    requires m.Valid() && r > 0.0
    ensures Distance(m, px, py, qx, qy) < r <==> (px - qx) * (px - qx) + (py - qy) * (py - qy) < r * r
  {
    SumSquaresNonNegative(px - qx, py - qy);
    SquareBelow(m.sqrt((px - qx) * (px - qx) + (py - qy) * (py - qy)), r);
  }

  /** The distance does not depend on which centre comes first. */
  lemma DistanceSymmetric(m: MathLib, px: real, py: real, qx: real, qy: real)
    ensures Distance(m, px, py, qx, qy) == Distance(m, qx, qy, px, py)
  {
    assert (px - qx) * (px - qx) == (qx - px) * (qx - px);
    assert (py - qy) * (py - qy) == (qy - py) * (qy - py);
  }

  /** rotate_vector: the counter-clockwise rotation with the given cosine and sine. */
  function Rotate(v: Vec, cos: real, sin: real): Vec
  {
    Vec(v.x * cos - v.y * sin, v.x * sin + v.y * cos)
  }

  /** A rotation keeps the squared length of the vector. */
  lemma RotateKeepsLength(v: Vec, cos: real, sin: real)
    requires cos * cos + sin * sin == 1.0
    ensures Rotate(v, cos, sin).x * Rotate(v, cos, sin).x + Rotate(v, cos, sin).y * Rotate(v, cos, sin).y
         == v.x * v.x + v.y * v.y
  {
    var x, y := v.x, v.y;
    assert (x * cos - y * sin) * (x * cos - y * sin) + (x * sin + y * cos) * (x * sin + y * cos)
        == (x * x + y * y) * (cos * cos + sin * sin);
  }

  /** Rotation by 120 degrees, and by 240 degrees (twice 120), as rotate_vector computes them. */
  function Turn120(m: MathLib, v: Vec): Vec
  {
    Rotate(v, -0.5, m.sin120)
  }

  function Turn240(m: MathLib, v: Vec): Vec
  {
    Rotate(v, -0.5, -m.sin120)
  }

  lemma TwoTurnsAlgebra(x: real, y: real, s: real)
    ensures (x * -0.5 - y * s) * -0.5 - (x * s + y * -0.5) * s == x * (0.25 - s * s) + y * s
    ensures (x * -0.5 - y * s) * s + (x * s + y * -0.5) * -0.5 == - x * s + y * (0.25 - s * s)
  {
  }

  lemma FullTurnAlgebra(x: real, y: real, s: real)
    ensures (x * -0.5 - y * -s) * -0.5 - (x * -s + y * -0.5) * s == x * (0.25 + s * s)
    ensures (x * -0.5 - y * -s) * s + (x * -s + y * -0.5) * -0.5 == y * (0.25 + s * s)
  {
  }

  /** Turning twice by 120 degrees is turning by 240; turning by 120 after 240 is a full turn. */
  lemma TurnsCompose(m: MathLib, v: Vec)
    requires m.Valid()
    ensures Turn120(m, Turn120(m, v)) == Turn240(m, v)
    ensures Turn120(m, Turn240(m, v)) == v
  {
    TwoTurnsAlgebra(v.x, v.y, m.sin120);
    FullTurnAlgebra(v.x, v.y, m.sin120);
  }

  /** A vector and its two turns add up to the zero vector. */
  lemma TurnsCancel(m: MathLib, v: Vec)
    ensures Add(Add(v, Turn120(m, v)), Turn240(m, v)) == Zero
  {
  }

  /** Both turns keep a unit vector a unit vector. */
  lemma TurnsKeepUnit(m: MathLib, v: Vec)
    requires m.Valid() && IsUnit(v)
    ensures IsUnit(Turn120(m, v)) && IsUnit(Turn240(m, v))
  {
    RotateKeepsLength(v, -0.5, m.sin120);
    RotateKeepsLength(v, -0.5, -m.sin120);
  }
}
