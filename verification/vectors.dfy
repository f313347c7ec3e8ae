/** Real-valued 3-vectors and 4x4 matrices: the stand-ins for Processing's
    PVector and PMatrix3D that every component of the skeleton works on.
    Coordinates are exact reals, so every identity below holds exactly rather
    than up to float rounding. */
module Vectors {

  datatype Vec3 = Vec3(x: real, y: real, z: real)

  const Zero := Vec3(0.0, 0.0, 0.0)

  /** The angle between two vectors in degrees, as `PVector.angleBetween`
      measures it (an arc cosine). It is supplied by the caller: the model
      never computes an arc cosine itself. */
  type AngleFn = (Vec3, Vec3) -> real

  /** The length of a vector, as `PVector.mag` measures it (a square root).
      Supplied by the caller, like `AngleFn`. */
  type MagnitudeFn = Vec3 -> real

  function Add(a: Vec3, b: Vec3): Vec3 {
    Vec3(a.x + b.x, a.y + b.y, a.z + b.z)
  }

  function Sub(a: Vec3, b: Vec3): Vec3 {
    Vec3(a.x - b.x, a.y - b.y, a.z - b.z)
  }

  function Scale(k: real, a: Vec3): Vec3 {
    Vec3(k * a.x, k * a.y, k * a.z)
  }

  function Neg(a: Vec3): Vec3 {
    Vec3(-a.x, -a.y, -a.z)
  }

  function Dot(a: Vec3, b: Vec3): real {
    a.x * b.x + a.y * b.y + a.z * b.z
  }

  function Cross(a: Vec3, b: Vec3): Vec3 {
    Vec3(a.y * b.z - a.z * b.y, a.z * b.x - a.x * b.z, a.x * b.y - a.y * b.x)
  }

  function Square(r: real): real {
    r * r
  }

  predicate IsUnit(a: Vec3) {
    Dot(a, a) == 1.0
  }

  /** `v.mag() <= bound`, stated without a square root: for a non-negative
      bound the two are equivalent, and a negative bound holds no vector. */
  predicate LengthAtMost(v: Vec3, bound: real) {
    bound >= 0.0 && Dot(v, v) <= Square(bound)
  }

  /** `k` is what `PVector.normalize()` divides by, inverted: the reciprocal
      of the length of `v`. A zero vector has no length to divide by, and
      `normalize()` leaves it as it is, which any positive `k` reproduces. */
  predicate IsInverseLength(v: Vec3, k: real) {
    k > 0.0 && (v == Zero || Square(k) * Dot(v, v) == 1.0)
  }

  // Linearity of the dot product, so that proofs can work with dot products
  // as whole terms rather than with their nine coordinate products.

  lemma DotSymmetric(a: Vec3, b: Vec3)
    ensures Dot(a, b) == Dot(b, a)
  {
  }

  lemma DotAddLeft(a: Vec3, b: Vec3, c: Vec3)
    ensures Dot(Add(a, b), c) == Dot(a, c) + Dot(b, c)
  {
  }

  lemma DotSubLeft(a: Vec3, b: Vec3, c: Vec3)
    ensures Dot(Sub(a, b), c) == Dot(a, c) - Dot(b, c)
  {
  }

  lemma DotScaleLeft(k: real, a: Vec3, c: Vec3)
    ensures Dot(Scale(k, a), c) == k * Dot(a, c)
  {
  }

  lemma DotAddScaleLeft(a: Vec3, k: real, b: Vec3, c: Vec3)
    ensures Dot(Add(a, Scale(k, b)), c) == Dot(a, c) + k * Dot(b, c)
  {
    DotAddLeft(a, Scale(k, b), c);
    DotScaleLeft(k, b, c);
  }

  lemma DotNegLeft(a: Vec3, c: Vec3)
    ensures Dot(Neg(a), c) == -Dot(a, c)
  {
  }

  lemma SubZero(a: Vec3, b: Vec3)
    ensures Sub(a, b) == Zero <==> a == b
  {
  }

  lemma ZeroAbsorbs(k: real, a: Vec3)
    ensures Cross(a, Zero) == Zero && Scale(k, Zero) == Zero
  {
  }

  lemma ShiftDifference(p: Vec3, q: Vec3, a: real, b: real, n: Vec3)
    ensures Sub(Add(p, Scale(a, n)), Add(q, Scale(b, n))) == Sub(Sub(p, q), Scale(-(a - b), n))
  {
  }

  lemma SquareSign(r: real)
    ensures Square(r) >= 0.0
    ensures r != 0.0 ==> Square(r) > 0.0
  {
    if r > 0.0 {
      calc { Square(r); r * r; > 0.0; }
    } else if r < 0.0 {
      calc { Square(r); r * r; > 0.0; }
    } else {
      calc { Square(r); r * r; == 0.0; }
    }
  }

  lemma SquareMonotone(a: real, b: real)
    requires 0.0 <= a <= b
    ensures Square(a) <= Square(b)
  {
    calc {
      Square(b) - Square(a);
      (b - a) * (b + a);
    >= { assert b - a >= 0.0 && b + a >= 0.0; }
      0.0;
    }
  }

  lemma DotSelfSquares(a: Vec3)
    ensures Dot(a, a) == Square(a.x) + Square(a.y) + Square(a.z)
  {
  }

  /** A vector has zero squared length exactly when it is the zero vector. */
  lemma DotSelfZero(a: Vec3)
    ensures Dot(a, a) >= 0.0
    ensures Dot(a, a) == 0.0 <==> a == Zero
  {
    DotSelfSquares(a);
    SquareSign(a.x);
    SquareSign(a.y);
    SquareSign(a.z);
  }

  lemma DotSelfNonNegative(a: Vec3)
    ensures Dot(a, a) >= 0.0
  {
  }

  /** Raising the bound never excludes a vector the smaller bound admitted. */
  lemma LengthAtMostWiden(v: Vec3, small: real, large: real)
    requires LengthAtMost(v, small) && small <= large
    ensures LengthAtMost(v, large)
  {
    SquareMonotone(small, large);
  }

  /** Scaling by a reciprocal length yields a unit vector, unless the vector
      was zero. */
  lemma ScaleInverseLength(v: Vec3, k: real)
    requires IsInverseLength(v, k)
    ensures v != Zero ==> IsUnit(Scale(k, v))
    ensures v == Zero ==> Scale(k, v) == Zero
  {
    if v != Zero {
      calc {
        Dot(Scale(k, v), Scale(k, v));
        (k * k) * Dot(v, v);
        Square(k) * Dot(v, v);
        1.0;
      }
    }
  }

  /** A positive multiple of a vector points the same way: the two are
      parallel and their dot product is not negative. */
  lemma ScalePositiveSameDirection(k: real, v: Vec3)
    requires k > 0.0
    ensures Cross(Scale(k, v), v) == Zero
    ensures Dot(Scale(k, v), v) >= 0.0
  {
    var d := Dot(v, v);
    DotSelfNonNegative(v);
    assert Dot(Scale(k, v), v) == k * d;
    calc { k * d; >= { assert k >= 0.0 && d >= 0.0; } 0.0; }
  }

  /** The reciprocal length of a product of orthogonal lengths is the product
      of the reciprocal lengths: if kx, ky and kz normalise X, Y and a vector
      of squared length |X|^2 |Y|^2, then kz = kx * ky. */
  lemma InverseLengthProduct(kx: real, ky: real, kz: real, a: real, b: real)
    requires kx > 0.0 && ky > 0.0 && kz > 0.0
    requires Square(kx) * a == 1.0 && Square(ky) * b == 1.0
    requires Square(kz) * (a * b) == 1.0
    ensures kz == kx * ky
  {
    var p := kx * ky;
    assert p > 0.0 by {
      calc { p; kx * ky; > 0.0; }
    }
    assert Square(p) * (a * b) == 1.0 by {
      calc {
        Square(p) * (a * b);
        (Square(kx) * a) * (Square(ky) * b);
        1.0;
      }
    }
    assert a * b != 0.0;
    assert Square(kz) == Square(p) by {
      calc {
        (Square(kz) - Square(p)) * (a * b);
        Square(kz) * (a * b) - Square(p) * (a * b);
        0.0;
      }
    }
    assert (kz - p) * (kz + p) == 0.0 by {
      calc {
        (kz - p) * (kz + p);
        Square(kz) - Square(p);
        0.0;
      }
    }
    assert kz + p > 0.0;
  }

  /** A cross product is orthogonal to both of its factors. */
  lemma CrossOrthogonal(a: Vec3, b: Vec3)
    ensures Dot(Cross(a, b), a) == 0.0
    ensures Dot(Cross(a, b), b) == 0.0
  {
  }

  /** Lagrange's identity for orthogonal factors: |a x b|^2 = |a|^2 |b|^2. */
  lemma CrossLengthOrthogonal(a: Vec3, b: Vec3)
    requires Dot(a, b) == 0.0
    ensures Dot(Cross(a, b), Cross(a, b)) == Dot(a, a) * Dot(b, b)
  {
    assert Dot(Cross(a, b), Cross(a, b)) == Dot(a, a) * Dot(b, b) - Dot(a, b) * Dot(a, b);
  }

  /** The vector triple product: u x (a x b) = (u.b) a - (u.a) b. */
  lemma CrossCross(u: Vec3, a: Vec3, b: Vec3)
    ensures Cross(u, Cross(a, b)) == Sub(Scale(Dot(u, b), a), Scale(Dot(u, a), b))
  {
    CrossCrossWith(u, a, b, Dot(u, b), Dot(u, a));
  }

  /** `CrossCross` with the two dot products given as numbers. */
  lemma CrossCrossWith(u: Vec3, a: Vec3, b: Vec3, ub: real, ua: real)
    requires ub == Dot(u, b) && ua == Dot(u, a)
    ensures Cross(u, Cross(a, b)) == Sub(Scale(ub, a), Scale(ua, b))
  {
    var c := Cross(a, b);
    var rx, ry, rz := ub * a.x - ua * b.x, ub * a.y - ua * b.y, ub * a.z - ua * b.z;
    assert u.y * c.z - u.z * c.y == rx by {
      TripleCoordinate(u.x, u.y, u.z, a.x, a.y, a.z, b.x, b.y, b.z, c.y, c.z, ub, ua);
    }
    assert u.z * c.x - u.x * c.z == ry by {
      TripleCoordinate(u.y, u.z, u.x, a.y, a.z, a.x, b.y, b.z, b.x, c.z, c.x, ub, ua);
    }
    assert u.x * c.y - u.y * c.x == rz by {
      TripleCoordinate(u.z, u.x, u.y, a.z, a.x, a.y, b.z, b.x, b.y, c.x, c.y, ub, ua);
    }
    SubOfScaled(ub, a, ua, b);
    CrossByCoordinates(u, c, rx, ry, rz);
  }

  lemma CrossByCoordinates(u: Vec3, c: Vec3, rx: real, ry: real, rz: real)
    requires u.y * c.z - u.z * c.y == rx && u.z * c.x - u.x * c.z == ry && u.x * c.y - u.y * c.x == rz
    ensures Cross(u, c) == Vec3(rx, ry, rz)
  {
  }

  lemma SubOfScaled(p: real, a: Vec3, q: real, b: Vec3)
    ensures Sub(Scale(p, a), Scale(q, b)) == Vec3(p * a.x - q * b.x, p * a.y - q * b.y, p * a.z - q * b.z)
  {
  }

  /** One coordinate of `CrossCross`, with the inner cross product's
      coordinates and the two dot products given. */
  lemma TripleCoordinate(u1: real, u2: real, u3: real, a1: real, a2: real, a3: real,
                         b1: real, b2: real, b3: real, c2: real, c3: real, ub: real, ua: real)
    requires c2 == a3 * b1 - a1 * b3 && c3 == a1 * b2 - a2 * b1
    requires ub == u1 * b1 + u2 * b2 + u3 * b3 && ua == u1 * a1 + u2 * a2 + u3 * a3
    ensures u2 * c3 - u3 * c2 == ub * a1 - ua * b1
  {
  }

  /** The cross product is linear in its second factor. */
  lemma CrossScale(c: Vec3, p: real, a: Vec3)
    ensures Cross(c, Scale(p, a)) == Scale(p, Cross(c, a))
  {
    assert c.y * (p * a.z) - c.z * (p * a.y) == p * (c.y * a.z - c.z * a.y);
    assert c.z * (p * a.x) - c.x * (p * a.z) == p * (c.z * a.x - c.x * a.z);
    assert c.x * (p * a.y) - c.y * (p * a.x) == p * (c.x * a.y - c.y * a.x);
    assert Cross(c, Scale(p, a)) == Vec3(p * (c.y * a.z - c.z * a.y), p * (c.z * a.x - c.x * a.z),
                                         p * (c.x * a.y - c.y * a.x));
  }

  /** Scaling the left factor scales the cross product. */
  lemma CrossScaleLeft(p: real, a: Vec3, c: Vec3)
    ensures Cross(Scale(p, a), c) == Scale(p, Cross(a, c))
  {
    assert (p * a.y) * c.z - (p * a.z) * c.y == p * (a.y * c.z - a.z * c.y);
    assert (p * a.z) * c.x - (p * a.x) * c.z == p * (a.z * c.x - a.x * c.z);
    assert (p * a.x) * c.y - (p * a.y) * c.x == p * (a.x * c.y - a.y * c.x);
    assert Cross(Scale(p, a), c) == Vec3(p * (a.y * c.z - a.z * c.y), p * (a.z * c.x - a.x * c.z),
                                         p * (a.x * c.y - a.y * c.x));
  }

  /** Scaling twice scales by the product. */
  lemma ScaleScale(p: real, q: real, a: Vec3)
    ensures Scale(q, Scale(p, a)) == Scale(p * q, a)
  {
    assert q * (p * a.x) == (p * q) * a.x;
    assert q * (p * a.y) == (p * q) * a.y;
    assert q * (p * a.z) == (p * q) * a.z;
  }

  /** Scaling both factors scales the cross product by the product. */
  lemma CrossOfScaled(x: Vec3, y: Vec3, p: real, q: real)
    ensures Cross(Scale(p, x), Scale(q, y)) == Scale(p * q, Cross(x, y))
  {
    CrossScale(Scale(p, x), q, y);
    CrossScaleLeft(p, x, y);
    ScaleScale(p, q, Cross(x, y));
  }

  lemma CrossSub(c: Vec3, a: Vec3, b: Vec3)
    ensures Cross(c, Sub(a, b)) == Sub(Cross(c, a), Cross(c, b))
  {
  }

  /** Two orthogonal unit vectors and their cross product form an orthonormal
      basis: every vector is the sum of its projections onto the three. */
  lemma OrthonormalExpansion(a: Vec3, b: Vec3, v: Vec3)
    requires IsUnit(a) && IsUnit(b) && Dot(a, b) == 0.0
    ensures v == Add(Add(Scale(Dot(v, a), a), Scale(Dot(v, b), b)),
                     Scale(Dot(v, Cross(a, b)), Cross(a, b)))
  {
    var c := Cross(a, b);
    CrossLengthOrthogonal(a, b);
    assert Dot(c, c) == 1.0;
    var p, q, r := Dot(v, a), Dot(v, b), Dot(v, c);
    assert Cross(c, a) == b by {
      CrossCross(c, a, b);
      CrossCross(a, a, b);
    }
    assert Cross(c, b) == Neg(a) by {
      CrossCross(c, a, b);
      CrossCross(b, a, b);
    }
    assert Cross(c, Cross(v, c)) == Sub(v, Scale(r, c)) by {
      CrossCross(c, v, c);
      assert Dot(c, v) == r;
    }
    assert Cross(v, c) == Sub(Scale(q, a), Scale(p, b)) by {
      CrossCross(v, a, b);
    }
    assert Cross(c, Sub(Scale(q, a), Scale(p, b))) == Add(Scale(q, b), Scale(p, a)) by {
      CrossSub(c, Scale(q, a), Scale(p, b));
      CrossScale(c, q, a);
      CrossScale(c, p, b);
    }
    assert Sub(v, Scale(r, c)) == Add(Scale(q, b), Scale(p, a));
  }

  /** A 4x4 matrix with Processing's PMatrix3D entry names: `mRC` is row R,
      column C. */
  datatype Mat4 = Mat4(
    m00: real, m01: real, m02: real, m03: real,
    m10: real, m11: real, m12: real, m13: real,
    m20: real, m21: real, m22: real, m23: real,
    m30: real, m31: real, m32: real, m33: real)

  /** The first three entries of columns 0, 1 and 2: where the matrix sends
      the unit axes. */
  function ColumnX(m: Mat4): Vec3 {
    Vec3(m.m00, m.m10, m.m20)
  }

  function ColumnY(m: Mat4): Vec3 {
    Vec3(m.m01, m.m11, m.m21)
  }

  function ColumnZ(m: Mat4): Vec3 {
    Vec3(m.m02, m.m12, m.m22)
  }

  /** The determinant of a matrix whose bottom row is (0, 0, 0, 1): the
      triple product of its first three columns. */
  function AffineDeterminant(m: Mat4): real {
    Dot(ColumnX(m), Cross(ColumnY(m), ColumnZ(m)))
  }

  /** `new PMatrix3D()`: Processing's default matrix is the identity. */
  const Identity := Mat4(1.0, 0.0, 0.0, 0.0,
                         0.0, 1.0, 0.0, 0.0,
                         0.0, 0.0, 1.0, 0.0,
                         0.0, 0.0, 0.0, 1.0)

  /** `PMatrix3D.mult(PVector, PVector)`: the point (p, 1) multiplied by the
      upper three rows; no division by the fourth coordinate. */
  function Transform(m: Mat4, p: Vec3): Vec3 {
    Vec3(m.m00 * p.x + m.m01 * p.y + m.m02 * p.z + m.m03,
         m.m10 * p.x + m.m11 * p.y + m.m12 * p.z + m.m13,
         m.m20 * p.x + m.m21 * p.y + m.m22 * p.z + m.m23)
  }
}
