/** The geometry kernel of the skeleton (`SkeletonMath`): the torso-centred
    local coordinate frame, the three body planes in Hesse normal form, and
    the reflection of joint positions and joint orientations across the
    sagittal (mirror) plane. */
module SkeletonMath {
  import opened Vectors

  /** Why the local frame cannot be built: with both shoulders at one point
      the X axis is the zero vector and the projection divides by zero. */
  datatype FrameError = CoincidentShoulders

  datatype Result<T> = Ok(value: T) | Err(error: FrameError)

  /** The three axes of the local frame before they are normalised. */
  datatype Axes = Axes(x: Vec3, y: Vec3, z: Vec3)

  /** The reciprocal lengths `normalize()` divides the three axes by. */
  datatype AxisScales = AxisScales(kx: real, ky: real, kz: real)

  /** The torso-centred local coordinate system: the origin (the torso) and
      the three normalised axes. */
  datatype LocalFrame = LocalFrame(origin: Vec3, x: Vec3, y: Vec3, z: Vec3)

  /** `BodyPlaneHNF`: a plane in Hesse normal form, r . n0 - d = 0, with a
      point r on the plane, the normal n0 and the offset d. */
  datatype BodyPlane = BodyPlane(r: Vec3, n0: Vec3, d: real)

  datatype BodyPlanes = BodyPlanes(sagittal: BodyPlane, frontal: BodyPlane, transversal: BodyPlane)

  // ---------------------------------------------------------------------
  // The local coordinate frame

  /** The torso lies on the straight line through both shoulders. */
  predicate TorsoOnShoulderLine(torso: Vec3, leftShoulder: Vec3, rightShoulder: Vec3) {
    Cross(Sub(torso, leftShoulder), Sub(rightShoulder, leftShoulder)) == Zero
  }

  /** The foot of the perpendicular from the torso onto the shoulder line
      (the `crossPoint`): the line left + lambda (right - left) is cut with
      the plane through the torso whose normal is the shoulder axis. */
  function ShoulderLineFoot(torso: Vec3, leftShoulder: Vec3, rightShoulder: Vec3): (foot: Vec3)
    requires leftShoulder != rightShoulder
    ensures Cross(Sub(foot, leftShoulder), Sub(rightShoulder, leftShoulder)) == Zero
    ensures Dot(Sub(foot, torso), Sub(rightShoulder, leftShoulder)) == 0.0
  {
    var x := Sub(rightShoulder, leftShoulder);
    DotSelfZero(x);
    var lambda := (Dot(torso, x) - Dot(x, leftShoulder)) / Dot(x, x);
    assert lambda * Dot(x, x) == Dot(torso, x) - Dot(x, leftShoulder);
    var foot := Add(leftShoulder, Scale(lambda, x));
    assert Sub(foot, leftShoulder) == Scale(lambda, x);
    CrossScale(x, lambda, x);
    assert Cross(Scale(lambda, x), x) == Zero;
    assert Dot(Sub(foot, torso), x) == Dot(leftShoulder, x) + lambda * Dot(x, x) - Dot(torso, x);
    foot
  }

  /** The foot of the perpendicular is the only point of the shoulder line
      whose offset from the torso is orthogonal to the shoulder axis. */
  lemma ShoulderLineFootUnique(torso: Vec3, leftShoulder: Vec3, rightShoulder: Vec3, mu: real, y: Vec3)
    requires leftShoulder != rightShoulder
    requires Add(torso, y) == Add(leftShoulder, Scale(mu, Sub(rightShoulder, leftShoulder)))
    requires Dot(y, Sub(rightShoulder, leftShoulder)) == 0.0
    ensures y == Sub(ShoulderLineFoot(torso, leftShoulder, rightShoulder), torso)
  {
    var x := Sub(rightShoulder, leftShoulder);
    DotSelfZero(x);
    var lambda := (Dot(torso, x) - Dot(x, leftShoulder)) / Dot(x, x);
    assert y == Sub(Add(leftShoulder, Scale(mu, x)), torso);
    assert Dot(y, x) == Dot(leftShoulder, x) + mu * Dot(x, x) - Dot(torso, x);
    assert mu * Dot(x, x) == lambda * Dot(x, x);
    assert mu == lambda;
  }

  /** The unnormalised axes: X runs from the left to the right shoulder, Y
      from the torso to the shoulder line, Z = X x Y (taken before the
      normalisation). */
  function FrameAxes(torso: Vec3, leftShoulder: Vec3, rightShoulder: Vec3): (r: Result<Axes>)
    ensures r.Err? <==> leftShoulder == rightShoulder
    ensures r.Ok? ==> Dot(r.value.x, r.value.y) == 0.0
    ensures r.Ok? ==> Dot(r.value.z, r.value.x) == 0.0 && Dot(r.value.z, r.value.y) == 0.0
    ensures r.Ok? ==> (r.value.y == Zero <==> TorsoOnShoulderLine(torso, leftShoulder, rightShoulder))
  {
    if leftShoulder == rightShoulder then
      Err(CoincidentShoulders)
    else
      var x := Sub(rightShoulder, leftShoulder);
      var foot := ShoulderLineFoot(torso, leftShoulder, rightShoulder);
      var y := Sub(foot, torso);
      DotSymmetric(y, x);
      CrossOrthogonal(x, y);
      OnShoulderLineIff(torso, leftShoulder, rightShoulder);
      SubZero(foot, torso);
      Ok(Axes(x, y, Cross(x, y)))
  }

  /** The perpendicular from the torso has zero length exactly when the torso
      already lies on the shoulder line. */
  lemma OnShoulderLineIff(torso: Vec3, leftShoulder: Vec3, rightShoulder: Vec3)
    requires leftShoulder != rightShoulder
    ensures ShoulderLineFoot(torso, leftShoulder, rightShoulder) == torso
            <==> TorsoOnShoulderLine(torso, leftShoulder, rightShoulder)
  {
    var x := Sub(rightShoulder, leftShoulder);
    var u := Sub(torso, leftShoulder);
    var foot := ShoulderLineFoot(torso, leftShoulder, rightShoulder);
    if TorsoOnShoulderLine(torso, leftShoulder, rightShoulder) {
      var mu := ParallelMultiple(u, x);
      assert Add(torso, Zero) == Add(leftShoulder, Scale(mu, x));
      ShoulderLineFootUnique(torso, leftShoulder, rightShoulder, mu, Zero);
    }
  }

  /** A vector whose cross product with a non-zero x vanishes is a multiple
      of x. */
  lemma ParallelMultiple(u: Vec3, x: Vec3) returns (mu: real)
    requires x != Zero && Cross(u, x) == Zero
    ensures u == Scale(mu, x)
  {
    DotSelfZero(x);
    // x x (u x x) = (x.x) u - (x.u) x, and u x x vanishes
    CrossCross(x, u, x);
    mu := DivideScales(Dot(x, x), u, Dot(x, u), x);
  }

  /** `d u == c x` with `d` non-zero makes `u` the multiple `c / d` of `x`. */
  lemma DivideScales(d: real, u: Vec3, c: real, x: Vec3) returns (mu: real)
    requires d != 0.0 && Scale(d, u) == Scale(c, x)
    ensures u == Scale(mu, x)
  {
    mu := c / d;
    EqualScales(d, u, c, x);
    DivideOut(d, c, mu, u.x, x.x);
    DivideOut(d, c, mu, u.y, x.y);
    DivideOut(d, c, mu, u.z, x.z);
    ScaleByCoordinates(mu, x, u);
  }

  lemma EqualScales(d: real, u: Vec3, c: real, x: Vec3)
    requires Scale(d, u) == Scale(c, x)
    ensures d * u.x == c * x.x && d * u.y == c * x.y && d * u.z == c * x.z
  {
  }

  lemma DivideOut(d: real, c: real, mu: real, a: real, b: real)
    requires d != 0.0 && d * a == c * b && mu == c / d
    ensures a == mu * b
  {
  }

  lemma ScaleByCoordinates(mu: real, x: Vec3, u: Vec3)
    requires u.x == mu * x.x && u.y == mu * x.y && u.z == mu * x.z
    ensures u == Scale(mu, x)
  {
  }

  /** The reciprocal lengths fit the unnormalised axes of this skeleton. */
  predicate ScalesFit(torso: Vec3, leftShoulder: Vec3, rightShoulder: Vec3, k: AxisScales) {
    match FrameAxes(torso, leftShoulder, rightShoulder)
    case Err(_) => true
    case Ok(a) => IsInverseLength(a.x, k.kx) && IsInverseLength(a.y, k.ky) && IsInverseLength(a.z, k.kz)
  }

  /** A right-handed orthonormal frame: unit X and Y at right angles and
      Z = X x Y. */
  predicate IsOrthonormal(f: LocalFrame) {
    IsUnit(f.x) && IsUnit(f.y) && Dot(f.x, f.y) == 0.0 && f.z == Cross(f.x, f.y)
  }

  /** `calculateLocalCoordSys`: the origin is the torso, the axes are the
      unnormalised axes scaled to unit length (a zero axis stays zero). */
  function CalculateLocalCoordSys(torso: Vec3, leftShoulder: Vec3, rightShoulder: Vec3, k: AxisScales): (r: Result<LocalFrame>)
    requires ScalesFit(torso, leftShoulder, rightShoulder, k)
    ensures r.Err? <==> leftShoulder == rightShoulder
    ensures r.Ok? ==> r.value.origin == torso
    ensures r.Ok? ==> IsUnit(r.value.x) && Cross(r.value.x, Sub(rightShoulder, leftShoulder)) == Zero
                      && Dot(r.value.x, Sub(rightShoulder, leftShoulder)) > 0.0
    ensures r.Ok? ==> (IsOrthonormal(r.value) <==> !TorsoOnShoulderLine(torso, leftShoulder, rightShoulder))
    ensures r.Ok? && TorsoOnShoulderLine(torso, leftShoulder, rightShoulder) ==> r.value.y == Zero && r.value.z == Zero
    ensures r.Ok? && !TorsoOnShoulderLine(torso, leftShoulder, rightShoulder) ==>
              var foot := ShoulderLineFoot(torso, leftShoulder, rightShoulder);
              Cross(r.value.y, Sub(foot, torso)) == Zero && Dot(r.value.y, Sub(foot, torso)) > 0.0
  {
    match FrameAxes(torso, leftShoulder, rightShoulder)
    case Err(e) => Err(e)
    case Ok(a) =>
      var f := LocalFrame(torso, Scale(k.kx, a.x), Scale(k.ky, a.y), Scale(k.kz, a.z));
      NormalisedFrame(a, k, f);
      Ok(f)
  }

  /** What normalising the three axes achieves: unit X pointing along the
      raw X, and either an orthonormal frame or (raw Y zero) zero Y and Z. */
  lemma NormalisedFrame(a: Axes, k: AxisScales, f: LocalFrame)
    requires a.x != Zero && Dot(a.x, a.y) == 0.0 && a.z == Cross(a.x, a.y)
    requires IsInverseLength(a.x, k.kx) && IsInverseLength(a.y, k.ky) && IsInverseLength(a.z, k.kz)
    requires f.x == Scale(k.kx, a.x) && f.y == Scale(k.ky, a.y) && f.z == Scale(k.kz, a.z)
    ensures IsUnit(f.x) && Cross(f.x, a.x) == Zero && Dot(f.x, a.x) > 0.0
    ensures a.y == Zero ==> f.y == Zero && f.z == Zero && !IsOrthonormal(f)
    ensures a.y != Zero ==> IsOrthonormal(f) && Cross(f.y, a.y) == Zero && Dot(f.y, a.y) > 0.0
  {
    NormalisedAxis(a.x, k.kx);
    if a.y == Zero {
      ZeroAbsorbs(k.ky, a.x);
      ZeroAbsorbs(k.kz, a.x);
      assert !IsUnit(f.y);
    } else {
      NormalisedAxis(a.y, k.ky);
      NormalisedStayOrthogonal(a.x, a.y, k.kx, k.ky);
      NormalisedCross(a, k);
    }
  }

  /** A non-zero axis scaled by its inverse length is a unit vector pointing
      the same way. */
  lemma NormalisedAxis(v: Vec3, k: real)
    requires v != Zero && IsInverseLength(v, k)
    ensures IsUnit(Scale(k, v)) && Cross(Scale(k, v), v) == Zero && Dot(Scale(k, v), v) > 0.0
  {
    ScaleInverseLength(v, k);
    ScalePositiveSameDirection(k, v);
    PositiveAlongNonZero(k, v);
  }

  lemma NormalisedStayOrthogonal(x: Vec3, y: Vec3, kx: real, ky: real)
    requires Dot(x, y) == 0.0
    ensures Dot(Scale(kx, x), Scale(ky, y)) == 0.0
  {
    calc {
      Dot(Scale(kx, x), Scale(ky, y));
      { DotScaleLeft(kx, x, Scale(ky, y)); }
      kx * Dot(x, Scale(ky, y));
      { DotSymmetric(x, Scale(ky, y)); DotScaleLeft(ky, y, x); DotSymmetric(y, x); }
      kx * (ky * Dot(x, y));
      0.0;
    }
  }

  /** Z scaled by kz = kx ky is the cross product of the scaled X and Y. */
  lemma NormalisedCross(a: Axes, k: AxisScales)
    requires a.x != Zero && a.y != Zero && Dot(a.x, a.y) == 0.0 && a.z == Cross(a.x, a.y)
    requires IsInverseLength(a.x, k.kx) && IsInverseLength(a.y, k.ky) && IsInverseLength(a.z, k.kz)
    ensures Scale(k.kz, a.z) == Cross(Scale(k.kx, a.x), Scale(k.ky, a.y))
  {
    NormalisedZScale(a, k);
    CrossOfScaled(a.x, a.y, k.kx, k.ky);
  }

  /** The scale that normalises Z = X x Y, for orthogonal non-zero X and Y,
      is the product of the scales that normalise X and Y. */
  lemma NormalisedZScale(a: Axes, k: AxisScales)
    requires a.x != Zero && a.y != Zero && Dot(a.x, a.y) == 0.0 && a.z == Cross(a.x, a.y)
    requires IsInverseLength(a.x, k.kx) && IsInverseLength(a.y, k.ky) && IsInverseLength(a.z, k.kz)
    ensures k.kz == k.kx * k.ky
  {
    CrossLengthOrthogonal(a.x, a.y);
    var da, db := Dot(a.x, a.x), Dot(a.y, a.y);
    DotSelfZero(a.x);
    DotSelfZero(a.y);
    assert da * db != 0.0;
    assert a.z != Zero by {
      assert Dot(a.z, a.z) == da * db;
    }
    InverseLengthProduct(k.kx, k.ky, k.kz, da, db);
  }

  /** A positive multiple of a non-zero vector has a positive dot product
      with it. */
  lemma PositiveAlongNonZero(k: real, v: Vec3)
    requires k > 0.0 && v != Zero
    ensures Dot(Scale(k, v), v) > 0.0
  {
    var d := Dot(v, v);
    DotSelfZero(v);
    assert Dot(Scale(k, v), v) == k * d;
    calc { k * d; > { assert k > 0.0 && d > 0.0; } 0.0; }
  }

  lemma CrossAntisymmetric(a: Vec3, b: Vec3)
    ensures Cross(a, b) == Neg(Cross(b, a))
  {
  }

  /** `transformCoordSys`: the local-to-global map, whose columns are the
      three axes and the origin. */
  function FrameMatrix(f: LocalFrame): (m: Mat4)
    ensures ColumnX(m) == f.x && ColumnY(m) == f.y && ColumnZ(m) == f.z
    ensures Transform(m, Zero) == f.origin
    ensures m.m30 == 0.0 && m.m31 == 0.0 && m.m32 == 0.0 && m.m33 == 1.0
  {
    Mat4(f.x.x, f.y.x, f.z.x, f.origin.x,
         f.x.y, f.y.y, f.z.y, f.origin.y,
         f.x.z, f.y.z, f.z.z, f.origin.z,
         0.0, 0.0, 0.0, 1.0)
  }

  /** `transformCoordSysInv`: `PMatrix3D.invert()` applied to the forward
      matrix. For an orthonormal frame the inverse exists and is the
      transposed rotation with the origin moved back; otherwise `invert()`
      reports failure and leaves the copied forward matrix as it was. */
  function InverseFrameMatrix(f: LocalFrame): (m: Mat4)
    ensures !IsOrthonormal(f) ==> m == FrameMatrix(f)
  {
    if IsOrthonormal(f) then
      Mat4(f.x.x, f.x.y, f.x.z, -Dot(f.x, f.origin),
           f.y.x, f.y.y, f.y.z, -Dot(f.y, f.origin),
           f.z.x, f.z.y, f.z.z, -Dot(f.z, f.origin),
           0.0, 0.0, 0.0, 1.0)
    else
      FrameMatrix(f)
  }

  /** Every frame `CalculateLocalCoordSys` builds is either orthonormal, and
      its forward matrix has determinant 1, or has zero Y and Z axes, and its
      forward matrix is singular, which is when `invert()` fails. */
  lemma FrameMatrixDeterminant(torso: Vec3, leftShoulder: Vec3, rightShoulder: Vec3, k: AxisScales)
    requires ScalesFit(torso, leftShoulder, rightShoulder, k)
    ensures var c := CalculateLocalCoordSys(torso, leftShoulder, rightShoulder, k);
            c.Ok? ==> AffineDeterminant(FrameMatrix(c.value)) == (if IsOrthonormal(c.value) then 1.0 else 0.0)
  {
    var c := CalculateLocalCoordSys(torso, leftShoulder, rightShoulder, k);
    if c.Ok? {
      var f := c.value;
      assert IsOrthonormal(f) || (f.y == Zero && f.z == Zero);
      FrameDeterminant(f);
    }
  }

  /** The determinant of a frame's forward matrix: 1 for an orthonormal
      frame, 0 for one whose Y and Z axes are zero. */
  lemma FrameDeterminant(f: LocalFrame)
    requires IsOrthonormal(f) || (f.y == Zero && f.z == Zero)
    ensures AffineDeterminant(FrameMatrix(f)) == (if IsOrthonormal(f) then 1.0 else 0.0)
  {
    assert AffineDeterminant(FrameMatrix(f)) == Dot(f.x, Cross(f.y, f.z));
    if IsOrthonormal(f) {
      CrossLengthOrthogonal(f.x, f.y);
      CrossCross(f.y, f.x, f.y);
      assert Cross(f.y, f.z) == Sub(Scale(Dot(f.y, f.y), f.x), Scale(Dot(f.y, f.x), f.y));
      assert Cross(f.y, f.z) == f.x;
    } else {
      assert Cross(f.y, f.z) == Zero;
    }
  }

  /** `getJointLCS`: a global point in local coordinates. */
  function GetJointLCS(f: LocalFrame, p: Vec3): (l: Vec3)
    ensures IsOrthonormal(f) ==> Transform(FrameMatrix(f), l) == p
    ensures IsOrthonormal(f) ==>
              l == Vec3(Dot(Sub(p, f.origin), f.x), Dot(Sub(p, f.origin), f.y), Dot(Sub(p, f.origin), f.z))
    ensures p == f.origin && IsOrthonormal(f) ==> l == Zero
    ensures !IsOrthonormal(f) ==> l == Transform(FrameMatrix(f), p)
  {
    var l := Transform(InverseFrameMatrix(f), p);
    if IsOrthonormal(f) then
      InverseUndoesForward(f, p);
      l
    else
      l
  }

  lemma InverseUndoesForward(f: LocalFrame, p: Vec3)
    requires IsOrthonormal(f)
    ensures var l := Transform(InverseFrameMatrix(f), p);
            Transform(FrameMatrix(f), l) == p
            && l == Vec3(Dot(Sub(p, f.origin), f.x), Dot(Sub(p, f.origin), f.y), Dot(Sub(p, f.origin), f.z))
  {
    var l := Transform(InverseFrameMatrix(f), p);
    var q := Sub(p, f.origin);
    assert l == Vec3(Dot(q, f.x), Dot(q, f.y), Dot(q, f.z));
    OrthonormalExpansion(f.x, f.y, q);
    assert Transform(FrameMatrix(f), l) == Add(q, f.origin);
  }

  /** The other direction of the round trip: a point given in local
      coordinates and mapped to global ones comes back unchanged. */
  lemma LocalGlobalRoundTrip(f: LocalFrame, l: Vec3)
    requires IsOrthonormal(f)
    ensures GetJointLCS(f, Transform(FrameMatrix(f), l)) == l
  {
    var p := Transform(FrameMatrix(f), l);
    var q := Sub(p, f.origin);
    assert q == Add(Add(Scale(l.x, f.x), Scale(l.y, f.y)), Scale(l.z, f.z));
    CrossOrthogonal(f.x, f.y);
    CrossLengthOrthogonal(f.x, f.y);
    assert Dot(f.z, f.z) == 1.0;
    DotSymmetric(f.x, f.y);
    DotSymmetric(f.x, f.z);
    DotSymmetric(f.y, f.z);
    ExpandDot(l, f.x, f.y, f.z, f.x);
    ExpandDot(l, f.x, f.y, f.z, f.y);
    ExpandDot(l, f.x, f.y, f.z, f.z);
  }

  /** The dot product of a combination of three vectors with a fourth. */
  lemma ExpandDot(l: Vec3, a: Vec3, b: Vec3, c: Vec3, e: Vec3)
    ensures Dot(Add(Add(Scale(l.x, a), Scale(l.y, b)), Scale(l.z, c)), e)
            == l.x * Dot(a, e) + l.y * Dot(b, e) + l.z * Dot(c, e)
  {
    DotAddLeft(Add(Scale(l.x, a), Scale(l.y, b)), Scale(l.z, c), e);
    DotAddLeft(Scale(l.x, a), Scale(l.y, b), e);
    DotScaleLeft(l.x, a, e);
    DotScaleLeft(l.y, b, e);
    DotScaleLeft(l.z, c, e);
  }

  // ---------------------------------------------------------------------
  // Body planes

  /** The signed distance of a point from a plane, r . n0 - d; zero on the
      plane. It is a true distance when n0 is a unit vector. */
  function SignedDistance(plane: BodyPlane, p: Vec3): real {
    Dot(p, plane.n0) - plane.d
  }

  /** `calculateBodyPlanes`: all three planes pass through the origin of the
      local frame; the sagittal plane is normal to X, the frontal plane to Z
      and the transversal plane to Y. */
  function CalculateBodyPlanes(f: LocalFrame): (planes: BodyPlanes)
    ensures planes.sagittal.r == f.origin && planes.frontal.r == f.origin && planes.transversal.r == f.origin
    ensures planes.sagittal.n0 == f.x && planes.frontal.n0 == f.z && planes.transversal.n0 == f.y
    ensures SignedDistance(planes.sagittal, f.origin) == 0.0
    ensures SignedDistance(planes.frontal, f.origin) == 0.0
    ensures SignedDistance(planes.transversal, f.origin) == 0.0
  {
    BodyPlanes(BodyPlane(f.origin, f.x, Dot(f.origin, f.x)),
               BodyPlane(f.origin, f.z, Dot(f.origin, f.z)),
               BodyPlane(f.origin, f.y, Dot(f.origin, f.y)))
  }

  /** Over an orthonormal frame, the signed distance from each body plane is
      the matching local coordinate: sagittal X, transversal Y, frontal Z. */
  lemma BodyPlaneDistanceIsLocalCoordinate(f: LocalFrame, p: Vec3)
    requires IsOrthonormal(f)
    ensures SignedDistance(CalculateBodyPlanes(f).sagittal, p) == GetJointLCS(f, p).x
    ensures SignedDistance(CalculateBodyPlanes(f).transversal, p) == GetJointLCS(f, p).y
    ensures SignedDistance(CalculateBodyPlanes(f).frontal, p) == GetJointLCS(f, p).z
  {
    var q := Sub(p, f.origin);
    assert Dot(q, f.x) == Dot(p, f.x) - Dot(f.origin, f.x);
    assert Dot(q, f.y) == Dot(p, f.y) - Dot(f.origin, f.y);
    assert Dot(q, f.z) == Dot(p, f.z) - Dot(f.origin, f.z);
  }

  // ---------------------------------------------------------------------
  // Mirroring across the sagittal plane

  /** `mirrorJointVector`: move the point twice its signed distance against
      the normal. */
  function MirrorJointVector(plane: BodyPlane, p: Vec3): (q: Vec3)
    ensures IsUnit(plane.n0) ==> SignedDistance(plane, q) == -SignedDistance(plane, p)
    ensures SignedDistance(plane, p) == 0.0 ==> q == p
    ensures Cross(Sub(q, p), plane.n0) == Zero
  {
    var dist := SignedDistance(plane, p);
    var q := Add(p, Scale(-2.0 * dist, plane.n0));
    assert Dot(q, plane.n0) == Dot(p, plane.n0) - 2.0 * dist * Dot(plane.n0, plane.n0);
    assert Sub(q, p) == Scale(-2.0 * dist, plane.n0);
    CrossScale(plane.n0, -2.0 * dist, plane.n0);
    CrossAntisymmetric(Sub(q, p), plane.n0);
    q
  }

  /** Mirroring twice across a plane with a unit normal is the identity. */
  lemma MirrorJointVectorInvolution(plane: BodyPlane, p: Vec3)
    requires IsUnit(plane.n0)
    ensures MirrorJointVector(plane, MirrorJointVector(plane, p)) == p
  {
    var q := MirrorJointVector(plane, p);
    assert q == Add(p, Scale(-2.0 * SignedDistance(plane, p), plane.n0));
    assert MirrorJointVector(plane, q) == Add(q, Scale(2.0 * SignedDistance(plane, p), plane.n0));
  }

  /** Mirroring keeps the distance between any two points. */
  lemma MirrorPreservesDistance(plane: BodyPlane, p: Vec3, q: Vec3)
    requires IsUnit(plane.n0)
    ensures var u := Sub(MirrorJointVector(plane, p), MirrorJointVector(plane, q));
            Dot(u, u) == Dot(Sub(p, q), Sub(p, q))
  {
    MirrorDifference(plane, p, q);
    ReflectLength(plane.n0, Sub(p, q));
  }

  /** The difference of two mirrored points is the reflected difference. */
  lemma MirrorDifference(plane: BodyPlane, p: Vec3, q: Vec3)
    ensures Sub(MirrorJointVector(plane, p), MirrorJointVector(plane, q)) == Reflect(plane.n0, Sub(p, q))
  {
    var n := plane.n0;
    var dp, dq := SignedDistance(plane, p), SignedDistance(plane, q);
    var t := Dot(Sub(p, q), n);
    DotSubLeft(p, q, n);
    assert dp - dq == t;
    ShiftDifference(p, q, -2.0 * dp, -2.0 * dq, n);
    assert -2.0 * dp - -2.0 * dq == -(2.0 * t);
  }

  /** A reflection keeps the squared length of a direction. */
  lemma ReflectLength(n: Vec3, w: Vec3)
    requires IsUnit(n)
    ensures Dot(Reflect(n, w), Reflect(n, w)) == Dot(w, w)
  {
    var t := Dot(w, n);
    var s := Scale(2.0 * t, n);
    var u := Reflect(n, w);
    DotSubLeft(w, s, u);
    DotScaleLeft(2.0 * t, n, u);
    DotSymmetric(w, u);
    DotSymmetric(n, u);
    DotSubLeft(w, s, w);
    DotSubLeft(w, s, n);
    DotScaleLeft(2.0 * t, n, w);
    DotScaleLeft(2.0 * t, n, n);
    DotSymmetric(n, w);
    assert Dot(u, w) == Dot(w, w) - 2.0 * t * t;
    assert Dot(u, n) == t - 2.0 * t;
  }

  /** In the local frame, mirroring across the sagittal plane negates the X
      coordinate and keeps Y and Z: left and right swap, up and forward stay. */
  lemma MirrorNegatesLocalX(f: LocalFrame, p: Vec3)
    requires IsOrthonormal(f)
    ensures var l := GetJointLCS(f, p);
            GetJointLCS(f, MirrorJointVector(CalculateBodyPlanes(f).sagittal, p)) == Vec3(-l.x, l.y, l.z)
  {
    var plane := CalculateBodyPlanes(f).sagittal;
    var dist := SignedDistance(plane, p);
    var q := MirrorJointVector(plane, p);
    assert Sub(q, f.origin) == Add(Sub(p, f.origin), Scale(-2.0 * dist, f.x));
    BodyPlaneDistanceIsLocalCoordinate(f, p);
    CrossOrthogonal(f.x, f.y);
    var s := Sub(p, f.origin);
    DotAddScaleLeft(s, -2.0 * dist, f.x, f.x);
    DotAddScaleLeft(s, -2.0 * dist, f.x, f.y);
    DotAddScaleLeft(s, -2.0 * dist, f.x, f.z);
    assert Dot(Sub(q, f.origin), f.x) == Dot(s, f.x) - 2.0 * dist;
    assert Dot(Sub(q, f.origin), f.y) == Dot(s, f.y);
    assert Dot(Sub(q, f.origin), f.z) == Dot(s, f.z);
  }

  /** The reflection of a direction (not a point) in a plane through the
      origin with normal n0. */
  function Reflect(n0: Vec3, v: Vec3): Vec3 {
    Sub(v, Scale(2.0 * Dot(v, n0), n0))
  }

  lemma ReflectInvolution(n0: Vec3, v: Vec3)
    requires IsUnit(n0)
    ensures Reflect(n0, Reflect(n0, v)) == v
  {
    var t := Dot(v, n0);
    assert Dot(Reflect(n0, v), n0) == t - 2.0 * t * Dot(n0, n0);
  }

  /** One column of `mirrorOrientationMatrix`: the column is shifted by r,
      mirrored as a point, and shifted back. */
  function MirrorColumn(plane: BodyPlane, v: Vec3): (w: Vec3)
    ensures plane.d == Dot(plane.r, plane.n0) ==> w == Reflect(plane.n0, v)
  {
    MirrorColumnReflects(plane, v);
    Sub(MirrorJointVector(plane, Add(v, plane.r)), plane.r)
  }

  lemma MirrorColumnReflects(plane: BodyPlane, v: Vec3)
    ensures plane.d == Dot(plane.r, plane.n0) ==>
              Sub(MirrorJointVector(plane, Add(v, plane.r)), plane.r) == Reflect(plane.n0, v)
  {
    if plane.d == Dot(plane.r, plane.n0) {
      var n := plane.n0;
      var t := Dot(v, n);
      DotAddLeft(v, plane.r, n);
      assert SignedDistance(plane, Add(v, plane.r)) == t;
      var q := MirrorJointVector(plane, Add(v, plane.r));
      assert q == Add(Add(v, plane.r), Scale(-2.0 * t, n));
      assert Sub(q, plane.r) == Sub(v, Scale(2.0 * t, n));
    }
  }

  /** `mirrorOrientationMatrix`: the three axis columns are mirrored, the X
      column negated as well; the translation column and the bottom row are
      copied. */
  function MirrorOrientationMatrix(plane: BodyPlane, m: Mat4): (mirrored: Mat4)
    ensures mirrored.m03 == m.m03 && mirrored.m13 == m.m13 && mirrored.m23 == m.m23
    ensures mirrored.m30 == m.m30 && mirrored.m31 == m.m31 && mirrored.m32 == m.m32 && mirrored.m33 == m.m33
    ensures plane.d == Dot(plane.r, plane.n0) ==>
              ColumnX(mirrored) == Neg(Reflect(plane.n0, ColumnX(m)))
              && ColumnY(mirrored) == Reflect(plane.n0, ColumnY(m))
              && ColumnZ(mirrored) == Reflect(plane.n0, ColumnZ(m))
  {
    var x := MirrorColumn(plane, ColumnX(m));
    var y := MirrorColumn(plane, ColumnY(m));
    var z := MirrorColumn(plane, ColumnZ(m));
    Mat4(-x.x, y.x, z.x, m.m03,
         -x.y, y.y, z.y, m.m13,
         -x.z, y.z, z.z, m.m23,
         m.m30, m.m31, m.m32, m.m33)
  }

  /** Mirroring an orientation twice across a plane in Hesse normal form with
      a unit normal returns the original matrix. */
  lemma MirrorOrientationInvolution(plane: BodyPlane, m: Mat4)
    requires IsUnit(plane.n0) && plane.d == Dot(plane.r, plane.n0)
    ensures MirrorOrientationMatrix(plane, MirrorOrientationMatrix(plane, m)) == m
  {
    var n := plane.n0;
    var once := MirrorOrientationMatrix(plane, m);
    var twice := MirrorOrientationMatrix(plane, once);
    ReflectInvolution(n, ColumnY(m));
    ReflectInvolution(n, ColumnZ(m));
    ReflectInvolution(n, ColumnX(m));
    ReflectNeg(n, Reflect(n, ColumnX(m)));
    assert ColumnX(twice) == ColumnX(m);
    assert ColumnY(twice) == ColumnY(m);
    assert ColumnZ(twice) == ColumnZ(m);
  }

  lemma ReflectNeg(n0: Vec3, v: Vec3)
    ensures Reflect(n0, Neg(v)) == Neg(Reflect(n0, v))
  {
    DotNegLeft(v, n0);
  }

  // ---------------------------------------------------------------------

  /** `isValueBetween`: the closed interval test. */
  predicate IsValueBetween(val: real, lowerBound: real, upperBound: real) {
    val >= lowerBound && val <= upperBound
  }

  /** Both bounds belong to a non-empty interval, and widening it never drops
      a value it held. */
  lemma IsValueBetweenInclusiveAndWidening(val: real, lo: real, hi: real, lo2: real, hi2: real)
    requires lo <= hi
    ensures IsValueBetween(lo, lo, hi) && IsValueBetween(hi, lo, hi)
    ensures lo2 <= lo && hi <= hi2 && IsValueBetween(val, lo, hi) ==> IsValueBetween(val, lo2, hi2)
  {
  }
}
