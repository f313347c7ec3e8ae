/** The upper-body posture classifier (`SkeletonPosture`): a first-match
    cascade of closed-interval tests on angles between arm vectors and the
    local axes, every window widened by a clamped tolerance. Angles are in
    degrees and come from a caller-supplied `AngleFn`. */
module SkeletonPosture {
  import opened Vectors
  import opened SkeletonMath

  datatype Posture =
    | NoPose
    | VShape
    | AShape
    | UShape
    | NShape
    | MShape
    | WShape
    | OShape
    | IShape
    | HandsForwardDown

  /** The posture tolerance in [0, 1] and the angle tolerance derived from
      it: 20 degrees times the tolerance. */
  datatype PostureTolerance = PostureTolerance(tolerance: real, angleTolerance: real)

  const DefaultTolerance: real := 0.3

  /** The field initialisers: tolerance 0.3, angle tolerance 20 degrees times
      0.3. */
  const InitialTolerance := PostureTolerance(DefaultTolerance, 20.0 * DefaultTolerance)

  predicate ValidTolerance(t: PostureTolerance) {
    0.0 <= t.tolerance <= 1.0 && t.angleTolerance == 20.0 * t.tolerance
  }

  /** `setPostureTolerance`: values outside [0, 1] fall back to 0.3. */
  function SetPostureTolerance(value: real): (t: PostureTolerance)
    ensures ValidTolerance(t)
    ensures 0.0 <= t.angleTolerance <= 20.0
    ensures 0.0 <= value <= 1.0 ==> t.tolerance == value
    ensures !(0.0 <= value <= 1.0) ==> t == InitialTolerance
  {
    var tolerance := if value >= 0.0 && value <= 1.0 then value else DefaultTolerance;
    PostureTolerance(tolerance, 20.0 * tolerance)
  }

  /** Setting the tolerance a setter produced changes nothing, and the
      initial settings are what the setter makes of the default. */
  lemma SetPostureToleranceIdempotent(value: real)
    ensures SetPostureTolerance(SetPostureTolerance(value).tolerance) == SetPostureTolerance(value)
    ensures SetPostureTolerance(DefaultTolerance) == InitialTolerance
    ensures ValidTolerance(InitialTolerance)
  {
  }

  /** What the classifier reads from the skeleton, all in local
      coordinates: the four arm vectors, both hand positions, and the local
      Y and Z axes. */
  datatype ArmsLocal = ArmsLocal(
    leftUpper: Vec3, leftLower: Vec3, rightUpper: Vec3, rightLower: Vec3,
    leftHand: Vec3, rightHand: Vec3, axisY: Vec3, axisZ: Vec3)

  /** `evaluateVShape`: both arms straight, the upper arms about 90 degrees
      apart, their sum along the body Y axis. */
  predicate IsVShape(a: ArmsLocal, angle: AngleFn, at: real) {
    IsValueBetween(angle(a.leftUpper, a.leftLower), 0.0, 10.0 + at)
    && IsValueBetween(angle(a.rightUpper, a.rightLower), 0.0, 10.0 + at)
    && IsValueBetween(angle(a.leftUpper, a.rightUpper), 85.0 - at, 95.0 + at)
    && IsValueBetween(angle(Add(a.leftUpper, a.rightUpper), a.axisY), 0.0, 15.0 + at)
  }

  /** `evaluateAShape`: as V, but the upper-arm sum points against the body
      Y axis. The second straightness test compares the right upper arm with
      the LEFT lower arm, as `SkeletonPosture.evaluateAShape` does. */
  predicate IsAShape(a: ArmsLocal, angle: AngleFn, at: real) {
    IsValueBetween(angle(a.leftUpper, a.leftLower), 0.0, 10.0 + at)
    && IsValueBetween(angle(a.rightUpper, a.leftLower), 0.0, 10.0 + at)
    && IsValueBetween(angle(a.leftUpper, a.rightUpper), 85.0 - at, 95.0 + at)
    && IsValueBetween(angle(Add(a.leftUpper, a.rightUpper), a.axisY), 165.0 - at, 180.0)
  }

  /** `evaluateUShape`: elbows bent about 90 degrees, upper arms in one
      line, the left lower arm along the body Y axis. */
  predicate IsUShape(a: ArmsLocal, angle: AngleFn, at: real) {
    IsValueBetween(angle(a.leftUpper, a.leftLower), 85.0 - at, 95.0 + at)
    && IsValueBetween(angle(a.rightUpper, a.rightLower), 85.0 - at, 95.0 + at)
    && IsValueBetween(angle(a.leftUpper, a.rightUpper), 170.0 - at, 180.0)
    && IsValueBetween(angle(a.leftLower, a.axisY), 0.0, 15.0 + at)
  }

  /** `evaluateNShape`: as U, with the left lower arm against the Y axis. */
  predicate IsNShape(a: ArmsLocal, angle: AngleFn, at: real) {
    IsValueBetween(angle(a.leftUpper, a.leftLower), 85.0 - at, 95.0 + at)
    && IsValueBetween(angle(a.rightUpper, a.rightLower), 85.0 - at, 95.0 + at)
    && IsValueBetween(angle(a.leftUpper, a.rightUpper), 170.0 - at, 180.0)
    && IsValueBetween(angle(a.leftLower, a.axisY), 165.0 - at, 180.0)
  }

  /** `evaluateMShape` and `evaluateWShape` are unimplemented stubs. */
  predicate IsMShape(a: ArmsLocal, angle: AngleFn, at: real) {
    false
  }

  predicate IsWShape(a: ArmsLocal, angle: AngleFn, at: real) {
    false
  }

  /** `evaluateOShape`: the hands at most 100 + 100 * tolerance apart (tested
      first), upper arms about 45 degrees from the Y axis, elbows about 100
      degrees, the upper-arm sum along the Y axis. */
  predicate IsOShape(a: ArmsLocal, angle: AngleFn, t: PostureTolerance) {
    var at := t.angleTolerance;
    LengthAtMost(Sub(a.rightHand, a.leftHand), 100.0 + 100.0 * t.tolerance)
    && IsValueBetween(angle(a.leftUpper, a.axisY), 40.0 - at, 50.0 + at)
    && IsValueBetween(angle(a.rightUpper, a.axisY), 40.0 - at, 50.0 + at)
    && IsValueBetween(angle(a.leftLower, a.leftUpper), 95.0 - at, 105.0 + at)
    && IsValueBetween(angle(a.rightLower, a.rightUpper), 95.0 - at, 105.0 + at)
    && IsValueBetween(angle(Add(a.leftUpper, a.rightUpper), a.axisY), 0.0, 15.0 + at)
  }

  /** `evaluateIShape`: both arms straight, parallel, along the Y axis. */
  predicate IsIShape(a: ArmsLocal, angle: AngleFn, at: real) {
    IsValueBetween(angle(a.leftUpper, a.leftLower), 0.0, 10.0 + at)
    && IsValueBetween(angle(a.rightUpper, a.rightLower), 0.0, 10.0 + at)
    && IsValueBetween(angle(a.leftUpper, a.rightUpper), 0.0, 15.0 + at)
    && IsValueBetween(angle(a.leftUpper, a.axisY), 0.0, 15.0 + at)
  }

  /** `evaluateHandsForwardDownPose`: arms straight and parallel, about 135
      degrees from the Y axis, and pointing forward: at least 90 degrees
      from the Z axis, a window the tolerance does not widen. */
  predicate IsHandsForwardDown(a: ArmsLocal, angle: AngleFn, at: real) {
    IsValueBetween(angle(a.leftUpper, a.leftLower), 0.0, 10.0 + at)
    && IsValueBetween(angle(a.rightUpper, a.rightLower), 0.0, 10.0 + at)
    && IsValueBetween(angle(a.leftUpper, a.rightUpper), 0.0, 15.0 + at)
    && IsValueBetween(angle(a.leftUpper, a.axisY), 130.0 - at, 140.0 + at)
    && IsValueBetween(angle(a.leftUpper, a.axisZ), 90.0, 180.0)
  }

  /** The predicate each posture is recognised by; `NoPose` has none. */
  predicate Holds(p: Posture, a: ArmsLocal, angle: AngleFn, t: PostureTolerance) {
    match p
    case NoPose => false
    case VShape => IsVShape(a, angle, t.angleTolerance)
    case AShape => IsAShape(a, angle, t.angleTolerance)
    case UShape => IsUShape(a, angle, t.angleTolerance)
    case NShape => IsNShape(a, angle, t.angleTolerance)
    case MShape => IsMShape(a, angle, t.angleTolerance)
    case WShape => IsWShape(a, angle, t.angleTolerance)
    case OShape => IsOShape(a, angle, t)
    case IShape => IsIShape(a, angle, t.angleTolerance)
    case HandsForwardDown => IsHandsForwardDown(a, angle, t.angleTolerance)
  }

  /** The order in which `evaluate` tries the postures. */
  const CascadeOrder: seq<Posture> :=
    [VShape, AShape, UShape, NShape, MShape, WShape, OShape, IShape, HandsForwardDown]

  /** `evaluate`: the first posture of the cascade whose predicate holds, or
      `NoPose` when none does. */
  function Evaluate(t: PostureTolerance, a: ArmsLocal, angle: AngleFn): (p: Posture)
    ensures p == NoPose <==> forall i :: 0 <= i < |CascadeOrder| ==> !Holds(CascadeOrder[i], a, angle, t)
    ensures p != NoPose ==>
              exists i :: 0 <= i < |CascadeOrder| && CascadeOrder[i] == p && Holds(p, a, angle, t)
                          && forall j :: 0 <= j < i ==> !Holds(CascadeOrder[j], a, angle, t)
  {
    var at := t.angleTolerance;
    var p :=
      if IsVShape(a, angle, at) then VShape
      else if IsAShape(a, angle, at) then AShape
      else if IsUShape(a, angle, at) then UShape
      else if IsNShape(a, angle, at) then NShape
      else if IsMShape(a, angle, at) then MShape
      else if IsWShape(a, angle, at) then WShape
      else if IsOShape(a, angle, t) then OShape
      else if IsIShape(a, angle, at) then IShape
      else if IsHandsForwardDown(a, angle, at) then HandsForwardDown
      else NoPose;
    CascadeWitness(t, a, angle, p);
    p
  }

  /** `p` is what the cascade yields for `a`: `NoPose` when no posture of
      the list holds, otherwise a posture that holds and that no earlier one
      of the list precedes. */
  predicate IsFirstMatch(p: Posture, a: ArmsLocal, angle: AngleFn, t: PostureTolerance) {
    (p == NoPose <==> forall i :: 0 <= i < |CascadeOrder| ==> !Holds(CascadeOrder[i], a, angle, t))
    && (p != NoPose ==>
          exists i :: 0 <= i < |CascadeOrder| && CascadeOrder[i] == p && Holds(p, a, angle, t)
                      && forall j :: 0 <= j < i ==> !Holds(CascadeOrder[j], a, angle, t))
  }

  lemma EvaluateIsFirstMatch(t: PostureTolerance, a: ArmsLocal, angle: AngleFn)
    ensures IsFirstMatch(Evaluate(t, a, angle), a, angle, t)
  {
  }

  /** The if-chain of `evaluate` and the ordered list agree. */
  lemma CascadeWitness(t: PostureTolerance, a: ArmsLocal, angle: AngleFn, p: Posture)
    requires var at := t.angleTolerance;
      p == (if IsVShape(a, angle, at) then VShape
            else if IsAShape(a, angle, at) then AShape
            else if IsUShape(a, angle, at) then UShape
            else if IsNShape(a, angle, at) then NShape
            else if IsMShape(a, angle, at) then MShape
            else if IsWShape(a, angle, at) then WShape
            else if IsOShape(a, angle, t) then OShape
            else if IsIShape(a, angle, at) then IShape
            else if IsHandsForwardDown(a, angle, at) then HandsForwardDown
            else NoPose)
    ensures p == NoPose <==> forall i :: 0 <= i < |CascadeOrder| ==> !Holds(CascadeOrder[i], a, angle, t)
    ensures p != NoPose ==>
              exists i :: 0 <= i < |CascadeOrder| && CascadeOrder[i] == p && Holds(p, a, angle, t)
                          && forall j :: 0 <= j < i ==> !Holds(CascadeOrder[j], a, angle, t)
  {
    var i := IndexOf(p);
    if p != NoPose {
      assert CascadeOrder[i] == p;
      forall j | 0 <= j < i
        ensures !Holds(CascadeOrder[j], a, angle, t)
      {
        assert CascadeOrder[j] != p;
      }
    }
  }

  /** Where a posture stands in the cascade; `NoPose` stands after all. */
  function IndexOf(p: Posture): (i: nat)
    ensures p != NoPose ==> i < |CascadeOrder| && CascadeOrder[i] == p
    ensures p == NoPose ==> i == |CascadeOrder|
  {
    match p
    case VShape => 0
    case AShape => 1
    case UShape => 2
    case NShape => 3
    case MShape => 4
    case WShape => 5
    case OShape => 6
    case IShape => 7
    case HandsForwardDown => 8
    case NoPose => 9
  }

  /** The M and W postures are never recognised. */
  lemma NeverMOrW(t: PostureTolerance, a: ArmsLocal, angle: AngleFn)
    ensures Evaluate(t, a, angle) != MShape && Evaluate(t, a, angle) != WShape
  {
  }

  /** V is recognised exactly when its three groups of tests pass. */
  lemma EvaluateVShapeIff(t: PostureTolerance, a: ArmsLocal, angle: AngleFn)
    ensures var at := t.angleTolerance;
            Evaluate(t, a, angle) == VShape <==>
              (0.0 <= angle(a.leftUpper, a.leftLower) <= 10.0 + at
               && 0.0 <= angle(a.rightUpper, a.rightLower) <= 10.0 + at)
              && 85.0 - at <= angle(a.leftUpper, a.rightUpper) <= 95.0 + at
              && 0.0 <= angle(Add(a.leftUpper, a.rightUpper), a.axisY) <= 15.0 + at
  {
  }

  /** Under a valid tolerance the body-axis windows of V and A, and of U and
      N, are disjoint, so neither pair can both hold. */
  lemma OppositeShapesExclusive(t: PostureTolerance, a: ArmsLocal, angle: AngleFn)
    requires ValidTolerance(t)
    ensures !(IsVShape(a, angle, t.angleTolerance) && IsAShape(a, angle, t.angleTolerance))
    ensures !(IsUShape(a, angle, t.angleTolerance) && IsNShape(a, angle, t.angleTolerance))
  {
  }

  /** The A shape does not look at the right lower arm at all. */
  lemma AShapeIgnoresRightLowerArm(a: ArmsLocal, angle: AngleFn, at: real, rightLower: Vec3)
    ensures IsAShape(a, angle, at) == IsAShape(a.(rightLower := rightLower), angle, at)
  {
  }

  /** O is recognised only with the hands close together, whatever the
      angles say. */
  lemma OShapeNeedsHandsClose(t: PostureTolerance, a: ArmsLocal, angle: AngleFn)
    requires Evaluate(t, a, angle) == OShape
    ensures LengthAtMost(Sub(a.rightHand, a.leftHand), 100.0 + 100.0 * t.tolerance)
  {
    assert Holds(OShape, a, angle, t);
  }

  /** The forward window of HANDS_FORWARD_DOWN is [90, 180] degrees at every
      tolerance. */
  lemma HandsForwardWindowFixed(t: PostureTolerance, a: ArmsLocal, angle: AngleFn)
    requires Evaluate(t, a, angle) == HandsForwardDown
    ensures 90.0 <= angle(a.leftUpper, a.axisZ) <= 180.0
  {
    assert Holds(HandsForwardDown, a, angle, t);
  }

  /** Raising the tolerance never loses a posture: every window only widens. */
  lemma ToleranceMonotone(p: Posture, a: ArmsLocal, angle: AngleFn, t: PostureTolerance, t2: PostureTolerance)
    requires ValidTolerance(t) && ValidTolerance(t2) && t.tolerance <= t2.tolerance
    requires Holds(p, a, angle, t)
    ensures Holds(p, a, angle, t2)
  {
    if p == OShape {
      LengthAtMostWiden(Sub(a.rightHand, a.leftHand), 100.0 + 100.0 * t.tolerance, 100.0 + 100.0 * t2.tolerance);
    }
  }
}
