/** The tracked skeleton (`Skeleton`): fifteen joints with positions,
    confidences, orientations and movement deltas, the arm vectors, the
    mirror-therapy mode, and one update step that reads the sensor, mirrors
    one body side onto the other, moves everything into the body's local
    frame and runs the posture and gesture recognisers. */
module Skeleton {
  import opened Vectors
  import opened SkeletonMath
  import SkeletonPosture
  import SkeletonGesture

  // ---------------------------------------------------------------------
  // Constants

  const MirrorTherapyOff: int := 0
  const MirrorTherapyLeft: int := 1
  const MirrorTherapyRight: int := 2

  const Head: int := 0
  const Neck: int := 1
  const LeftShoulder: int := 2
  const LeftElbow: int := 3
  const LeftHand: int := 4
  const RightShoulder: int := 5
  const RightElbow: int := 6
  const RightHand: int := 7
  const Torso: int := 8
  const LeftHip: int := 9
  const LeftKnee: int := 10
  const LeftFoot: int := 11
  const RightHip: int := 12
  const RightKnee: int := 13
  const RightFoot: int := 14

  const JointCount: nat := 15

  /** The range test of every joint getter. */
  predicate ValidJoint(j: int) {
    j >= 0 && j <= 14
  }

  /** Head to torso are always read; hips, knees and feet only with full
      body tracking. */
  predicate IsTracked(j: int, fullBodyTracking: bool) {
    j <= Torso || fullBodyTracking
  }

  // ---------------------------------------------------------------------
  // State

  datatype Config = Config(
    fullBodyTracking: bool,
    calculateLocalCoordSys: bool,
    evaluatePostureAndGesture: bool,
    mirrorTherapy: int,
    evaluateStatistics: bool)

  /** Upper and lower arm vectors of both sides: elbow minus shoulder and
      hand minus elbow. */
  datatype ArmVectors = ArmVectors(leftUpper: Vec3, leftLower: Vec3, rightUpper: Vec3, rightLower: Vec3)

  datatype SkeletonState = SkeletonState(
    config: Config,
    joints: seq<Vec3>,
    confidences: seq<real>,
    jointsLocal: seq<Vec3>,
    orientations: seq<Mat4>,
    orientationConfidences: seq<real>,
    deltas: seq<real>,
    arms: ArmVectors,
    armsLocal: ArmVectors,
    frame: LocalFrame,
    isUpdated: bool,
    updateCycle: int,
    frameCount: int,
    frameRate: real,
    mirrorPlaneCalculated: bool,
    localCoordSysCalculated: bool,
    postureEvaluated: bool,
    gestureEvaluated: bool,
    postureTolerance: SkeletonPosture.PostureTolerance,
    posture: SkeletonPosture.Posture,
    gesture: SkeletonGesture.GestureState)

  predicate ValidMirrorTherapy(mode: int) {
    mode >= MirrorTherapyOff && mode <= MirrorTherapyRight
  }

  /** Every per-joint array has fifteen entries, the mirror mode is one of
      the three constants, and no gesture is dated at or after the current
      update cycle. */
  predicate WellFormed(s: SkeletonState) {
    ArraysWellFormed(s) && s.gesture.lastFrame < s.updateCycle
  }

  predicate ArraysWellFormed(s: SkeletonState) {
    |s.joints| == JointCount && |s.confidences| == JointCount && |s.jointsLocal| == JointCount
    && |s.orientations| == JointCount && |s.orientationConfidences| == JointCount
    && |s.deltas| == JointCount
    && ValidMirrorTherapy(s.config.mirrorTherapy)
  }

  function ArmsOf(joints: seq<Vec3>): ArmVectors
    requires |joints| == JointCount
  {
    ArmVectors(Sub(joints[LeftElbow], joints[LeftShoulder]), Sub(joints[LeftHand], joints[LeftElbow]),
               Sub(joints[RightElbow], joints[RightShoulder]), Sub(joints[RightHand], joints[RightElbow]))
  }

  const NoArms := ArmVectors(Zero, Zero, Zero, Zero)

  /** The constructor: the flags as given, the mirror mode only if it is one
      of the three constants (otherwise off); all joints, global and local,
      at the origin with identity orientation, every delta and confidence 0,
      every arm vector zero, and fresh posture and gesture recognisers. */
  function NewSkeleton(fullBodyTracking: bool, calculateLocalCoordSys: bool, evaluatePostureAndGesture: bool,
                       mirrorTherapy: int, evaluateStatistics: bool): (s: SkeletonState)
    ensures WellFormed(s)
    ensures ValidMirrorTherapy(mirrorTherapy) ==> s.config.mirrorTherapy == mirrorTherapy
    ensures !ValidMirrorTherapy(mirrorTherapy) ==> s.config.mirrorTherapy == MirrorTherapyOff
    ensures s.config.fullBodyTracking == fullBodyTracking && s.config.calculateLocalCoordSys == calculateLocalCoordSys
    ensures s.config.evaluatePostureAndGesture == evaluatePostureAndGesture
    ensures s.config.evaluateStatistics == evaluateStatistics
    ensures s.updateCycle == 0 && !s.isUpdated && !s.localCoordSysCalculated && !s.postureEvaluated && !s.gestureEvaluated
    ensures !s.mirrorPlaneCalculated && s.frameCount == 0 && s.frameRate == 0.0
    ensures forall j :: 0 <= j < JointCount ==>
              s.joints[j] == Zero && s.jointsLocal[j] == Zero && s.orientations[j] == Identity
              && s.deltas[j] == 0.0 && s.confidences[j] == 0.0 && s.orientationConfidences[j] == 0.0
    ensures s.arms == NoArms && s.armsLocal == NoArms
    ensures s.postureTolerance == SkeletonPosture.InitialTolerance && s.posture == SkeletonPosture.NoPose
    ensures s.gesture == SkeletonGesture.InitialGesture
  {
    var mode := if ValidMirrorTherapy(mirrorTherapy) then mirrorTherapy else MirrorTherapyOff;
    SkeletonState(
      Config(fullBodyTracking, calculateLocalCoordSys, evaluatePostureAndGesture, mode, evaluateStatistics),
      seq(JointCount, _ => Zero), seq(JointCount, _ => 0.0), seq(JointCount, _ => Zero),
      seq(JointCount, _ => Identity), seq(JointCount, _ => 0.0), seq(JointCount, _ => 0.0),
      NoArms, NoArms, LocalFrame(Zero, Zero, Zero, Zero),
      false, 0, 0, 0.0,
      false, false, false, false,
      SkeletonPosture.InitialTolerance, SkeletonPosture.NoPose,
      SkeletonGesture.InitialGesture)
  }

  /** The two-argument constructor: full body, local frame, posture and
      gesture, statistics all on, mirror therapy off. */
  function DefaultSkeleton(): (s: SkeletonState)
    ensures WellFormed(s)
    ensures s.config == Config(true, true, true, MirrorTherapyOff, true)
  {
    NewSkeleton(true, true, true, MirrorTherapyOff, true)
  }

  /** `setMirrorTherapy`: a mode outside the constants switches mirroring
      off (the constructor, given such a mode, keeps the field's default,
      which is also off). Nothing else changes. */
  function SetMirrorTherapy(s: SkeletonState, mode: int): (s2: SkeletonState)
    ensures ValidMirrorTherapy(s2.config.mirrorTherapy)
    ensures ValidMirrorTherapy(mode) ==> s2.config.mirrorTherapy == mode
    ensures !ValidMirrorTherapy(mode) ==> s2.config.mirrorTherapy == MirrorTherapyOff
    ensures s2 == s.(config := s.config.(mirrorTherapy := s2.config.mirrorTherapy))
    ensures WellFormed(s) ==> WellFormed(s2)
  {
    var m := if ValidMirrorTherapy(mode) then mode else MirrorTherapyOff;
    s.(config := s.config.(mirrorTherapy := m))
  }

  /** Constructor and setter agree on every mode, and an invalid mode turns
      an active mirror therapy off. */
  lemma ConstructorAgreesWithSetter(full: bool, lcs: bool, pg: bool, mode: int, stats: bool)
    ensures NewSkeleton(full, lcs, pg, mode, stats).config.mirrorTherapy
            == SetMirrorTherapy(NewSkeleton(full, lcs, pg, MirrorTherapyOff, stats), mode).config.mirrorTherapy
    ensures !ValidMirrorTherapy(mode) ==>
              SetMirrorTherapy(NewSkeleton(full, lcs, pg, MirrorTherapyLeft, stats), mode).config.mirrorTherapy
              == MirrorTherapyOff
  {
  }

  // ---------------------------------------------------------------------
  // Getters

  /** `getJoint`: the stored position, or the origin for an unknown joint. */
  function GetJoint(s: SkeletonState, j: int): (p: Vec3)
    requires WellFormed(s)
    ensures ValidJoint(j) ==> p == s.joints[j]
    ensures !ValidJoint(j) ==> p == Zero
  {
    if ValidJoint(j) then s.joints[j] else Zero
  }

  /** `getJointLCS`: also the origin while no local frame was calculated in
      the last update. */
  function GetJointLCS(s: SkeletonState, j: int): (p: Vec3)
    requires WellFormed(s)
    ensures ValidJoint(j) && s.localCoordSysCalculated ==> p == s.jointsLocal[j]
    ensures !ValidJoint(j) || !s.localCoordSysCalculated ==> p == Zero
  {
    if ValidJoint(j) && s.localCoordSysCalculated then s.jointsLocal[j] else Zero
  }

  function GetJointConfidence(s: SkeletonState, j: int): (c: real)
    requires WellFormed(s)
    ensures ValidJoint(j) ==> c == s.confidences[j]
    ensures !ValidJoint(j) ==> c == 0.0
  {
    if ValidJoint(j) then s.confidences[j] else 0.0
  }

  /** `getJointOrientation`: for an unknown joint a new matrix, which is the
      identity. */
  function GetJointOrientation(s: SkeletonState, j: int): (m: Mat4)
    requires WellFormed(s)
    ensures ValidJoint(j) ==> m == s.orientations[j]
    ensures !ValidJoint(j) ==> m == Identity
  {
    if ValidJoint(j) then s.orientations[j] else Identity
  }

  function GetJointOrientationConfidence(s: SkeletonState, j: int): (c: real)
    requires WellFormed(s)
    ensures ValidJoint(j) ==> c == s.orientationConfidences[j]
    ensures !ValidJoint(j) ==> c == 0.0
  {
    if ValidJoint(j) then s.orientationConfidences[j] else 0.0
  }

  function GetJointDelta(s: SkeletonState, j: int): (d: real)
    requires WellFormed(s)
    ensures ValidJoint(j) ==> d == s.deltas[j]
    ensures !ValidJoint(j) ==> d == 0.0
  {
    if ValidJoint(j) then s.deltas[j] else 0.0
  }

  /** The local arm vectors (`getLeftUpperArmLCS` and the other three): zero
      while no local frame was calculated. */
  function GetArmsLCS(s: SkeletonState): (a: ArmVectors)
    ensures s.localCoordSysCalculated ==> a == s.armsLocal
    ensures !s.localCoordSysCalculated ==> a == NoArms
  {
    if s.localCoordSysCalculated then s.armsLocal else NoArms
  }

  /** `getOrientationX`, `getOrientationY`, `getOrientationZ`: the normalised
      local axes, or zero while no local frame was calculated. */
  function GetOrientation(s: SkeletonState): (axes: Axes)
    ensures s.localCoordSysCalculated ==> axes == Axes(s.frame.x, s.frame.y, s.frame.z)
    ensures !s.localCoordSysCalculated ==> axes == Axes(Zero, Zero, Zero)
  {
    if s.localCoordSysCalculated then Axes(s.frame.x, s.frame.y, s.frame.z) else Axes(Zero, Zero, Zero)
  }

  /** The arm angles: each upper arm against the local Y axis, each lower arm
      against its upper arm; all zero while no local frame was calculated. */
  datatype ArmAngles = ArmAngles(leftUpper: real, leftLower: real, rightUpper: real, rightLower: real)

  const NoAngles := ArmAngles(0.0, 0.0, 0.0, 0.0)

  function GetArmAngles(s: SkeletonState, angle: AngleFn): (r: ArmAngles)
    ensures !s.localCoordSysCalculated ==> r == NoAngles
    ensures s.localCoordSysCalculated ==>
              r.leftUpper == angle(GetArmsLCS(s).leftUpper, GetOrientation(s).y)
              && r.rightUpper == angle(GetArmsLCS(s).rightUpper, GetOrientation(s).y)
              && r.leftLower == angle(GetArmsLCS(s).leftLower, GetArmsLCS(s).leftUpper)
              && r.rightLower == angle(GetArmsLCS(s).rightLower, GetArmsLCS(s).rightUpper)
  {
    if s.localCoordSysCalculated then
      var a := s.armsLocal;
      ArmAngles(angle(a.leftUpper, s.frame.y), angle(a.leftLower, a.leftUpper),
                angle(a.rightUpper, s.frame.y), angle(a.rightLower, a.rightUpper))
    else
      NoAngles
  }

  /** Every joint getter answers an unknown joint with its default, whatever
      the skeleton's state. */
  lemma UnknownJointDefaults(s: SkeletonState, t: SkeletonState, j: int)
    requires WellFormed(s) && WellFormed(t) && !ValidJoint(j)
    ensures GetJoint(s, j) == GetJoint(t, j) == Zero
    ensures GetJointLCS(s, j) == Zero
    ensures GetJointOrientation(s, j) == GetJointOrientation(t, j) == Identity
    ensures GetJointConfidence(s, j) == GetJointOrientationConfidence(s, j) == GetJointDelta(s, j) == 0.0
  {
  }

  /** `getCurrentUpperBodyPosture`: no posture unless one was evaluated in
      the last update. */
  function GetCurrentUpperBodyPosture(s: SkeletonState): (p: SkeletonPosture.Posture)
    ensures s.postureEvaluated ==> p == s.posture
    ensures !s.postureEvaluated ==> p == SkeletonPosture.NoPose
  {
    if s.postureEvaluated then s.posture else SkeletonPosture.NoPose
  }

  /** `getLastUpperBodyGesture`: the gesture recognised within the last
      `pastCycles` update cycles, counted back from the current cycle. */
  function GetLastUpperBodyGesture(s: SkeletonState, pastCycles: int): (g: SkeletonGesture.Gesture)
    ensures !s.gestureEvaluated ==> g == SkeletonGesture.NoGesture
    ensures s.gestureEvaluated ==>
              (g == SkeletonGesture.Push <==>
                 s.gesture.current == SkeletonGesture.Push && s.gesture.lastFrame + pastCycles >= s.updateCycle)
  {
    if s.gestureEvaluated then SkeletonGesture.GetLastUpperBodyGesture(s.gesture, s.updateCycle - pastCycles)
    else SkeletonGesture.NoGesture
  }

  // ---------------------------------------------------------------------
  // Update

  /** What the sensor reports for one update, indexed by anatomical joint
      (left and right as seen by the person, not by the camera). */
  datatype Reading = Reading(
    positions: seq<Vec3>, confidences: seq<real>, orientations: seq<Mat4>, orientationConfidences: seq<real>)

  predicate ValidReading(r: Reading) {
    |r.positions| == JointCount && |r.confidences| == JointCount
    && |r.orientations| == JointCount && |r.orientationConfidences| == JointCount
  }

  /** Overwrite the tracked joints' entries with the new ones. */
  function Track<T>(current: seq<T>, incoming: seq<T>, fullBodyTracking: bool): (r: seq<T>)
    requires |current| == JointCount && |incoming| == JointCount
    ensures |r| == JointCount
    ensures forall j :: 0 <= j < JointCount && IsTracked(j, fullBodyTracking) ==> r[j] == incoming[j]
    ensures forall j :: 0 <= j < JointCount && !IsTracked(j, fullBodyTracking) ==> r[j] == current[j]
  {
    seq(JointCount, j requires 0 <= j < JointCount => if IsTracked(j, fullBodyTracking) then incoming[j] else current[j])
  }

  /** The distance each tracked joint moved: the magnitude of old minus new
      position; untracked joints keep their delta. */
  function Deltas(oldJoints: seq<Vec3>, newJoints: seq<Vec3>, oldDeltas: seq<real>,
                  fullBodyTracking: bool, mag: MagnitudeFn): (r: seq<real>)
    requires |oldJoints| == JointCount && |newJoints| == JointCount && |oldDeltas| == JointCount
    ensures |r| == JointCount
    ensures forall j :: 0 <= j < JointCount && IsTracked(j, fullBodyTracking) ==>
              r[j] == mag(Sub(oldJoints[j], newJoints[j]))
    ensures forall j :: 0 <= j < JointCount && !IsTracked(j, fullBodyTracking) ==> r[j] == oldDeltas[j]
  {
    seq(JointCount, j requires 0 <= j < JointCount =>
      if IsTracked(j, fullBodyTracking) then mag(Sub(oldJoints[j], newJoints[j])) else oldDeltas[j])
  }

  /** Which joint's position (and position confidence) a joint takes after
      mirroring: in LEFT mode the right elbow and hand copy the left ones, in
      RIGHT mode the other way round; every other joint keeps its own. */
  function PositionSource(mode: int, j: int): int {
    if mode == MirrorTherapyLeft && j == RightElbow then LeftElbow
    else if mode == MirrorTherapyLeft && j == RightHand then LeftHand
    else if mode == MirrorTherapyRight && j == LeftElbow then RightElbow
    else if mode == MirrorTherapyRight && j == LeftHand then RightHand
    else j
  }

  /** Orientations also carry the shoulders across. */
  function OrientationSource(mode: int, j: int): int {
    if mode == MirrorTherapyLeft && j == RightShoulder then LeftShoulder
    else if mode == MirrorTherapyRight && j == LeftShoulder then RightShoulder
    else PositionSource(mode, j)
  }

  /** `updateMirroredJointPositions`: the mirrored joints take the mirror
      image of their source joint, every other joint is unchanged. */
  function MirrorPositions(mode: int, plane: BodyPlane, joints: seq<Vec3>): (r: seq<Vec3>)
    requires |joints| == JointCount
    ensures |r| == JointCount
    ensures mode == MirrorTherapyLeft ==>
              r[RightElbow] == MirrorJointVector(plane, joints[LeftElbow])
              && r[RightHand] == MirrorJointVector(plane, joints[LeftHand])
    ensures mode == MirrorTherapyRight ==>
              r[LeftElbow] == MirrorJointVector(plane, joints[RightElbow])
              && r[LeftHand] == MirrorJointVector(plane, joints[RightHand])
    ensures forall j :: 0 <= j < JointCount && PositionSource(mode, j) == j ==> r[j] == joints[j]
  {
    seq(JointCount, j requires 0 <= j < JointCount =>
      var src := PositionSource(mode, j);
      if src == j then joints[j] else MirrorJointVector(plane, joints[src]))
  }

  /** `updateMirroredJointOrientations`: the mirrored joints take the
      mirrored orientation of their source joint. */
  function MirrorOrientations(mode: int, plane: BodyPlane, orientations: seq<Mat4>): (r: seq<Mat4>)
    requires |orientations| == JointCount
    ensures |r| == JointCount
    ensures mode == MirrorTherapyLeft ==>
              r[RightShoulder] == MirrorOrientationMatrix(plane, orientations[LeftShoulder])
              && r[RightElbow] == MirrorOrientationMatrix(plane, orientations[LeftElbow])
              && r[RightHand] == MirrorOrientationMatrix(plane, orientations[LeftHand])
    ensures mode == MirrorTherapyRight ==>
              r[LeftShoulder] == MirrorOrientationMatrix(plane, orientations[RightShoulder])
              && r[LeftElbow] == MirrorOrientationMatrix(plane, orientations[RightElbow])
              && r[LeftHand] == MirrorOrientationMatrix(plane, orientations[RightHand])
    ensures forall j :: 0 <= j < JointCount && OrientationSource(mode, j) == j ==> r[j] == orientations[j]
  {
    seq(JointCount, j requires 0 <= j < JointCount =>
      var src := OrientationSource(mode, j);
      if src == j then orientations[j] else MirrorOrientationMatrix(plane, orientations[src]))
  }

  /** A mirrored joint's confidence is its source joint's. */
  function CopyFromSource(source: int -> int, values: seq<real>): (r: seq<real>)
    requires |values| == JointCount
    requires forall j :: 0 <= j < JointCount ==> 0 <= source(j) < JointCount
    ensures |r| == JointCount
    ensures forall j :: 0 <= j < JointCount ==> r[j] == values[source(j)]
  {
    seq(JointCount, j requires 0 <= j < JointCount => values[source(j)])
  }

  lemma SourcesInRange(mode: int)
    ensures forall j :: 0 <= j < JointCount ==> 0 <= PositionSource(mode, j) < JointCount
    ensures forall j :: 0 <= j < JointCount ==> 0 <= OrientationSource(mode, j) < JointCount
  {
  }

  /** What the posture classifier reads. */
  function PostureInput(jointsLocal: seq<Vec3>, armsLocal: ArmVectors, f: LocalFrame): SkeletonPosture.ArmsLocal
    requires |jointsLocal| == JointCount
  {
    SkeletonPosture.ArmsLocal(armsLocal.leftUpper, armsLocal.leftLower, armsLocal.rightUpper, armsLocal.rightLower,
                              jointsLocal[LeftHand], jointsLocal[RightHand], f.y, f.z)
  }

  /** What the push recogniser reads. */
  function PushInput(jointsLocal: seq<Vec3>, armsLocal: ArmVectors, f: LocalFrame): SkeletonGesture.PushInput
    requires |jointsLocal| == JointCount
  {
    SkeletonGesture.PushInput(jointsLocal[RightShoulder], jointsLocal[RightHand],
                              jointsLocal[LeftShoulder], jointsLocal[LeftHand],
                              armsLocal.rightUpper, armsLocal.rightLower, armsLocal.leftUpper, armsLocal.leftLower, f.z)
  }

  /** `updateJointPositions` and `updateJointOrientations`: the tracked
      joints take the reading, each with the distance it moved; the global
      arm vectors are taken from the new positions. */
  function ReadSensor(s: SkeletonState, r: Reading, mag: MagnitudeFn): (s2: SkeletonState)
    requires ArraysWellFormed(s) && ValidReading(r)
    ensures ArraysWellFormed(s2)
    ensures s2 == s.(joints := s2.joints, confidences := s2.confidences, deltas := s2.deltas, arms := s2.arms,
                     orientations := s2.orientations, orientationConfidences := s2.orientationConfidences)
    ensures forall j :: 0 <= j < JointCount && IsTracked(j, s.config.fullBodyTracking) ==>
              s2.joints[j] == r.positions[j] && s2.confidences[j] == r.confidences[j]
              && s2.orientations[j] == r.orientations[j]
              && s2.orientationConfidences[j] == r.orientationConfidences[j]
              && s2.deltas[j] == mag(Sub(s.joints[j], r.positions[j]))
    ensures forall j :: 0 <= j < JointCount && !IsTracked(j, s.config.fullBodyTracking) ==>
              s2.joints[j] == s.joints[j] && s2.confidences[j] == s.confidences[j]
              && s2.orientations[j] == s.orientations[j]
              && s2.orientationConfidences[j] == s.orientationConfidences[j]
              && s2.deltas[j] == s.deltas[j]
    ensures s2.arms == ArmsOf(r.positions)
  {
    var full := s.config.fullBodyTracking;
    var joints := Track(s.joints, r.positions, full);
    s.(joints := joints,
       confidences := Track(s.confidences, r.confidences, full),
       deltas := Deltas(s.joints, r.positions, s.deltas, full, mag),
       arms := ArmsOf(joints),
       orientations := Track(s.orientations, r.orientations, full),
       orientationConfidences := Track(s.orientationConfidences, r.orientationConfidences, full))
  }

  /** The start of `update`: the clock is taken from the caller and every
      per-update flag is cleared; joint data, configuration and recognisers
      are untouched. */
  function ResetForUpdate(s: SkeletonState, frameCount: int, frameRate: real): (s0: SkeletonState)
    ensures s0.frameCount == frameCount && s0.frameRate == frameRate
    ensures !s0.isUpdated && !s0.localCoordSysCalculated && !s0.mirrorPlaneCalculated
            && !s0.postureEvaluated && !s0.gestureEvaluated
    ensures s0.config == s.config && s0.joints == s.joints && s0.confidences == s.confidences
            && s0.jointsLocal == s.jointsLocal && s0.orientations == s.orientations
            && s0.orientationConfidences == s.orientationConfidences && s0.deltas == s.deltas
    ensures s0.updateCycle == s.updateCycle && s0.posture == s.posture && s0.gesture == s.gesture
    ensures ArraysWellFormed(s) ==> ArraysWellFormed(s0)
  {
    s.(frameCount := frameCount, frameRate := frameRate, isUpdated := false,
       localCoordSysCalculated := false, mirrorPlaneCalculated := false,
       postureEvaluated := false, gestureEvaluated := false)
  }

  /** Both mirror steps of an update, across the given plane. */
  function ApplyMirror(s: SkeletonState, plane: BodyPlane): (s2: SkeletonState)
    requires ArraysWellFormed(s)
    ensures ArraysWellFormed(s2)
    ensures s2 == s.(joints := s2.joints, confidences := s2.confidences,
                     orientations := s2.orientations, orientationConfidences := s2.orientationConfidences)
    ensures forall j :: 0 <= j < JointCount ==>
              var src := PositionSource(s.config.mirrorTherapy, j);
              s2.joints[j] == if src == j then s.joints[j] else MirrorJointVector(plane, s.joints[src])
    ensures forall j :: 0 <= j < JointCount ==>
              var src := OrientationSource(s.config.mirrorTherapy, j);
              s2.orientations[j] == if src == j then s.orientations[j] else MirrorOrientationMatrix(plane, s.orientations[src])
    ensures forall j :: 0 <= j < JointCount ==>
              s2.confidences[j] == s.confidences[PositionSource(s.config.mirrorTherapy, j)]
              && s2.orientationConfidences[j] == s.orientationConfidences[OrientationSource(s.config.mirrorTherapy, j)]
  {
    var mode := s.config.mirrorTherapy;
    SourcesInRange(mode);
    s.(joints := MirrorPositions(mode, plane, s.joints),
       confidences := CopyFromSource(j => PositionSource(mode, j), s.confidences),
       orientations := MirrorOrientations(mode, plane, s.orientations),
       orientationConfidences := CopyFromSource(j => OrientationSource(mode, j), s.orientationConfidences))
  }

  /** `transformToLCS`: the tracked joints in the local frame and the local
      arm vectors between them. */
  function TransformToLCS(s: SkeletonState, f: LocalFrame): (s2: SkeletonState)
    requires ArraysWellFormed(s)
    ensures ArraysWellFormed(s2)
    ensures s2 == s.(jointsLocal := s2.jointsLocal, armsLocal := s2.armsLocal)
    ensures s2.armsLocal == ArmsOf(s2.jointsLocal)
    ensures forall j :: 0 <= j < JointCount && IsTracked(j, s.config.fullBodyTracking) ==>
              s2.jointsLocal[j] == SkeletonMath.GetJointLCS(f, s.joints[j])
    ensures forall j :: 0 <= j < JointCount && !IsTracked(j, s.config.fullBodyTracking) ==>
              s2.jointsLocal[j] == s.jointsLocal[j]
  {
    var local := Track(s.jointsLocal, seq(JointCount, j requires 0 <= j < JointCount => SkeletonMath.GetJointLCS(f, s.joints[j])),
                       s.config.fullBodyTracking);
    s.(jointsLocal := local, armsLocal := ArmsOf(local))
  }

  /** `posture.evaluate()` and `gesture.evaluate(updateCycle)` on the local
      joints and axes: the gesture is dated with the current cycle exactly
      when the push test fires, and only the recognisers' state changes. */
  function Recognise(s: SkeletonState, angle: AngleFn): (s2: SkeletonState)
    requires ArraysWellFormed(s)
    ensures s2 == s.(posture := s2.posture, gesture := s2.gesture, postureEvaluated := true, gestureEvaluated := true)
    ensures var step := SkeletonGesture.EvaluatePushGesture(s.gesture, s.updateCycle,
                                                           PushInput(s.jointsLocal, s.armsLocal, s.frame), angle);
            s2.gesture.tol == s.gesture.tol && s2.gesture.pushStart == step.pushStart
            && (step.fired ==> s2.gesture.current == SkeletonGesture.Push && s2.gesture.lastFrame == s.updateCycle)
            && (!step.fired ==> s2.gesture.current == s.gesture.current && s2.gesture.lastFrame == s.gesture.lastFrame)
            && (s.gesture.lastFrame < s.updateCycle ==> (s2.gesture.lastFrame == s.updateCycle <==> step.fired))
  {
    s.(posture := SkeletonPosture.Evaluate(s.postureTolerance, PostureInput(s.jointsLocal, s.armsLocal, s.frame), angle),
       postureEvaluated := true,
       gesture := SkeletonGesture.Evaluate(s.gesture, s.updateCycle, PushInput(s.jointsLocal, s.armsLocal, s.frame), angle),
       gestureEvaluated := true)
  }

  /** The posture `Recognise` stores is the first of the cascade that holds
      for the local arms and axes, under the skeleton's posture tolerance. */
  lemma RecognisedPostureIsFirstMatch(s: SkeletonState, angle: AngleFn)
    requires ArraysWellFormed(s)
    ensures SkeletonPosture.IsFirstMatch(Recognise(s, angle).posture, PostureInput(s.jointsLocal, s.armsLocal, s.frame),
                                         angle, s.postureTolerance)
  {
    SkeletonPosture.EvaluateIsFirstMatch(s.postureTolerance, PostureInput(s.jointsLocal, s.armsLocal, s.frame), angle);
  }

  /** The recognisers on coincident shoulders, where the Java library's local
      coordinates and axes are NaN. Every window test of the posture cascade
      and the push test's alignment test compare a NaN angle and fail, so
      the posture is `NO_POSE`, a pending push is cancelled and no gesture is
      recognised. */
  function RecogniseWithoutFrame(s: SkeletonState): (s2: SkeletonState)
    ensures s2 == s.(posture := SkeletonPosture.NoPose, gesture := s2.gesture,
                     postureEvaluated := true, gestureEvaluated := true)
    ensures s2.gesture == s.gesture.(pushStart := SkeletonGesture.NoFrame)
  {
    s.(posture := SkeletonPosture.NoPose, postureEvaluated := true,
       gesture := s.gesture.(pushStart := SkeletonGesture.NoFrame), gestureEvaluated := true)
  }

  /** The local-frame part of an update once a frame `f` exists: store it,
      transform the tracked joints into it and, if enabled, recognise
      posture and gesture on the transformed joints. */
  function FrameStep(s: SkeletonState, f: LocalFrame, angle: AngleFn): (s2: SkeletonState)
    requires ArraysWellFormed(s)
    ensures ArraysWellFormed(s2)
    ensures s2 == s.(frame := f, localCoordSysCalculated := true, jointsLocal := s2.jointsLocal, armsLocal := s2.armsLocal,
                     posture := s2.posture, gesture := s2.gesture,
                     postureEvaluated := s2.postureEvaluated, gestureEvaluated := s2.gestureEvaluated)
    ensures s2.postureEvaluated <==> s.postureEvaluated || s.config.evaluatePostureAndGesture
    ensures s2.gestureEvaluated <==> s.gestureEvaluated || s.config.evaluatePostureAndGesture
    ensures s2.armsLocal == ArmsOf(s2.jointsLocal)
    ensures forall j :: 0 <= j < JointCount && IsTracked(j, s.config.fullBodyTracking) ==>
              s2.jointsLocal[j] == SkeletonMath.GetJointLCS(f, s.joints[j])
    ensures forall j :: 0 <= j < JointCount && !IsTracked(j, s.config.fullBodyTracking) ==>
              s2.jointsLocal[j] == s.jointsLocal[j]
    ensures s.config.evaluatePostureAndGesture ==>
              s2.posture == SkeletonPosture.Evaluate(s.postureTolerance, PostureInput(s2.jointsLocal, s2.armsLocal, f), angle)
              && s2.gesture == SkeletonGesture.Evaluate(s.gesture, s.updateCycle, PushInput(s2.jointsLocal, s2.armsLocal, f), angle)
    ensures !s.config.evaluatePostureAndGesture ==> s2.posture == s.posture && s2.gesture == s.gesture
  {
    var t := TransformToLCS(s.(frame := f, localCoordSysCalculated := true), f);
    if s.config.evaluatePostureAndGesture then Recognise(t, angle) else t
  }

  /** Whether the two shoulders were read at the same point, where no local
      frame exists. */
  predicate ShouldersCoincide(s: SkeletonState) {
    |s.joints| == JointCount && s.joints[LeftShoulder] == s.joints[RightShoulder]
  }

  /** The local-frame part of an update: calculate the frame and transform
      the tracked joints into it (see `LocalStepTransforms`), then, if
      enabled, recognise posture and gesture (see `LocalStepRecognition`).
      With coincident shoulders no frame is calculated and the local joints
      stay as they were. */
  function LocalStep(s: SkeletonState, k: AxisScales, angle: AngleFn): (s2: SkeletonState)
    requires ArraysWellFormed(s)
    requires ScalesFit(s.joints[Torso], s.joints[LeftShoulder], s.joints[RightShoulder], k)
    ensures ArraysWellFormed(s2)
    ensures s2.postureEvaluated <==> s.postureEvaluated || s.config.evaluatePostureAndGesture
    ensures s2.gestureEvaluated <==> s.gestureEvaluated || s.config.evaluatePostureAndGesture
    ensures !ShouldersCoincide(s) ==>
              s2.localCoordSysCalculated
              && s2.frame == CalculateLocalCoordSys(s.joints[Torso], s.joints[LeftShoulder], s.joints[RightShoulder], k).value
    ensures ShouldersCoincide(s) ==>
              s2.localCoordSysCalculated == s.localCoordSysCalculated && s2.frame == s.frame
              && s2.jointsLocal == s.jointsLocal && s2.armsLocal == s.armsLocal
  {
    var c := CalculateLocalCoordSys(s.joints[Torso], s.joints[LeftShoulder], s.joints[RightShoulder], k);
    if c.Err? then
      if s.config.evaluatePostureAndGesture then RecogniseWithoutFrame(s) else s
    else
      FrameStep(s, c.value, angle)
  }

  /** With a frame, every tracked joint's local position is its global
      position in that frame, untracked joints keep theirs, and the local
      arm vectors run between the local joints. */
  lemma LocalStepTransforms(s: SkeletonState, k: AxisScales, angle: AngleFn)
    requires ArraysWellFormed(s)
    requires ScalesFit(s.joints[Torso], s.joints[LeftShoulder], s.joints[RightShoulder], k)
    ensures var s2 := LocalStep(s, k, angle);
            !ShouldersCoincide(s) ==>
              s2.armsLocal == ArmsOf(s2.jointsLocal)
              && (forall j :: 0 <= j < JointCount && IsTracked(j, s.config.fullBodyTracking) ==>
                    s2.jointsLocal[j] == SkeletonMath.GetJointLCS(s2.frame, s.joints[j]))
              && (forall j :: 0 <= j < JointCount && !IsTracked(j, s.config.fullBodyTracking) ==>
                    s2.jointsLocal[j] == s.jointsLocal[j])
  {
  }

  /** What the local step recognises: with a frame, the posture and the
      gesture are evaluated on the freshly transformed local joints and
      axes; with coincident shoulders the posture is `NO_POSE` and a pending
      push is cancelled; with recognition switched off neither changes. */
  lemma LocalStepRecognition(s: SkeletonState, k: AxisScales, angle: AngleFn)
    requires ArraysWellFormed(s)
    requires ScalesFit(s.joints[Torso], s.joints[LeftShoulder], s.joints[RightShoulder], k)
    ensures var s2 := LocalStep(s, k, angle);
            !ShouldersCoincide(s) && s.config.evaluatePostureAndGesture ==>
              s2.posture == SkeletonPosture.Evaluate(s.postureTolerance, PostureInput(s2.jointsLocal, s2.armsLocal, s2.frame), angle)
              && s2.gesture == SkeletonGesture.Evaluate(s.gesture, s.updateCycle,
                                                       PushInput(s2.jointsLocal, s2.armsLocal, s2.frame), angle)
    ensures var s2 := LocalStep(s, k, angle);
            ShouldersCoincide(s) && s.config.evaluatePostureAndGesture ==>
              s2.posture == SkeletonPosture.NoPose && s2.gesture == s.gesture.(pushStart := SkeletonGesture.NoFrame)
    ensures var s2 := LocalStep(s, k, angle);
            !s.config.evaluatePostureAndGesture ==> s2.posture == s.posture && s2.gesture == s.gesture
  {
  }

  /** The global part of `update`: reset the status flags, read the sensor
      and mirror (unless mirror therapy is off). */
  function ReadAndMirror(s: SkeletonState, frameCount: int, frameRate: real, r: Reading, mag: MagnitudeFn,
                         mirrorPlane: BodyPlane): (s2: SkeletonState)
    requires ArraysWellFormed(s) && ValidReading(r)
    ensures ArraysWellFormed(s2)
    ensures s2.config == s.config && s2.updateCycle == s.updateCycle && s2.gesture == s.gesture
    ensures s2.frameCount == frameCount && s2.frameRate == frameRate
    ensures !s2.localCoordSysCalculated && !s2.postureEvaluated && !s2.gestureEvaluated
    ensures s2.mirrorPlaneCalculated <==> s.config.mirrorTherapy != MirrorTherapyOff
    ensures s2.arms == ArmsOf(r.positions) && s2.jointsLocal == s.jointsLocal
    ensures s2.joints[Torso] == r.positions[Torso]
    ensures s2.joints[LeftShoulder] == r.positions[LeftShoulder] && s2.joints[RightShoulder] == r.positions[RightShoulder]
  {
    var s0 := ResetForUpdate(s, frameCount, frameRate);
    var s1 := ReadSensor(s0, r, mag);
    MirrorKeepsTorsoAndShoulders(s1.config.mirrorTherapy, mirrorPlane, s1.joints);
    if s.config.mirrorTherapy != MirrorTherapyOff then ApplyMirror(s1, mirrorPlane).(mirrorPlaneCalculated := true) else s1
  }

  /** `update`: the global part, then the local-frame part (if enabled),
      then the update cycle is counted. The sensor reading, the magnitude
      function, the mirror plane (whose calculation is not part of this
      model), the axis scales of the local frame and the angle function are
      inputs. */
  function Update(s: SkeletonState, frameCount: int, frameRate: real, r: Reading, mag: MagnitudeFn,
                  mirrorPlane: BodyPlane, k: AxisScales, angle: AngleFn): (s2: SkeletonState)
    requires WellFormed(s) && ValidReading(r)
    requires ScalesFit(r.positions[Torso], r.positions[LeftShoulder], r.positions[RightShoulder], k)
    ensures WellFormed(s2)
    ensures s2.config == s.config && s2.isUpdated
    ensures s2.updateCycle == s.updateCycle + 1
    ensures s2.frameCount == frameCount && s2.frameRate == frameRate
    ensures s2.mirrorPlaneCalculated <==> s.config.mirrorTherapy != MirrorTherapyOff
    ensures s2.localCoordSysCalculated <==>
              s.config.calculateLocalCoordSys && r.positions[LeftShoulder] != r.positions[RightShoulder]
    ensures s2.postureEvaluated <==> s.config.calculateLocalCoordSys && s.config.evaluatePostureAndGesture
    ensures s2.gestureEvaluated == s2.postureEvaluated
    ensures s2.arms == ArmsOf(r.positions)
  {
    var g := ReadAndMirror(s, frameCount, frameRate, r, mag, mirrorPlane);
    GestureDatedNoLaterThan(g, k, angle);
    var l := if s.config.calculateLocalCoordSys then LocalStep(g, k, angle) else g;
    l.(updateCycle := s.updateCycle + 1, isUpdated := true)
  }

  /** The torso and the shoulders are never a mirrored joint's position. */
  lemma MirrorKeepsTorsoAndShoulders(mode: int, plane: BodyPlane, joints: seq<Vec3>)
    requires |joints| == JointCount
    ensures var m := MirrorPositions(mode, plane, joints);
            m[Torso] == joints[Torso] && m[LeftShoulder] == joints[LeftShoulder] && m[RightShoulder] == joints[RightShoulder]
  {
    assert PositionSource(mode, Torso) == Torso;
    assert PositionSource(mode, LeftShoulder) == LeftShoulder;
    assert PositionSource(mode, RightShoulder) == RightShoulder;
  }

  /** The local step dates a recognised gesture with the current cycle at
      the latest. */
  lemma GestureDatedNoLaterThan(s: SkeletonState, k: AxisScales, angle: AngleFn)
    requires ArraysWellFormed(s) && s.gesture.lastFrame <= s.updateCycle
    requires ScalesFit(s.joints[Torso], s.joints[LeftShoulder], s.joints[RightShoulder], k)
    ensures LocalStep(s, k, angle).gesture.lastFrame <= s.updateCycle
    ensures LocalStep(s, k, angle).localCoordSysCalculated <==>
              s.localCoordSysCalculated || s.joints[LeftShoulder] != s.joints[RightShoulder]
  {
  }

  // ---------------------------------------------------------------------
  // Properties of an update

  /** What an update does to each joint: untracked joints keep everything,
      tracked joints that are not mirrored take the reading, and every
      tracked joint's delta is measured against the unmirrored reading. */
  lemma UpdateTracksReading(s: SkeletonState, frameCount: int, frameRate: real, r: Reading, mag: MagnitudeFn,
                            plane: BodyPlane, k: AxisScales, angle: AngleFn, j: int)
    requires WellFormed(s) && ValidReading(r) && 0 <= j < JointCount
    requires ScalesFit(r.positions[Torso], r.positions[LeftShoulder], r.positions[RightShoulder], k)
    ensures var s2 := Update(s, frameCount, frameRate, r, mag, plane, k, angle);
            var full := s.config.fullBodyTracking;
            var mode := s.config.mirrorTherapy;
            (!IsTracked(j, full) ==>
               s2.joints[j] == s.joints[j] && s2.deltas[j] == s.deltas[j]
               && s2.orientations[j] == s.orientations[j] && s2.jointsLocal[j] == s.jointsLocal[j])
            && (IsTracked(j, full) ==> s2.deltas[j] == mag(Sub(s.joints[j], r.positions[j])))
            && (IsTracked(j, full) && PositionSource(mode, j) == j ==>
                  s2.joints[j] == r.positions[j] && s2.confidences[j] == r.confidences[j])
            && (IsTracked(j, full) && OrientationSource(mode, j) == j ==>
                  s2.orientations[j] == r.orientations[j] && s2.orientationConfidences[j] == r.orientationConfidences[j])
  {
    var g := ReadAndMirror(s, frameCount, frameRate, r, mag, plane);
    ReadAndMirrorPerJoint(s, frameCount, frameRate, r, mag, plane, j);
    if s.config.calculateLocalCoordSys {
      LocalStepKeepsReading(g, k, angle);
    }
  }

  /** The per-joint effect of the global part of an update. */
  lemma ReadAndMirrorPerJoint(s: SkeletonState, frameCount: int, frameRate: real, r: Reading, mag: MagnitudeFn,
                              plane: BodyPlane, j: int)
    requires ArraysWellFormed(s) && ValidReading(r) && 0 <= j < JointCount
    ensures var g := ReadAndMirror(s, frameCount, frameRate, r, mag, plane);
            var full := s.config.fullBodyTracking;
            var mode := s.config.mirrorTherapy;
            (!IsTracked(j, full) ==>
               g.joints[j] == s.joints[j] && g.deltas[j] == s.deltas[j] && g.orientations[j] == s.orientations[j])
            && (IsTracked(j, full) ==> g.deltas[j] == mag(Sub(s.joints[j], r.positions[j])))
            && (IsTracked(j, full) && PositionSource(mode, j) == j ==>
                  g.joints[j] == r.positions[j] && g.confidences[j] == r.confidences[j])
            && (IsTracked(j, full) && OrientationSource(mode, j) == j ==>
                  g.orientations[j] == r.orientations[j] && g.orientationConfidences[j] == r.orientationConfidences[j])
  {
    if IsTracked(j, s.config.fullBodyTracking) {
      ReadAndMirrorTracked(s, frameCount, frameRate, r, mag, plane, j);
    } else {
      ReadAndMirrorUntracked(s, frameCount, frameRate, r, mag, plane, j);
    }
  }

  /** The global part of an update leaves an untracked joint alone. */
  lemma ReadAndMirrorUntracked(s: SkeletonState, frameCount: int, frameRate: real, r: Reading, mag: MagnitudeFn,
                               plane: BodyPlane, j: int)
    requires ArraysWellFormed(s) && ValidReading(r) && 0 <= j < JointCount
    requires !IsTracked(j, s.config.fullBodyTracking)
    ensures var g := ReadAndMirror(s, frameCount, frameRate, r, mag, plane);
            g.joints[j] == s.joints[j] && g.deltas[j] == s.deltas[j] && g.orientations[j] == s.orientations[j]
  {
    var s0 := ResetForUpdate(s, frameCount, frameRate);
    var s1 := ReadSensor(s0, r, mag);
    assert s1.joints[j] == s.joints[j] && s1.deltas[j] == s.deltas[j] && s1.orientations[j] == s.orientations[j];
    var mode := s.config.mirrorTherapy;
    if mode != MirrorTherapyOff {
      assert PositionSource(mode, j) == j && OrientationSource(mode, j) == j;
      var m := ApplyMirror(s1, plane);
      assert m.joints[j] == s1.joints[j] && m.deltas == s1.deltas && m.orientations[j] == s1.orientations[j];
    }
  }

  /** The global part of an update records a tracked joint's reading and
      delta, unless the joint shows a mirrored one. */
  lemma ReadAndMirrorTracked(s: SkeletonState, frameCount: int, frameRate: real, r: Reading, mag: MagnitudeFn,
                             plane: BodyPlane, j: int)
    requires ArraysWellFormed(s) && ValidReading(r) && 0 <= j < JointCount
    requires IsTracked(j, s.config.fullBodyTracking)
    ensures var g := ReadAndMirror(s, frameCount, frameRate, r, mag, plane);
            var mode := s.config.mirrorTherapy;
            g.deltas[j] == mag(Sub(s.joints[j], r.positions[j]))
            && (PositionSource(mode, j) == j ==> g.joints[j] == r.positions[j] && g.confidences[j] == r.confidences[j])
            && (OrientationSource(mode, j) == j ==>
                  g.orientations[j] == r.orientations[j] && g.orientationConfidences[j] == r.orientationConfidences[j])
  {
    var s0 := ResetForUpdate(s, frameCount, frameRate);
    var s1 := ReadSensor(s0, r, mag);
    var g := ReadAndMirror(s, frameCount, frameRate, r, mag, plane);
    if s.config.mirrorTherapy == MirrorTherapyOff {
      assert g == s1;
    } else {
      var m := ApplyMirror(s1, plane);
      assert g == m.(mirrorPlaneCalculated := true);
      assert g.deltas == s1.deltas;
    }
  }

  /** The local step leaves the global joint data alone and touches no
      untracked joint's local position. */
  lemma LocalStepKeepsReading(s: SkeletonState, k: AxisScales, angle: AngleFn)
    requires ArraysWellFormed(s)
    requires ScalesFit(s.joints[Torso], s.joints[LeftShoulder], s.joints[RightShoulder], k)
    ensures var s2 := LocalStep(s, k, angle);
            s2.joints == s.joints && s2.confidences == s.confidences && s2.deltas == s.deltas
            && s2.orientations == s.orientations && s2.orientationConfidences == s.orientationConfidences
            && forall j :: 0 <= j < JointCount && !IsTracked(j, s.config.fullBodyTracking) ==>
                 s2.jointsLocal[j] == s.jointsLocal[j]
  {
  }

  /** Mirror therapy LEFT: the right elbow and hand show the mirror images
      of the (read) left elbow and hand, the left side is the reading, and
      across a plane with a unit normal the two hands stand at opposite
      signed distances. */
  lemma LeftMirrorTherapyCopiesLeftSide(s: SkeletonState, frameCount: int, frameRate: real, r: Reading, mag: MagnitudeFn,
                                        plane: BodyPlane, k: AxisScales, angle: AngleFn)
    requires WellFormed(s) && ValidReading(r)
    requires ScalesFit(r.positions[Torso], r.positions[LeftShoulder], r.positions[RightShoulder], k)
    requires s.config.mirrorTherapy == MirrorTherapyLeft
    ensures var s2 := Update(s, frameCount, frameRate, r, mag, plane, k, angle);
            s2.joints[LeftHand] == r.positions[LeftHand] && s2.joints[LeftElbow] == r.positions[LeftElbow]
            && s2.joints[RightHand] == MirrorJointVector(plane, r.positions[LeftHand])
            && s2.joints[RightElbow] == MirrorJointVector(plane, r.positions[LeftElbow])
            && s2.confidences[RightHand] == r.confidences[LeftHand]
            && s2.orientations[RightShoulder] == MirrorOrientationMatrix(plane, r.orientations[LeftShoulder])
            && s2.orientationConfidences[RightShoulder] == r.orientationConfidences[LeftShoulder]
            && (IsUnit(plane.n0) ==>
                  SignedDistance(plane, s2.joints[RightHand]) == -SignedDistance(plane, s2.joints[LeftHand]))
  {
    UpdateKeepsGlobalArrays(s, frameCount, frameRate, r, mag, plane, k, angle);
    LeftMirrorReadAndMirror(s, frameCount, frameRate, r, mag, plane);
  }

  /** `LeftMirrorTherapyCopiesLeftSide` for the global part of an update. */
  lemma LeftMirrorReadAndMirror(s: SkeletonState, frameCount: int, frameRate: real, r: Reading, mag: MagnitudeFn,
                                plane: BodyPlane)
    requires ArraysWellFormed(s) && ValidReading(r)
    requires s.config.mirrorTherapy == MirrorTherapyLeft
    ensures var g := ReadAndMirror(s, frameCount, frameRate, r, mag, plane);
            g.joints[LeftHand] == r.positions[LeftHand] && g.joints[LeftElbow] == r.positions[LeftElbow]
            && g.joints[RightHand] == MirrorJointVector(plane, r.positions[LeftHand])
            && g.joints[RightElbow] == MirrorJointVector(plane, r.positions[LeftElbow])
            && g.confidences[RightHand] == r.confidences[LeftHand]
            && g.orientations[RightShoulder] == MirrorOrientationMatrix(plane, r.orientations[LeftShoulder])
            && g.orientationConfidences[RightShoulder] == r.orientationConfidences[LeftShoulder]
            && (IsUnit(plane.n0) ==>
                  SignedDistance(plane, g.joints[RightHand]) == -SignedDistance(plane, g.joints[LeftHand]))
  {
    var s0 := ResetForUpdate(s, frameCount, frameRate);
    var s1 := ReadSensor(s0, r, mag);
    var m := ApplyMirror(s1, plane);
    assert ReadAndMirror(s, frameCount, frameRate, r, mag, plane) == m.(mirrorPlaneCalculated := true);
  }

  /** The local-frame part of an update leaves the global arrays as the
      global part left them. */
  lemma UpdateKeepsGlobalArrays(s: SkeletonState, frameCount: int, frameRate: real, r: Reading, mag: MagnitudeFn,
                                plane: BodyPlane, k: AxisScales, angle: AngleFn)
    requires WellFormed(s) && ValidReading(r)
    requires ScalesFit(r.positions[Torso], r.positions[LeftShoulder], r.positions[RightShoulder], k)
    ensures var s2 := Update(s, frameCount, frameRate, r, mag, plane, k, angle);
            var g := ReadAndMirror(s, frameCount, frameRate, r, mag, plane);
            s2.joints == g.joints && s2.confidences == g.confidences
            && s2.orientations == g.orientations && s2.orientationConfidences == g.orientationConfidences
  {
    var g := ReadAndMirror(s, frameCount, frameRate, r, mag, plane);
    if s.config.calculateLocalCoordSys {
      LocalStepKeepsReading(g, k, angle);
    }
  }

  /** With mirror therapy off every tracked joint is exactly the reading. */
  lemma MirrorOffKeepsReading(s: SkeletonState, frameCount: int, frameRate: real, r: Reading, mag: MagnitudeFn,
                              plane: BodyPlane, k: AxisScales, angle: AngleFn)
    requires WellFormed(s) && ValidReading(r)
    requires ScalesFit(r.positions[Torso], r.positions[LeftShoulder], r.positions[RightShoulder], k)
    requires s.config.mirrorTherapy == MirrorTherapyOff
    ensures var s2 := Update(s, frameCount, frameRate, r, mag, plane, k, angle);
            forall j :: 0 <= j < JointCount && IsTracked(j, s.config.fullBodyTracking) ==>
              s2.joints[j] == r.positions[j] && s2.orientations[j] == r.orientations[j]
  {
  }

  /** End to end: with mirror therapy LEFT across the sagittal plane of the
      body's own frame, the right hand's local coordinates are the left
      hand's with X negated. */
  lemma MirroredHandIsLocalReflection(s: SkeletonState, frameCount: int, frameRate: real, r: Reading, mag: MagnitudeFn,
                                      k: AxisScales, angle: AngleFn)
    requires WellFormed(s) && ValidReading(r)
    requires ScalesFit(r.positions[Torso], r.positions[LeftShoulder], r.positions[RightShoulder], k)
    requires s.config.mirrorTherapy == MirrorTherapyLeft && s.config.calculateLocalCoordSys
    requires !TorsoOnShoulderLine(r.positions[Torso], r.positions[LeftShoulder], r.positions[RightShoulder])
    requires r.positions[LeftShoulder] != r.positions[RightShoulder]
    ensures var f := CalculateLocalCoordSys(r.positions[Torso], r.positions[LeftShoulder], r.positions[RightShoulder], k).value;
            var s2 := Update(s, frameCount, frameRate, r, mag, CalculateBodyPlanes(f).sagittal, k, angle);
            var l := GetJointLCS(s2, LeftHand);
            s2.localCoordSysCalculated && GetJointLCS(s2, RightHand) == Vec3(-l.x, l.y, l.z)
  {
    var f := CalculateLocalCoordSys(r.positions[Torso], r.positions[LeftShoulder], r.positions[RightShoulder], k).value;
    var plane := CalculateBodyPlanes(f).sagittal;
    var s2 := Update(s, frameCount, frameRate, r, mag, plane, k, angle);
    LeftMirrorTherapyCopiesLeftSide(s, frameCount, frameRate, r, mag, plane, k, angle);
    assert s2.frame == f;
    assert s2.jointsLocal[LeftHand] == SkeletonMath.GetJointLCS(f, r.positions[LeftHand]);
    assert s2.jointsLocal[RightHand] == SkeletonMath.GetJointLCS(f, MirrorJointVector(plane, r.positions[LeftHand]));
    MirrorNegatesLocalX(f, r.positions[LeftHand]);
  }

  /** A push recognised in an update is reported when the query looks back
      at least one update cycle, and not when it looks back none: the
      gesture is dated with the cycle before the counter is incremented. */
  lemma GestureVisibleFromOneCycle(s: SkeletonState, frameCount: int, frameRate: real, r: Reading, mag: MagnitudeFn,
                                   plane: BodyPlane, k: AxisScales, angle: AngleFn, pastCycles: int)
    requires WellFormed(s) && ValidReading(r)
    requires ScalesFit(r.positions[Torso], r.positions[LeftShoulder], r.positions[RightShoulder], k)
    ensures var s2 := Update(s, frameCount, frameRate, r, mag, plane, k, angle);
            s2.gesture.lastFrame != s.gesture.lastFrame ==>
              s2.gestureEvaluated
              && (GetLastUpperBodyGesture(s2, pastCycles) == SkeletonGesture.Push <==> pastCycles >= 1)
  {
  }

  /** With the local frame switched off there is no posture and no gesture
      to report, and the recogniser's state is untouched. */
  lemma NoLocalFrameNoRecognition(s: SkeletonState, frameCount: int, frameRate: real, r: Reading, mag: MagnitudeFn,
                                  plane: BodyPlane, k: AxisScales, angle: AngleFn, pastCycles: int)
    requires WellFormed(s) && ValidReading(r)
    requires ScalesFit(r.positions[Torso], r.positions[LeftShoulder], r.positions[RightShoulder], k)
    requires !s.config.calculateLocalCoordSys
    ensures var s2 := Update(s, frameCount, frameRate, r, mag, plane, k, angle);
            GetCurrentUpperBodyPosture(s2) == SkeletonPosture.NoPose
            && GetLastUpperBodyGesture(s2, pastCycles) == SkeletonGesture.NoGesture
            && GetJointLCS(s2, LeftHand) == Zero
            && GetArmAngles(s2, angle) == NoAngles
            && s2.gesture == s.gesture
  {
  }

  /** Coincident shoulders leave no local frame, so every local getter
      answers zero and the posture is `NO_POSE`. With recognition on, the
      recognisers still run (on undefined input): a pending push is
      cancelled, so the next update cannot complete it without a new start
      pose, and only a push recognised before can still be reported. */
  lemma CoincidentShouldersCancelPush(s: SkeletonState, frameCount: int, frameRate: real, r: Reading, mag: MagnitudeFn,
                                      plane: BodyPlane, k: AxisScales, angle: AngleFn, pastCycles: int,
                                      next: SkeletonGesture.PushInput)
    requires WellFormed(s) && ValidReading(r)
    requires ScalesFit(r.positions[Torso], r.positions[LeftShoulder], r.positions[RightShoulder], k)
    requires s.config.calculateLocalCoordSys && r.positions[LeftShoulder] == r.positions[RightShoulder]
    ensures var s2 := Update(s, frameCount, frameRate, r, mag, plane, k, angle);
            GetCurrentUpperBodyPosture(s2) == SkeletonPosture.NoPose
            && GetJointLCS(s2, LeftHand) == Zero
            && GetArmAngles(s2, angle) == NoAngles
    ensures var s2 := Update(s, frameCount, frameRate, r, mag, plane, k, angle);
            s.config.evaluatePostureAndGesture ==>
              s2.gestureEvaluated
              && s2.gesture == s.gesture.(pushStart := SkeletonGesture.NoFrame)
              && (GetLastUpperBodyGesture(s2, pastCycles) == SkeletonGesture.Push ==>
                    s.gesture.current == SkeletonGesture.Push && s.gesture.lastFrame < s.updateCycle)
              && (!SkeletonGesture.StartPose(s2.gesture.tol, next)
                  && s2.updateCycle - SkeletonGesture.NoFrame > SkeletonGesture.PushGestureMaxFrames ==>
                    !SkeletonGesture.EvaluatePushGesture(s2.gesture, s2.updateCycle, next, angle).fired)
  {
    var g := ReadAndMirror(s, frameCount, frameRate, r, mag, plane);
    LocalStepRecognition(g, k, angle);
  }

  /** The frame an update works in is the frame of the read torso and
      shoulders, whatever the mirror mode. */
  lemma UpdateLocalFrame(s: SkeletonState, frameCount: int, frameRate: real, r: Reading, mag: MagnitudeFn,
                         plane: BodyPlane, k: AxisScales, angle: AngleFn)
    requires WellFormed(s) && ValidReading(r)
    requires ScalesFit(r.positions[Torso], r.positions[LeftShoulder], r.positions[RightShoulder], k)
    ensures var s2 := Update(s, frameCount, frameRate, r, mag, plane, k, angle);
            s2.localCoordSysCalculated ==>
              Ok(s2.frame) == CalculateLocalCoordSys(r.positions[Torso], r.positions[LeftShoulder], r.positions[RightShoulder], k)
  {
    var s0 := ResetForUpdate(s, frameCount, frameRate);
    var s1 := ReadSensor(s0, r, mag);
    var s2 := if s.config.mirrorTherapy != MirrorTherapyOff then ApplyMirror(s1, plane).(mirrorPlaneCalculated := true) else s1;
    MirrorKeepsTorsoAndShoulders(s1.config.mirrorTherapy, plane, s1.joints);
    assert s2.joints[Torso] == r.positions[Torso] && s2.joints[LeftShoulder] == r.positions[LeftShoulder]
           && s2.joints[RightShoulder] == r.positions[RightShoulder];
  }

  /** Mirroring never moves the shoulders or the torso, so the local frame
      is the same with and without mirror therapy. */
  lemma MirroringKeepsFrame(s: SkeletonState, frameCount: int, frameRate: real, r: Reading, mag: MagnitudeFn,
                            plane: BodyPlane, k: AxisScales, angle: AngleFn, mode: int)
    requires WellFormed(s) && ValidReading(r) && ValidMirrorTherapy(mode)
    requires ScalesFit(r.positions[Torso], r.positions[LeftShoulder], r.positions[RightShoulder], k)
    ensures var a := Update(s, frameCount, frameRate, r, mag, plane, k, angle);
            var b := Update(SetMirrorTherapy(s, mode), frameCount, frameRate, r, mag, plane, k, angle);
            a.localCoordSysCalculated == b.localCoordSysCalculated
            && (a.localCoordSysCalculated ==> a.frame == b.frame)
            && a.joints[Torso] == b.joints[Torso]
            && a.joints[LeftShoulder] == b.joints[LeftShoulder] && a.joints[RightShoulder] == b.joints[RightShoulder]
  {
    var t := SetMirrorTherapy(s, mode);
    UpdateLocalFrame(s, frameCount, frameRate, r, mag, plane, k, angle);
    UpdateLocalFrame(t, frameCount, frameRate, r, mag, plane, k, angle);
    UpdateKeepsGlobalArrays(s, frameCount, frameRate, r, mag, plane, k, angle);
    UpdateKeepsGlobalArrays(t, frameCount, frameRate, r, mag, plane, k, angle);
  }
}
