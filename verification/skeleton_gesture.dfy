/** The push-gesture recogniser (`SkeletonGesture`): a small state machine
    over the start frame of a push and the frame of the last recognised
    gesture, with a 30-frame window for completing the push. */
module SkeletonGesture {
  import opened Vectors
  import opened SkeletonMath

  datatype Gesture = NoGesture | Push

  /** The frame value meaning "never": no gesture recognised yet, or no push
      started. */
  const NoFrame: int := -9999

  /** The most update cycles a push may take from its start pose. */
  const PushGestureMaxFrames: int := 30

  const DefaultTolerance: real := 0.5

  /** The gesture tolerance and its angle tolerance in degrees. */
  datatype GestureTolerance = GestureTolerance(tolerance: real, angleTolerance: real)

  /** The recogniser's state. The start frame is a static field shared by all
      recognisers in the Java library (`SkeletonGesture.pushGestureStartFrame`);
      here it belongs to one recogniser. */
  datatype GestureState = GestureState(
    current: Gesture, lastFrame: int, pushStart: int, tol: GestureTolerance)

  /** The field initialisers: no gesture, never recognised, no push started,
      tolerance 0.5 with an angle tolerance of 20 degrees times 0.5. */
  const InitialGesture := GestureState(NoGesture, NoFrame, NoFrame,
                                       GestureTolerance(DefaultTolerance, 20.0 * DefaultTolerance))

  predicate ValidTolerance(t: GestureTolerance) {
    0.0 <= t.tolerance <= 1.0 && t.angleTolerance == 40.0 * t.tolerance
  }

  /** `setGestureTolerance`: values outside [0, 1] fall back to 0.5; the
      angle tolerance becomes 40 degrees times the tolerance. Only the
      tolerance changes. */
  function SetGestureTolerance(g: GestureState, value: real): (g2: GestureState)
    ensures ValidTolerance(g2.tol)
    ensures 0.0 <= value <= 1.0 ==> g2.tol.tolerance == value
    ensures !(0.0 <= value <= 1.0) ==> g2.tol.tolerance == DefaultTolerance
    ensures g2.current == g.current && g2.lastFrame == g.lastFrame && g2.pushStart == g.pushStart
  {
    var tolerance := if value >= 0.0 && value <= 1.0 then value else DefaultTolerance;
    g.(tol := GestureTolerance(tolerance, 40.0 * tolerance))
  }

  /** The initial angle tolerance (10 degrees) is not what setting the very
      same tolerance 0.5 yields (20 degrees): the initial state is outside
      the setter's invariant. */
  lemma InitialAngleToleranceDiffers()
    ensures InitialGesture.tol.tolerance == DefaultTolerance
    ensures !ValidTolerance(InitialGesture.tol)
    ensures SetGestureTolerance(InitialGesture, DefaultTolerance).tol.angleTolerance
            == 2.0 * InitialGesture.tol.angleTolerance
  {
  }

  /** `getLastUpperBodyGesture`: the stored gesture if it was recognised at
      frame `maxAge` or later, otherwise `NoGesture`. */
  function GetLastUpperBodyGesture(g: GestureState, maxAge: int): (r: Gesture)
    ensures r == Push <==> g.current == Push && g.lastFrame >= maxAge
    ensures g.lastFrame < maxAge ==> r == NoGesture
  {
    if g.lastFrame >= maxAge then g.current else NoGesture
  }

  /** A fresh recogniser reports no gesture for any frame limit above the
      "never" value, and even below it holds no gesture to report. */
  lemma FreshRecogniserReportsNothing(maxAge: int)
    ensures GetLastUpperBodyGesture(InitialGesture, maxAge) == NoGesture
  {
  }

  /** What the push test reads from the skeleton, all in local coordinates:
      shoulders and hands, the four arm vectors and the Z axis. */
  datatype PushInput = PushInput(
    rightShoulder: Vec3, rightHand: Vec3, leftShoulder: Vec3, leftHand: Vec3,
    rightUpper: Vec3, rightLower: Vec3, leftUpper: Vec3, leftLower: Vec3, axisZ: Vec3)

  function RightHandShoulder(o: PushInput): Vec3 {
    Sub(o.rightShoulder, o.rightHand)
  }

  function LeftHandShoulder(o: PushInput): Vec3 {
    Sub(o.leftShoulder, o.leftHand)
  }

  /** Both hand-to-shoulder vectors lie within 30 degrees plus tolerance of
      the body Z axis: the hands move along Z. */
  predicate Aligned(t: GestureTolerance, o: PushInput, angle: AngleFn) {
    IsValueBetween(angle(RightHandShoulder(o), o.axisZ), 0.0, 30.0 + t.angleTolerance)
    && IsValueBetween(angle(LeftHandShoulder(o), o.axisZ), 0.0, 30.0 + t.angleTolerance)
  }

  /** The start pose: both hands within 200 + 200 * tolerance of their
      shoulders. */
  predicate StartPose(t: GestureTolerance, o: PushInput) {
    var bound := 200.0 + 200.0 * t.tolerance;
    LengthAtMost(RightHandShoulder(o), bound) && LengthAtMost(LeftHandShoulder(o), bound)
  }

  /** The end pose: both arms straight and the upper arms pointing against
      the body Z axis (forward, away from the body). */
  predicate EndPose(t: GestureTolerance, o: PushInput, angle: AngleFn) {
    var at := t.angleTolerance;
    IsValueBetween(angle(o.rightUpper, o.rightLower), 0.0, 30.0 + at)
    && IsValueBetween(angle(o.leftUpper, o.leftLower), 0.0, 30.0 + at)
    && IsValueBetween(angle(o.rightUpper, o.axisZ), 150.0 - at, 180.0)
    && IsValueBetween(angle(o.leftUpper, o.axisZ), 150.0 - at, 180.0)
  }

  /** The outcome of one push test: whether it fired and the new start frame. */
  datatype PushStep = PushStep(fired: bool, pushStart: int)

  /** `evaluatePushGesture`. */
  function EvaluatePushGesture(g: GestureState, frameCount: int, o: PushInput, angle: AngleFn): (s: PushStep)
    ensures !Aligned(g.tol, o, angle) ==> s == PushStep(false, NoFrame)
    ensures s.fired ==> Aligned(g.tol, o, angle) && EndPose(g.tol, o, angle)
                        && frameCount - s.pushStart <= PushGestureMaxFrames
    ensures s.fired ==> s.pushStart == (if StartPose(g.tol, o) then frameCount else g.pushStart)
    ensures Aligned(g.tol, o, angle) && StartPose(g.tol, o) ==>
              s.pushStart == frameCount && (s.fired <==> EndPose(g.tol, o, angle))
    ensures Aligned(g.tol, o, angle) && !StartPose(g.tol, o) ==>
              if frameCount - g.pushStart <= PushGestureMaxFrames
              then s == PushStep(EndPose(g.tol, o, angle), g.pushStart)
              else s == PushStep(false, NoFrame)
  {
    if Aligned(g.tol, o, angle) then
      var start := if StartPose(g.tol, o) then frameCount else g.pushStart;
      if frameCount - start <= PushGestureMaxFrames then
        PushStep(EndPose(g.tol, o, angle), start)
      else
        PushStep(false, NoFrame)
    else
      PushStep(false, NoFrame)
  }

  /** `evaluate`: run the push test; on success store PUSH and the frame. */
  function Evaluate(g: GestureState, frameCount: int, o: PushInput, angle: AngleFn): (g2: GestureState)
    ensures g2.tol == g.tol
    ensures g2.pushStart == EvaluatePushGesture(g, frameCount, o, angle).pushStart
    ensures EvaluatePushGesture(g, frameCount, o, angle).fired ==>
              g2.current == Push && g2.lastFrame == frameCount
    ensures !EvaluatePushGesture(g, frameCount, o, angle).fired ==>
              g2.current == g.current && g2.lastFrame == g.lastFrame
    ensures g.current == Push ==> g2.current == Push
  {
    var step := EvaluatePushGesture(g, frameCount, o, angle);
    if step.fired then
      g.(current := Push, lastFrame := frameCount, pushStart := step.pushStart)
    else
      g.(pushStart := step.pushStart)
  }

  /** Start and end pose may meet in one frame: an aligned input that is in
      both poses fires at once, whatever the earlier state. */
  lemma SameFrameStartAndEnd(g: GestureState, frameCount: int, o: PushInput, angle: AngleFn)
    requires Aligned(g.tol, o, angle) && StartPose(g.tol, o) && EndPose(g.tol, o, angle)
    ensures Evaluate(g, frameCount, o, angle).current == Push
    ensures GetLastUpperBodyGesture(Evaluate(g, frameCount, o, angle), frameCount) == Push
  {
  }

  /** The window is inclusive: an end pose exactly 30 frames after the start
      fires, one frame later it resets the start instead. */
  lemma WindowBoundary(g: GestureState, o: PushInput, angle: AngleFn)
    requires Aligned(g.tol, o, angle) && !StartPose(g.tol, o) && EndPose(g.tol, o, angle)
    requires g.pushStart != NoFrame
    ensures Evaluate(g, g.pushStart + 30, o, angle).lastFrame == g.pushStart + 30
    ensures var g2 := Evaluate(g, g.pushStart + 31, o, angle);
            g2.pushStart == NoFrame && g2.lastFrame == g.lastFrame && g2.current == g.current
  {
  }

  /** The recogniser after a sequence of evaluations: the tolerance never
      changes, a recognised push stays recognised, and the stored frame is
      either the initial one or one at which a push was recognised. */
  function Run(g: GestureState, frames: seq<int>, inputs: seq<PushInput>, angle: AngleFn): (g2: GestureState)
    requires |frames| == |inputs|
    ensures g2.tol == g.tol
    ensures g.current == Push ==> g2.current == Push
    ensures (g2.current == g.current && g2.lastFrame == g.lastFrame)
            || (g2.current == Push && exists i :: 0 <= i < |frames| && frames[i] == g2.lastFrame)
    decreases |frames|
  {
    if |frames| == 0 then g
    else
      var n := |frames| - 1;
      var prev := Run(g, frames[..n], inputs[..n], angle);
      var g2 := Evaluate(prev, frames[n], inputs[n], angle);
      assert g2.lastFrame != prev.lastFrame ==> frames[n] == g2.lastFrame;
      assert prev.lastFrame != g.lastFrame || prev.current != g.current ==>
               exists i :: 0 <= i < n && frames[..n][i] == prev.lastFrame;
      assert forall i :: 0 <= i < n ==> frames[..n][i] == frames[i];
      g2
  }

  /** A pending start frame is the frame of some earlier start pose, and
      every input since then, that one included, was aligned with Z. */
  predicate StartExplained(start: int, t: GestureTolerance, frames: seq<int>, inputs: seq<PushInput>, angle: AngleFn)
    requires |frames| == |inputs|
  {
    start == NoFrame
    || exists j :: 0 <= j < |frames| && frames[j] == start && StartPose(t, inputs[j])
                   && forall k :: j <= k < |frames| ==> Aligned(t, inputs[k], angle)
  }

  lemma {:induction false} StartAlwaysExplained(g: GestureState, frames: seq<int>, inputs: seq<PushInput>, angle: AngleFn)
    requires |frames| == |inputs|
    requires g.pushStart == NoFrame
    ensures StartExplained(Run(g, frames, inputs, angle).pushStart, g.tol, frames, inputs, angle)
    decreases |frames|
  {
    if |frames| > 0 {
      var n := |frames| - 1;
      var fs, os := frames[..n], inputs[..n];
      var prev := Run(g, fs, os, angle);
      StartAlwaysExplained(g, fs, os, angle);
      var t := g.tol;
      var o := inputs[n];
      var start := Run(g, frames, inputs, angle).pushStart;
      if start != NoFrame {
        assert Aligned(t, o, angle);
        if StartPose(t, o) {
          assert frames[n] == start;
        } else {
          assert start == prev.pushStart;
          var j :| 0 <= j < n && fs[j] == start && StartPose(t, os[j])
                   && forall k :: j <= k < n ==> Aligned(t, os[k], angle);
          assert frames[j] == start && inputs[j] == os[j];
          forall k | j <= k < |frames|
            ensures Aligned(t, inputs[k], angle)
          {
            if k < n {
              assert inputs[k] == os[k];
            }
          }
        }
      }
    }
  }

  /** Frames strictly increase along the sequence. */
  predicate Increasing(frames: seq<int>) {
    forall i, j :: 0 <= i < j < |frames| ==> frames[i] < frames[j]
  }

  /** A push recognised at frame f (from a recogniser with no push pending
      and non-negative frames) needs a start pose at some frame s with
      f - 30 <= s <= f, and the hands aligned with Z at every evaluation from
      s to f. */
  lemma PushNeedsStartWithinWindow(g: GestureState, frames: seq<int>, inputs: seq<PushInput>, angle: AngleFn)
    requires |frames| == |inputs| > 0
    requires g.pushStart == NoFrame
    requires Increasing(frames) && frames[0] >= 0
    requires var n := |frames| - 1;
      EvaluatePushGesture(Run(g, frames[..n], inputs[..n], angle), frames[n], inputs[n], angle).fired
    ensures var n := |frames| - 1;
      exists j :: 0 <= j <= n && StartPose(g.tol, inputs[j])
                  && frames[n] - PushGestureMaxFrames <= frames[j] <= frames[n]
                  && forall k :: j <= k <= n ==> Aligned(g.tol, inputs[k], angle)
  {
    var n := |frames| - 1;
    StartAlwaysExplained(g, frames, inputs, angle);
    var start := Run(g, frames, inputs, angle).pushStart;
    var f := frames[n];
    assert f >= 0 by {
      if n > 0 {
        assert frames[0] < frames[n];
      }
    }
    assert f - start <= PushGestureMaxFrames;
    assert start != NoFrame;
    var j :| 0 <= j < |frames| && frames[j] == start && StartPose(g.tol, inputs[j])
             && forall k :: j <= k < |frames| ==> Aligned(g.tol, inputs[k], angle);
    assert frames[j] <= f by {
      if j < n {
        assert frames[j] < frames[n];
      }
    }
  }
}
