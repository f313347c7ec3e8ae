/** Movement statistics (`SkeletonStatistics`) of the two hands and elbows:
    position histories, travelled distance, velocity, a counter of
    consecutive movements in a constant direction, and the range of motion
    of the four arm segments. Log-file output is not modelled. */
module SkeletonStatistics {
  import opened Vectors
  import Skeleton
  import SkeletonGesture

  type ArmAngles = Skeleton.ArmAngles

  /** The "no frame seen yet" value of the last frame count, the same -9999
      the gesture recogniser uses for "never". */
  const NoFrame: int := SkeletonGesture.NoFrame

  /** Two consecutive movements count as one constant movement when their
      directions are less than 90 degrees apart. */
  const ConstantMovementAngle: real := 90.0

  /** Everything recorded about one tracked joint. */
  datatype JointTrack = JointTrack(
    history: seq<Vec3>, distance: real, velocity: real, direction: Vec3, counter: int)

  datatype Statistics = Statistics(
    leftHand: JointTrack, leftElbow: JointTrack, rightHand: JointTrack, rightElbow: JointTrack,
    angles: ArmAngles, maxAngles: ArmAngles,
    linked: bool,          // whether a skeleton is attached
    lastFrameCount: int,
    seconds: real)

  /** What one update reads from the linked skeleton for one joint: its
      (unmirrored) position and the distance it moved in the last frame. */
  datatype JointSample = JointSample(position: Vec3, delta: real)

  /** What one update reads from the linked skeleton. */
  datatype Sample = Sample(
    leftHand: JointSample, leftElbow: JointSample, rightHand: JointSample, rightElbow: JointSample,
    angles: ArmAngles)

  /** The four joints whose movement is recorded. */
  datatype StatJoint = LeftHandJoint | LeftElbowJoint | RightHandJoint | RightElbowJoint

  function TrackOf(s: Statistics, j: StatJoint): JointTrack {
    match j
    case LeftHandJoint => s.leftHand
    case LeftElbowJoint => s.leftElbow
    case RightHandJoint => s.rightHand
    case RightElbowJoint => s.rightElbow
  }

  function SampleOf(sample: Sample, j: StatJoint): JointSample {
    match j
    case LeftHandJoint => sample.leftHand
    case LeftElbowJoint => sample.leftElbow
    case RightHandJoint => sample.rightHand
    case RightElbowJoint => sample.rightElbow
  }

  /** The four arm segments whose range of motion is recorded. */
  datatype Segment = LeftUpperArm | LeftLowerArm | RightUpperArm | RightLowerArm

  function AngleOf(a: ArmAngles, g: Segment): real {
    match g
    case LeftUpperArm => a.leftUpper
    case LeftLowerArm => a.leftLower
    case RightUpperArm => a.rightUpper
    case RightLowerArm => a.rightLower
  }

  /** What the range of motion measures of a segment's angle: the angle
      itself for a lower arm, its supplement (180 degrees minus the angle)
      for an upper arm. */
  function RangeValue(a: ArmAngles, g: Segment): real {
    if g == LeftUpperArm || g == RightUpperArm then 180.0 - AngleOf(a, g) else AngleOf(a, g)
  }

  const EmptyTrack := JointTrack([], 0.0, 0.0, Zero, 0)

  /** The statistics of a newly linked (or unlinked) skeleton: nothing
      recorded, every distance, velocity, counter, angle and running maximum
      0, every direction the zero vector, and no frame seen yet. */
  function NewStatistics(linked: bool): (s: Statistics)
    ensures WellFormed(s)
    ensures forall j :: TrackOf(s, j).history == [] && TrackOf(s, j).distance == 0.0
                        && TrackOf(s, j).velocity == 0.0 && TrackOf(s, j).direction == Zero
                        && TrackOf(s, j).counter == 0
    ensures forall g :: AngleOf(s.angles, g) == 0.0 && AngleOf(s.maxAngles, g) == 0.0
    ensures s.seconds == 0.0 && s.lastFrameCount == NoFrame
    ensures s.linked == linked
  {
    Statistics(EmptyTrack, EmptyTrack, EmptyTrack, EmptyTrack, Skeleton.NoAngles, Skeleton.NoAngles,
               linked, NoFrame, 0.0)
  }

  /** The four histories are appended together, so they always have the same
      length, and each counter is bounded by the number of movements so far. */
  predicate TrackWellFormed(t: JointTrack, n: nat) {
    |t.history| == n && 0 <= t.counter && (n == 0 ==> t.counter == 0) && (n > 0 ==> t.counter < n)
  }

  predicate WellFormed(s: Statistics) {
    var n := |s.leftHand.history|;
    TrackWellFormed(s.leftHand, n) && TrackWellFormed(s.leftElbow, n)
    && TrackWellFormed(s.rightHand, n) && TrackWellFormed(s.rightElbow, n)
  }

  /** The copy constructor: every recorded value is copied, but the copy is
      not linked to a skeleton and starts with a fresh clock. */
  function Copy(s: Statistics): (c: Statistics)
    ensures !c.linked && c.lastFrameCount == NoFrame && c.seconds == 0.0
    ensures c.leftHand == s.leftHand && c.leftElbow == s.leftElbow
    ensures c.rightHand == s.rightHand && c.rightElbow == s.rightElbow
    ensures c.angles == s.angles && c.maxAngles == s.maxAngles
    ensures WellFormed(s) ==> WellFormed(c)
  {
    s.(linked := false, lastFrameCount := NoFrame, seconds := 0.0)
  }

  /** One joint's part of an update. `moved` is whether a previous position
      exists (`SkeletonStatistics.update` tests the left hand's history for all four joints). */
  function TrackStep(t: JointTrack, js: JointSample, moved: bool, frameRate: real, angle: AngleFn): (t2: JointTrack)
    requires moved ==> |t.history| > 0
    ensures t2.history == t.history + [js.position]
    ensures t2.distance - t.distance == js.delta
    ensures t2.velocity == js.delta * frameRate
    ensures moved ==> Add(t.history[|t.history| - 1], t2.direction) == js.position
    ensures moved && angle(t2.direction, t.direction) < ConstantMovementAngle ==> t2.counter == t.counter + 1
    ensures moved && angle(t2.direction, t.direction) >= ConstantMovementAngle ==> t2.counter == 0
    ensures !moved ==> t2.direction == t.direction && t2.counter == t.counter
  {
    var direction := if moved then Sub(js.position, t.history[|t.history| - 1]) else t.direction;
    var counter :=
      if !moved then t.counter
      else if angle(direction, t.direction) < ConstantMovementAngle then t.counter + 1
      else 0;
    JointTrack(t.history + [js.position], t.distance + js.delta, js.delta * frameRate, direction, counter)
  }

  /** The range of motion: the lower arms' largest angle, and for the upper
      arms the largest supplement (180 degrees minus the angle). */
  function MaxStep(m: ArmAngles, a: ArmAngles): (m2: ArmAngles)
    ensures m2.leftLower >= m.leftLower && m2.leftLower >= a.leftLower
    ensures m2.leftLower == m.leftLower || m2.leftLower == a.leftLower
    ensures m2.rightLower >= m.rightLower && m2.rightLower >= a.rightLower
    ensures m2.rightLower == m.rightLower || m2.rightLower == a.rightLower
    ensures m2.leftUpper >= m.leftUpper && m2.leftUpper >= 180.0 - a.leftUpper
    ensures m2.leftUpper == m.leftUpper || m2.leftUpper == 180.0 - a.leftUpper
    ensures m2.rightUpper >= m.rightUpper && m2.rightUpper >= 180.0 - a.rightUpper
    ensures m2.rightUpper == m.rightUpper || m2.rightUpper == 180.0 - a.rightUpper
  {
    Skeleton.ArmAngles(
      if 180.0 - a.leftUpper > m.leftUpper then 180.0 - a.leftUpper else m.leftUpper,
      if a.leftLower > m.leftLower then a.leftLower else m.leftLower,
      if 180.0 - a.rightUpper > m.rightUpper then 180.0 - a.rightUpper else m.rightUpper,
      if a.rightLower > m.rightLower then a.rightLower else m.rightLower)
  }

  /** The maximum step segment by segment. */
  lemma MaxStepSegment(m: ArmAngles, a: ArmAngles, g: Segment)
    ensures AngleOf(MaxStep(m, a), g) >= AngleOf(m, g) && AngleOf(MaxStep(m, a), g) >= RangeValue(a, g)
    ensures AngleOf(MaxStep(m, a), g) == AngleOf(m, g) || AngleOf(MaxStep(m, a), g) == RangeValue(a, g)
  {
  }

  /** The clock: the seconds between the previous update's frame and this
      one, at this update's frame rate; nothing on the first update. */
  function Elapsed(s: Statistics, frameCount: int, frameRate: real): real
    requires s.lastFrameCount != NoFrame ==> frameRate != 0.0
  {
    if s.lastFrameCount != NoFrame then (frameCount - s.lastFrameCount) as real / frameRate else 0.0
  }

  /** `update`. The frame rate only divides when a previous frame exists. */
  function Update(s: Statistics, frameCount: int, frameRate: real, sample: Sample, angle: AngleFn): (s2: Statistics)
    requires WellFormed(s)
    requires s.lastFrameCount != NoFrame ==> frameRate != 0.0
    ensures WellFormed(s2)
    ensures s2.lastFrameCount == frameCount && s2.linked == s.linked
    ensures s.lastFrameCount == NoFrame ==> s2.seconds == s.seconds
    ensures s.lastFrameCount != NoFrame ==>
              (s2.seconds - s.seconds) * frameRate == (frameCount - s.lastFrameCount) as real
    ensures s.linked ==> |s2.leftHand.history| == |s.leftHand.history| + 1
    ensures s.linked ==> s2.angles == sample.angles
    ensures !s.linked ==> s2 == s.(lastFrameCount := frameCount, seconds := s2.seconds)
  {
    var seconds := s.seconds + Elapsed(s, frameCount, frameRate);
    if s.linked then
      var moved := |s.leftHand.history| > 0;
      var s2 := Statistics(
        TrackStep(s.leftHand, sample.leftHand, moved, frameRate, angle),
        TrackStep(s.leftElbow, sample.leftElbow, moved, frameRate, angle),
        TrackStep(s.rightHand, sample.rightHand, moved, frameRate, angle),
        TrackStep(s.rightElbow, sample.rightElbow, moved, frameRate, angle),
        sample.angles,
        MaxStep(s.maxAngles, sample.angles),
        true, frameCount, seconds);
      ElapsedScaled(s, frameCount, frameRate);
      s2
    else
      ElapsedScaled(s, frameCount, frameRate);
      s.(lastFrameCount := frameCount, seconds := seconds)
  }

  lemma ElapsedScaled(s: Statistics, frameCount: int, frameRate: real)
    requires s.lastFrameCount != NoFrame ==> frameRate != 0.0
    ensures s.lastFrameCount != NoFrame ==>
              Elapsed(s, frameCount, frameRate) * frameRate == (frameCount - s.lastFrameCount) as real
  {
    if s.lastFrameCount != NoFrame {
      var q := (frameCount - s.lastFrameCount) as real;
      calc {
        Elapsed(s, frameCount, frameRate) * frameRate;
        (q / frameRate) * frameRate;
        q;
      }
    }
  }

  /** One call of `update`, with the frame count, the frame rate and what
      the linked skeleton showed. */
  datatype Tick = Tick(frameCount: int, frameRate: real, sample: Sample)

  predicate PositiveRates(ticks: seq<Tick>) {
    forall i :: 0 <= i < |ticks| ==> ticks[i].frameRate > 0.0
  }

  /** The statistics after a sequence of updates. */
  function Run(s: Statistics, ticks: seq<Tick>, angle: AngleFn): (s2: Statistics)
    requires WellFormed(s) && PositiveRates(ticks)
    ensures WellFormed(s2) && s2.linked == s.linked
    decreases |ticks|
  {
    if |ticks| == 0 then s
    else
      var n := |ticks| - 1;
      var t := ticks[n];
      Update(Run(s, ticks[..n], angle), t.frameCount, t.frameRate, t.sample, angle)
  }

  /** In a linked update every joint takes the same step, with the left
      hand's history deciding for all four whether a direction is measured. */
  lemma UpdateStepsEveryJoint(s: Statistics, frameCount: int, frameRate: real, sample: Sample, angle: AngleFn,
                              j: StatJoint)
    requires WellFormed(s) && s.linked
    requires s.lastFrameCount != NoFrame ==> frameRate != 0.0
    ensures |TrackOf(s, j).history| == |s.leftHand.history|
    ensures TrackOf(Update(s, frameCount, frameRate, sample, angle), j)
            == TrackStep(TrackOf(s, j), SampleOf(sample, j), |s.leftHand.history| > 0, frameRate, angle)
  {
  }

  /** The positions of one joint in a sequence of updates. */
  function Positions(ticks: seq<Tick>, j: StatJoint): (ps: seq<Vec3>)
    ensures |ps| == |ticks|
    ensures forall i :: 0 <= i < |ticks| ==> ps[i] == SampleOf(ticks[i].sample, j).position
  {
    if |ticks| == 0 then [] else Positions(ticks[..|ticks| - 1], j) + [SampleOf(ticks[|ticks| - 1].sample, j).position]
  }

  /** The deltas of one joint in a sequence of updates, summed. */
  function DeltaSum(ticks: seq<Tick>, j: StatJoint): real {
    if |ticks| == 0 then 0.0 else DeltaSum(ticks[..|ticks| - 1], j) + SampleOf(ticks[|ticks| - 1].sample, j).delta
  }

  /** While linked, each joint's history is the sequence of its sampled
      positions appended to the old one. */
  lemma {:induction false} LinkedRunRecordsHistory(s: Statistics, ticks: seq<Tick>, angle: AngleFn, j: StatJoint)
    requires WellFormed(s) && PositiveRates(ticks) && s.linked
    ensures TrackOf(Run(s, ticks, angle), j).history == TrackOf(s, j).history + Positions(ticks, j)
    decreases |ticks|
  {
    if |ticks| > 0 {
      var n := |ticks| - 1;
      var t := ticks[n];
      var init := ticks[..n];
      assert PositiveRates(init) by {
        forall i | 0 <= i < n ensures init[i].frameRate > 0.0 {
          assert init[i] == ticks[i];
        }
      }
      var prev := Run(s, init, angle);
      LinkedRunRecordsHistory(s, init, angle, j);
      UpdateStepsEveryJoint(prev, t.frameCount, t.frameRate, t.sample, angle, j);
      var js := SampleOf(t.sample, j);
      assert Positions(ticks, j) == Positions(init, j) + [js.position];
      AppendAssociative(TrackOf(s, j).history, Positions(init, j), [js.position]);
    }
  }

  /** While linked, each joint's distance is the old distance plus the sum
      of its sampled deltas. */
  lemma {:induction false} LinkedRunRecordsDistance(s: Statistics, ticks: seq<Tick>, angle: AngleFn, j: StatJoint)
    requires WellFormed(s) && PositiveRates(ticks) && s.linked
    ensures TrackOf(Run(s, ticks, angle), j).distance == TrackOf(s, j).distance + DeltaSum(ticks, j)
    decreases |ticks|
  {
    if |ticks| > 0 {
      var n := |ticks| - 1;
      var t := ticks[n];
      var init := ticks[..n];
      assert PositiveRates(init) by {
        forall i | 0 <= i < n ensures init[i].frameRate > 0.0 {
          assert init[i] == ticks[i];
        }
      }
      var prev := Run(s, init, angle);
      LinkedRunRecordsDistance(s, init, angle, j);
      UpdateStepsEveryJoint(prev, t.frameCount, t.frameRate, t.sample, angle, j);
    }
  }

  lemma AppendAssociative<T>(a: seq<T>, b: seq<T>, c: seq<T>)
    ensures a + (b + c) == (a + b) + c
  {
  }

  /** Both together: each joint's history is the sequence of its sampled
      positions appended to the old one, and its distance is the old
      distance plus the sum of its deltas. */
  lemma LinkedRunRecordsEverything(s: Statistics, ticks: seq<Tick>, angle: AngleFn, j: StatJoint)
    requires WellFormed(s) && PositiveRates(ticks) && s.linked
    ensures TrackOf(Run(s, ticks, angle), j).history == TrackOf(s, j).history + Positions(ticks, j)
    ensures TrackOf(Run(s, ticks, angle), j).distance == TrackOf(s, j).distance + DeltaSum(ticks, j)
  {
    LinkedRunRecordsHistory(s, ticks, angle, j);
    LinkedRunRecordsDistance(s, ticks, angle, j);
  }

  /** The same for all four joints at once. */
  lemma LinkedRunRecordsAllJoints(s: Statistics, ticks: seq<Tick>, angle: AngleFn)
    requires WellFormed(s) && PositiveRates(ticks) && s.linked
    ensures var r := Run(s, ticks, angle);
            forall j :: TrackOf(r, j).history == TrackOf(s, j).history + Positions(ticks, j)
                        && TrackOf(r, j).distance == TrackOf(s, j).distance + DeltaSum(ticks, j)
  {
    forall j {
      LinkedRunRecordsEverything(s, ticks, angle, j);
    }
  }

  predicate NonNegativeDeltas(ticks: seq<Tick>, j: StatJoint) {
    forall i :: 0 <= i < |ticks| ==> SampleOf(ticks[i].sample, j).delta >= 0.0
  }

  lemma {:induction false} DeltaSumNonNegative(ticks: seq<Tick>, j: StatJoint)
    requires NonNegativeDeltas(ticks, j)
    ensures DeltaSum(ticks, j) >= 0.0
    decreases |ticks|
  {
    if |ticks| > 0 {
      var n := |ticks| - 1;
      assert NonNegativeDeltas(ticks[..n], j) by {
        forall i | 0 <= i < n ensures SampleOf(ticks[..n][i].sample, j).delta >= 0.0 {
          assert ticks[..n][i] == ticks[i];
        }
      }
      DeltaSumNonNegative(ticks[..n], j);
    }
  }

  /** Deltas are magnitudes, hence non-negative, so no joint's distance
      ever shrinks. */
  lemma DistanceNeverShrinks(s: Statistics, ticks: seq<Tick>, angle: AngleFn, j: StatJoint)
    requires WellFormed(s) && PositiveRates(ticks) && s.linked && NonNegativeDeltas(ticks, j)
    ensures TrackOf(Run(s, ticks, angle), j).distance >= TrackOf(s, j).distance
  {
    LinkedRunRecordsEverything(s, ticks, angle, j);
    DeltaSumNonNegative(ticks, j);
  }

  /** The running maxima after a sequence of samples. */
  function FoldMax(m: ArmAngles, ticks: seq<Tick>): ArmAngles
    decreases |ticks|
  {
    if |ticks| == 0 then m else MaxStep(FoldMax(m, ticks[..|ticks| - 1]), ticks[|ticks| - 1].sample.angles)
  }

  lemma {:induction false} LinkedRunFoldsMaxima(s: Statistics, ticks: seq<Tick>, angle: AngleFn)
    requires WellFormed(s) && PositiveRates(ticks) && s.linked
    ensures Run(s, ticks, angle).maxAngles == FoldMax(s.maxAngles, ticks)
    decreases |ticks|
  {
    if |ticks| > 0 {
      LinkedRunFoldsMaxima(s, ticks[..|ticks| - 1], angle);
    }
  }

  lemma {:induction false} FoldMaxBounds(m: ArmAngles, ticks: seq<Tick>, g: Segment)
    ensures var r := AngleOf(FoldMax(m, ticks), g);
            r >= AngleOf(m, g)
            && (forall i :: 0 <= i < |ticks| ==> r >= RangeValue(ticks[i].sample.angles, g))
            && (r == AngleOf(m, g) || exists i :: 0 <= i < |ticks| && r == RangeValue(ticks[i].sample.angles, g))
    decreases |ticks|
  {
    if |ticks| > 0 {
      var n := |ticks| - 1;
      var init := ticks[..n];
      FoldMaxBounds(m, init, g);
      var prev := AngleOf(FoldMax(m, init), g);
      var r := AngleOf(FoldMax(m, ticks), g);
      MaxStepSegment(FoldMax(m, init), ticks[n].sample.angles, g);
      forall i | 0 <= i < |ticks|
        ensures r >= RangeValue(ticks[i].sample.angles, g)
      {
        if i < n {
          assert ticks[i] == init[i];
        }
      }
      if r != AngleOf(m, g) && r != RangeValue(ticks[n].sample.angles, g) {
        assert r == prev;
        var i :| 0 <= i < n && prev == RangeValue(init[i].sample.angles, g);
        assert ticks[i] == init[i];
      }
    }
  }

  /** A maximum recorded from a run: for each segment, at least the starting
      maximum and every sampled value (the angle of a lower arm, the
      supplement of an upper arm's), and equal to one of them. */
  lemma MaxAngleIsRunningMaximum(s: Statistics, ticks: seq<Tick>, angle: AngleFn, g: Segment)
    requires WellFormed(s) && PositiveRates(ticks) && s.linked
    ensures var m := AngleOf(Run(s, ticks, angle).maxAngles, g);
            m >= AngleOf(s.maxAngles, g)
            && (forall i :: 0 <= i < |ticks| ==> m >= RangeValue(ticks[i].sample.angles, g))
            && (m == AngleOf(s.maxAngles, g) || exists i :: 0 <= i < |ticks| && m == RangeValue(ticks[i].sample.angles, g))
  {
    LinkedRunFoldsMaxima(s, ticks, angle);
    FoldMaxBounds(s.maxAngles, ticks, g);
  }

  /** An unlinked statistics object (such as a copy) only keeps time: every
      recorded value stays as it was, whatever the updates. */
  lemma {:induction false} UnlinkedRunOnlyKeepsTime(s: Statistics, ticks: seq<Tick>, angle: AngleFn)
    requires WellFormed(s) && PositiveRates(ticks) && !s.linked
    ensures var s2 := Run(s, ticks, angle);
            s2.leftHand == s.leftHand && s2.leftElbow == s.leftElbow
            && s2.rightHand == s.rightHand && s2.rightElbow == s.rightElbow
            && s2.angles == s.angles && s2.maxAngles == s.maxAngles
    decreases |ticks|
  {
    if |ticks| > 0 {
      UnlinkedRunOnlyKeepsTime(s, ticks[..|ticks| - 1], angle);
    }
  }

  /** Hence a copy is a snapshot: later updates of the original do not show
      in it, and updates of the copy itself change none of its values. */
  lemma CopyIsSnapshot(s: Statistics, ticks: seq<Tick>, angle: AngleFn)
    requires WellFormed(s) && PositiveRates(ticks)
    ensures var c := Run(Copy(s), ticks, angle);
            c.leftHand == s.leftHand && c.rightHand == s.rightHand
            && c.leftElbow == s.leftElbow && c.rightElbow == s.rightElbow
            && c.angles == s.angles && c.maxAngles == s.maxAngles
  {
    UnlinkedRunOnlyKeepsTime(Copy(s), ticks, angle);
  }

  /** What the clock should read after a sequence of updates: for every
      update after the first, the frames since the previous one divided by
      that update's frame rate. */
  function ClockReading(ticks: seq<Tick>): real
    requires PositiveRates(ticks)
    decreases |ticks|
  {
    if |ticks| <= 1 then 0.0
    else
      var n := |ticks| - 1;
      ClockReading(ticks[..n]) + (ticks[n].frameCount - ticks[n - 1].frameCount) as real / ticks[n].frameRate
  }

  predicate RealFrames(ticks: seq<Tick>) {
    forall i :: 0 <= i < |ticks| ==> ticks[i].frameCount != NoFrame
  }

  /** The clock of a fresh statistics object, whatever the frame rates,
      reads the elapsed time of the updates it was given, and remembers the
      last frame. */
  lemma {:induction false} RunKeepsClock(s: Statistics, ticks: seq<Tick>, angle: AngleFn)
    requires WellFormed(s) && s.lastFrameCount == NoFrame && s.seconds == 0.0
    requires PositiveRates(ticks) && RealFrames(ticks)
    ensures Run(s, ticks, angle).seconds == ClockReading(ticks)
    ensures |ticks| > 0 ==> Run(s, ticks, angle).lastFrameCount == ticks[|ticks| - 1].frameCount
    decreases |ticks|
  {
    if |ticks| > 0 {
      var n := |ticks| - 1;
      var init := ticks[..n];
      assert PositiveRates(init) && RealFrames(init) by {
        forall i | 0 <= i < n ensures init[i] == ticks[i] { }
      }
      RunKeepsClock(s, init, angle);
      if n > 0 {
        assert init[n - 1] == ticks[n - 1];
      }
    }
  }

  /** At a constant rate the elapsed time, scaled by the rate, is the number
      of frames between the first and the last update. */
  lemma {:induction false} ClockAtConstantRate(ticks: seq<Tick>, rate: real)
    requires |ticks| > 0 && rate > 0.0
    requires forall i :: 0 <= i < |ticks| ==> ticks[i].frameRate == rate
    ensures PositiveRates(ticks)
    ensures ClockReading(ticks) * rate == (ticks[|ticks| - 1].frameCount - ticks[0].frameCount) as real
    decreases |ticks|
  {
    var n := |ticks| - 1;
    if n > 0 {
      var init := ticks[..n];
      assert init[0] == ticks[0] && init[n - 1] == ticks[n - 1];
      ClockAtConstantRate(init, rate);
      DivideThenScale(ClockReading(init), (ticks[n].frameCount - ticks[n - 1].frameCount) as real, rate);
    }
  }

  lemma DivideThenScale(a: real, q: real, r: real)
    requires r != 0.0
    ensures (a + q / r) * r == a * r + q
  {
  }
}
