# Therapeutic Skeleton in Dafny

A model of the core of the Therapeutic Skeleton library. The library sits
between a Kinect/OpenNI skeleton tracker and a Processing sketch used in
movement therapy. Each update it:

- reads fifteen joints (positions, orientations, confidences);
- optionally mirrors one arm onto the other across the body's sagittal
  plane (mirror therapy);
- builds a local coordinate frame centred on the torso and moves the joints
  into it;
- classifies the upper-body posture and recognises a push gesture;
- keeps movement statistics of the hands and elbows.

The model consists of five modules:

| file | module | models |
|---|---|---|
| `vectors.dfy` | `Vectors` | the `PVector`/`PMatrix3D` arithmetic the core uses, with its algebraic lemmas |
| `skeleton_math.dfy` | `SkeletonMath` | local frame, body planes in Hesse normal form, mirroring of joints and orientations, `isValueBetween` |
| `skeleton_posture.dfy` | `SkeletonPosture` | posture tolerance, the nine posture predicates, the first-match cascade |
| `skeleton_gesture.dfy` | `SkeletonGesture` | gesture tolerance, the push recogniser's window, `getLastUpperBodyGesture` |
| `skeleton_statistics.dfy` | `SkeletonStatistics` | one statistics update, the copy constructor, runs of updates |
| `skeleton.dfy` | `Skeleton` | the skeleton state, constructor and setter, the guarded getters, the update sequence |

Modelling choices:

- **Values.** Floats are modelled as `real`. Every object becomes an
  immutable datatype, and every mutating method becomes a function from the
  old state to the new one. The getters of `SkeletonStatistics` are the
  fields of the `Statistics` datatype.
- **Angles.** Angles are in degrees, so `PApplet.radians(30)` becomes
  `30.0`. `PVector.angleBetween` and `PVector.mag` are parameters of type
  `AngleFn` and `MagnitudeFn`, because their floating-point results cannot
  be computed exactly.
- **Normalising.** `normalize()` divides an axis by its length. The model
  receives the reciprocal lengths as an `AxisScales` value, and
  `ScalesFit`/`IsInverseLength` state what these numbers must satisfy. A
  zero axis is scaled to zero.
- **Sensor and mirror plane.** An update receives the sensor reading
  (`Reading`, already in anatomical left/right labels) and the mirror plane
  as inputs.
- **Coincident shoulders.** When the two shoulders coincide, the Java library
  divides by zero while building the frame, and the frame's axes become
  NaN. The model returns `Err(CoincidentShoulders)` instead. The update
  then leaves the local frame uncalculated, but the recognisers still run
  as they do on NaN input: no posture, and a pending push is cancelled.

## Model

| member | source | states |
|---|---|---|
| SkeletonMath.FrameAxes | src/therapeuticskeleton/SkeletonMath.java:58-73 | the raw axes exist exactly when the shoulders differ; X is orthogonal to Y, Z is orthogonal to both, and Y is zero exactly when the torso lies on the shoulder line |
| SkeletonMath.ShoulderLineFoot | src/therapeuticskeleton/SkeletonMath.java:60-70 | the cross point lies on the shoulder line, and the vector from the torso to it is orthogonal to the shoulder line |
| SkeletonMath.ShoulderLineFootUnique | src/therapeuticskeleton/SkeletonMath.java:60-71 | any point of the shoulder line whose offset from the torso is orthogonal to X is that cross point, so Y is the perpendicular from the torso to the shoulder line |
| SkeletonMath.NormalisedFrame | src/therapeuticskeleton/SkeletonMath.java:73-77 | normalising gives a unit X along the raw X; with a non-zero raw Y the result is right-handed orthonormal and Y keeps its direction, with a zero raw Y both Y and Z are zero |
| SkeletonMath.CalculateLocalCoordSys | src/therapeuticskeleton/SkeletonMath.java:54-78 | error exactly for coincident shoulders; otherwise the origin is the torso, X is the unit vector from the left to the right shoulder, the frame is orthonormal exactly when the torso is off the shoulder line, and Y points from the torso to the shoulder line |
| SkeletonMath.FrameMatrix | src/therapeuticskeleton/SkeletonMath.java:79-82 | the forward matrix maps the local origin to the torso and local unit vectors to the three axes, with the affine bottom row |
| SkeletonMath.FrameMatrixDeterminant | src/therapeuticskeleton/SkeletonMath.java:79-84 | the forward matrix of every calculated frame has determinant 1 when orthonormal and 0 otherwise, which is when `invert()` fails |
| SkeletonMath.FrameDeterminant | src/therapeuticskeleton/SkeletonMath.java:79-84 | for any frame that is orthonormal or has zero Y and Z axes, the forward matrix's determinant is 1 or 0 respectively: the matrix is invertible exactly for the orthonormal frame |
| SkeletonMath.InverseFrameMatrix | src/therapeuticskeleton/SkeletonMath.java:83-84 | when the frame is singular, inversion leaves the copied forward matrix unchanged |
| SkeletonMath.InverseUndoesForward | src/therapeuticskeleton/SkeletonMath.java:83-91 | for an orthonormal frame, the inverse matrix followed by the forward matrix is the identity on points, and the local coordinates are the projections of (point - torso) on the axes |
| SkeletonMath.GetJointLCS | src/therapeuticskeleton/SkeletonMath.java:87-91 | the local coordinates transform back to the global point, the torso maps to the local origin, and a singular frame falls back to the forward matrix |
| SkeletonMath.LocalGlobalRoundTrip | src/therapeuticskeleton/SkeletonMath.java:79-91 | for an orthonormal frame, local to global to local is the identity |
| SkeletonMath.CalculateBodyPlanes | src/therapeuticskeleton/SkeletonMath.java:96-104 | all three planes pass through the torso; the normals are X (sagittal), Z (frontal) and Y (transversal) |
| SkeletonMath.BodyPlaneDistanceIsLocalCoordinate | src/therapeuticskeleton/SkeletonMath.java:96-104 | a point's signed distance to the sagittal, transversal and frontal plane is its local X, Y and Z coordinate |
| SkeletonMath.MirrorJointVector | src/therapeuticskeleton/SkeletonMath.java:133-136 | with a unit normal the image lies at the negated signed distance; points on the plane are fixed; the point moves along the normal only |
| SkeletonMath.MirrorJointVectorInvolution | src/therapeuticskeleton/SkeletonMath.java:133-136 | mirroring twice across a plane with a unit normal returns the point |
| SkeletonMath.MirrorDifference | src/therapeuticskeleton/SkeletonMath.java:133-136 | the difference of two mirrored points is the reflected difference |
| SkeletonMath.MirrorPreservesDistance | src/therapeuticskeleton/SkeletonMath.java:133-136 | mirroring keeps the distance between any two points (an isometry) |
| SkeletonMath.MirrorNegatesLocalX | src/therapeuticskeleton/SkeletonMath.java:96-136 | mirroring across the frame's own sagittal plane negates a point's local X coordinate and keeps Y and Z |
| SkeletonMath.MirrorColumnReflects | src/therapeuticskeleton/SkeletonMath.java:143-154 | shifting a column by r, mirroring it and shifting back reflects it as a direction, when d = r . n0 |
| SkeletonMath.MirrorColumn | src/therapeuticskeleton/SkeletonMath.java:143-154 | each matrix column is reflected as a direction when the plane is in Hesse normal form |
| SkeletonMath.MirrorOrientationMatrix | src/therapeuticskeleton/SkeletonMath.java:139-156 | the translation column and bottom row are copied; Y and Z columns are reflected, the X column is reflected and negated |
| SkeletonMath.MirrorOrientationInvolution | src/therapeuticskeleton/SkeletonMath.java:139-156 | mirroring an orientation twice returns the original matrix |
| SkeletonMath.IsValueBetweenInclusiveAndWidening | src/therapeuticskeleton/SkeletonMath.java:158-160 | both bounds are inside the window, and a value in a window is in every wider window |
| SkeletonPosture.SetPostureTolerance | src/utils/SkeletonPosture.java:90-97 | the tolerance is kept when in [0, 1] and is 0.3 otherwise; the angle tolerance is always 20 degrees times it |
| SkeletonPosture.SetPostureToleranceIdempotent | src/utils/SkeletonPosture.java:77-97 | setting the tolerance it already has changes nothing, and setting the default gives the initial state |
| SkeletonPosture.IsIShape | src/utils/SkeletonPosture.java:163-176 | I: both elbow angles in [0, 10 + at], the upper arms at most 15 + at apart, the left upper arm at most 15 + at from local Y |
| SkeletonPosture.IsOShape | src/utils/SkeletonPosture.java:177-194 | O: the hands at most 100 + 100 * tolerance apart, both upper arms in [40 - at, 50 + at] from local Y, both elbows in [95 - at, 105 + at], the upper-arm sum at most 15 + at from local Y |
| SkeletonPosture.IsMShape | src/utils/SkeletonPosture.java:199-202 | M is an unimplemented stub that never holds |
| SkeletonPosture.IsWShape | src/utils/SkeletonPosture.java:195-198 | W is an unimplemented stub that never holds |
| SkeletonPosture.IsNShape | src/utils/SkeletonPosture.java:203-216 | N: both elbows in [85 - at, 95 + at], the upper arms in [170 - at, 180] apart, the left lower arm in [165 - at, 180] from local Y |
| SkeletonPosture.IsUShape | src/utils/SkeletonPosture.java:217-230 | U: as N, but the left lower arm at most 15 + at from local Y |
| SkeletonPosture.IsAShape | src/utils/SkeletonPosture.java:231-244 | A: the left elbow and the right upper arm against the LEFT lower arm in [0, 10 + at], the upper arms in [85 - at, 95 + at] apart, the upper-arm sum in [165 - at, 180] from local Y |
| SkeletonPosture.IsVShape | src/utils/SkeletonPosture.java:245-257 | V: both elbows in [0, 10 + at], the upper arms in [85 - at, 95 + at] apart, the upper-arm sum at most 15 + at from local Y |
| SkeletonPosture.IsHandsForwardDown | src/utils/SkeletonPosture.java:259-275 | HANDS_FORWARD_DOWN: both elbows in [0, 10 + at], the upper arms at most 15 + at apart, the left upper arm in [130 - at, 140 + at] from local Y and in [90, 180] from local Z |
| SkeletonPosture.Evaluate | src/utils/SkeletonPosture.java:150-161 | no pose exactly when no predicate of the cascade holds; otherwise the result holds and every earlier posture of the cascade fails |
| SkeletonPosture.EvaluateIsFirstMatch | src/utils/SkeletonPosture.java:150-161 | the evaluated posture is the first of the cascade whose predicate holds, or no pose when none holds |
| SkeletonPosture.CascadeWitness | src/utils/SkeletonPosture.java:150-161 | the first-match property of the cascade, proved by walking the if-else chain |
| SkeletonPosture.NeverMOrW | src/utils/SkeletonPosture.java:195-202 | the M and W postures are never reported |
| SkeletonPosture.EvaluateVShapeIff | src/utils/SkeletonPosture.java:245-257 | V is reported exactly when its three angle windows hold |
| SkeletonPosture.OppositeShapesExclusive | src/utils/SkeletonPosture.java:203-257 | under a valid tolerance, V and A cannot both hold, and neither can U and N |
| SkeletonPosture.AShapeIgnoresRightLowerArm | src/utils/SkeletonPosture.java:231-244 | the A test does not depend on the right lower arm: its second test compares the right upper arm with the left lower arm |
| SkeletonPosture.OShapeNeedsHandsClose | src/utils/SkeletonPosture.java:177-194 | O is reported only with the hands at most 100 + 100 * tolerance apart |
| SkeletonPosture.HandsForwardWindowFixed | src/utils/SkeletonPosture.java:259-275 | the forward window of HANDS_FORWARD_DOWN is [90, 180] degrees at every tolerance |
| SkeletonPosture.ToleranceMonotone | src/utils/SkeletonPosture.java:163-275 | a posture that holds at one valid tolerance holds at every larger one |
| SkeletonGesture.SetGestureTolerance | src/therapeuticskeleton/SkeletonGesture.java:32-39 | the tolerance is kept when in [0, 1] and is 0.5 otherwise; the angle tolerance is 40 degrees times it; gesture state is untouched |
| SkeletonGesture.InitialAngleToleranceDiffers | src/therapeuticskeleton/SkeletonGesture.java:16-38 | the initial angle tolerance (20 degrees times 0.5) is half of what the setter gives for the same tolerance |
| SkeletonGesture.GetLastUpperBodyGesture | src/therapeuticskeleton/SkeletonGesture.java:52-57 | PUSH exactly when the last gesture was a push recognised at or after the given frame |
| SkeletonGesture.FreshRecogniserReportsNothing | src/therapeuticskeleton/SkeletonGesture.java:14-57 | a new recogniser reports no gesture for any query |
| SkeletonGesture.Aligned | src/therapeuticskeleton/SkeletonGesture.java:73-77 | both shoulder-minus-hand vectors lie at most 30 + at degrees from local Z |
| SkeletonGesture.StartPose | src/therapeuticskeleton/SkeletonGesture.java:78-81 | both hands lie at most 200 + 200 * tolerance from their shoulders |
| SkeletonGesture.EndPose | src/therapeuticskeleton/SkeletonGesture.java:84-92 | both arms straight (elbow angle at most 30 + at) and both upper arms in [150 - at, 180] degrees from local Z |
| SkeletonGesture.EvaluatePushGesture | src/therapeuticskeleton/SkeletonGesture.java:70-104 | misalignment resets the start; a start pose restarts the window at this frame; the push fires only aligned, inside the 30-frame window and in the end pose; leaving the window resets the start |
| SkeletonGesture.Evaluate | src/therapeuticskeleton/SkeletonGesture.java:62-67 | a fired push is recorded with the frame; otherwise the gesture and its frame are unchanged; a push is never taken back |
| SkeletonGesture.Run | src/therapeuticskeleton/SkeletonGesture.java:62-67 | a run of evaluations keeps the tolerance, never takes a push back, and either leaves the gesture and its date as they were or dates a push with one of the run's frames |
| SkeletonGesture.SameFrameStartAndEnd | src/therapeuticskeleton/SkeletonGesture.java:77-93 | start and end pose in one frame fire the push at once |
| SkeletonGesture.WindowBoundary | src/therapeuticskeleton/SkeletonGesture.java:83-98 | the end pose fires 30 frames after the start but not 31 |
| SkeletonGesture.StartAlwaysExplained | src/therapeuticskeleton/SkeletonGesture.java:77-102 | after any run, the remembered start is unset or a frame that showed an aligned start pose, with every later frame aligned and in the window |
| SkeletonGesture.PushNeedsStartWithinWindow | src/therapeuticskeleton/SkeletonGesture.java:62-104 | a push fired in the last frame of a run has an aligned start pose at most 30 frames earlier |
| SkeletonStatistics.NewStatistics | src/therapeuticskeleton/SkeletonStatistics.java:8-53 | fresh statistics have empty histories, every distance, velocity and counter 0, every direction the zero vector, every angle and running maximum 0, no frame seen, the clock at zero, and the given link |
| SkeletonStatistics.Copy | src/therapeuticskeleton/SkeletonStatistics.java:107-144 | a copy has every recorded value, is not linked, has no last frame and a zero clock |
| SkeletonStatistics.TrackStep | src/therapeuticskeleton/SkeletonStatistics.java:163-198 | one joint: history appended; distance grows by the delta; velocity is delta times frame rate; the new direction leads from the last position to the new one; the counter grows below 90 degrees of turn and resets otherwise |
| SkeletonStatistics.MaxStep | src/therapeuticskeleton/SkeletonStatistics.java:205-208 | each maximum is at least the old one and the new value (180 minus the angle for upper arms), and equal to one of them |
| SkeletonStatistics.MaxStepSegment | src/therapeuticskeleton/SkeletonStatistics.java:205-208 | the same, stated for any of the four segments |
| SkeletonStatistics.ElapsedScaled | src/therapeuticskeleton/SkeletonStatistics.java:147-149 | the elapsed seconds times the frame rate are the frames since the last update |
| SkeletonStatistics.Update | src/therapeuticskeleton/SkeletonStatistics.java:146-242 | keeps the histories equal in length; the clock advances by the frames since the last update over the rate (nothing on the first); linked, one position is recorded per update; unlinked, only the clock moves |
| SkeletonStatistics.UpdateStepsEveryJoint | src/therapeuticskeleton/SkeletonStatistics.java:163-198 | in a linked update all four joints have histories as long as the left hand's, and each takes one `TrackStep` with its own sample |
| SkeletonStatistics.LinkedRunRecordsAllJoints | src/therapeuticskeleton/SkeletonStatistics.java:183-192 | over a linked run, each of the four histories grows by that joint's sampled positions in order, and each distance by the sum of that joint's deltas |
| SkeletonStatistics.LinkedRunRecordsEverything | src/therapeuticskeleton/SkeletonStatistics.java:183-192 | the same for any chosen joint: its history is the old one followed by every sampled position, its distance the old one plus all deltas |
| SkeletonStatistics.LinkedRunRecordsHistory | src/therapeuticskeleton/SkeletonStatistics.java:182-186 | over a linked run, a joint's history is the old history followed by the joint's sampled positions, one per update, in order |
| SkeletonStatistics.LinkedRunRecordsDistance | src/therapeuticskeleton/SkeletonStatistics.java:188-192 | over a linked run, a joint's distance is the old distance plus the sum of the joint's sampled deltas |
| SkeletonStatistics.DistanceNeverShrinks | src/therapeuticskeleton/SkeletonStatistics.java:188-192 | for every joint, with non-negative deltas its travelled distance never decreases over a run |
| SkeletonStatistics.LinkedRunFoldsMaxima | src/therapeuticskeleton/SkeletonStatistics.java:200-208 | over a linked run, the maxima are the sampled angles folded into the starting maxima one update at a time |
| SkeletonStatistics.FoldMaxBounds | src/therapeuticskeleton/SkeletonStatistics.java:200-208 | a folded maximum is at least the start and every sampled value, and equal to one of them |
| SkeletonStatistics.MaxAngleIsRunningMaximum | src/therapeuticskeleton/SkeletonStatistics.java:200-208 | for each of the four segments, the recorded maximum is the largest of its start value and every sampled value (the angle of a lower arm, 180 minus the angle of an upper arm) |
| SkeletonStatistics.UnlinkedRunOnlyKeepsTime | src/therapeuticskeleton/SkeletonStatistics.java:146-151 | without a linked skeleton, updates change no recorded value |
| SkeletonStatistics.CopyIsSnapshot | src/therapeuticskeleton/SkeletonStatistics.java:107-144 | updating a copy never changes what it recorded from the original: histories, distances, velocities, directions, counters, angles and maxima |
| SkeletonStatistics.RunKeepsClock | src/therapeuticskeleton/SkeletonStatistics.java:146-150 | a fresh clock reads the sum over updates of the frames since the previous one divided by that update's rate, and remembers the last frame |
| SkeletonStatistics.ClockAtConstantRate | src/therapeuticskeleton/SkeletonStatistics.java:146-150 | at a constant rate, that sum times the rate is the last frame minus the first |
| Skeleton.NewSkeleton | src/therapeuticskeleton/Skeleton.java:122-153 | all five flags as given, including statistics; a mirror mode outside the constants keeps the default off; every global and local joint at the origin with identity orientation; every delta, confidence and orientation confidence 0; all arm vectors zero; clock and cycle 0 and nothing calculated yet; fresh recognisers (initial posture tolerance, NO_POSE, initial gesture state) |
| Skeleton.DefaultSkeleton | src/therapeuticskeleton/Skeleton.java:89-140 | the two-argument constructor switches everything on except mirror therapy |
| Skeleton.SetMirrorTherapy | src/therapeuticskeleton/Skeleton.java:201-206 | a valid mode is taken, an invalid one switches mirroring off, and nothing else changes |
| Skeleton.ConstructorAgreesWithSetter | src/therapeuticskeleton/Skeleton.java:122-206 | constructor and setter select the same mode, and an invalid mode turns an active mirror therapy off |
| Skeleton.GetJoint | src/therapeuticskeleton/Skeleton.java:301-306 | the stored position of a valid joint, the origin otherwise |
| Skeleton.GetJointLCS | src/therapeuticskeleton/Skeleton.java:323-328 | the local position only for a valid joint after a frame was calculated, the origin otherwise |
| Skeleton.GetJointConfidence | src/therapeuticskeleton/Skeleton.java:332-337 | the stored confidence of a valid joint, 0 otherwise |
| Skeleton.GetJointOrientation | src/therapeuticskeleton/Skeleton.java:341-346 | the stored orientation of a valid joint, the identity otherwise |
| Skeleton.GetJointOrientationConfidence | src/therapeuticskeleton/Skeleton.java:350-355 | the stored orientation confidence of a valid joint, 0 otherwise |
| Skeleton.GetJointDelta | src/therapeuticskeleton/Skeleton.java:359-364 | the stored delta of a valid joint, 0 otherwise |
| Skeleton.UnknownJointDefaults | src/therapeuticskeleton/Skeleton.java:301-364 | every getter answers an unknown joint with its default, whatever the state |
| Skeleton.GetArmsLCS | src/therapeuticskeleton/Skeleton.java:396-425 | the local arm vectors, or zero vectors while no frame was calculated |
| Skeleton.GetArmAngles | src/therapeuticskeleton/Skeleton.java:503-532 | upper arms measured against local Y, lower arms against their upper arm, all 0 without a frame |
| Skeleton.GetOrientation | src/therapeuticskeleton/Skeleton.java:571-616 | the frame's normalised axes, or zero vectors while no frame was calculated |
| Skeleton.GetCurrentUpperBodyPosture | src/therapeuticskeleton/Skeleton.java:635-640 | the evaluated posture, or no pose if none was evaluated in the last update |
| Skeleton.GetLastUpperBodyGesture | src/therapeuticskeleton/Skeleton.java:644-649 | PUSH exactly when gestures were evaluated and a push is dated no more than the given number of cycles before the current cycle |
| Skeleton.Track | src/therapeuticskeleton/Skeleton.java:707-752 | tracked joints take the new value; hips, knees and feet keep theirs without full-body tracking |
| Skeleton.Deltas | src/therapeuticskeleton/Skeleton.java:657-750 | each tracked joint's delta is the magnitude of old minus new position; untracked joints keep theirs |
| Skeleton.ReadSensor | src/therapeuticskeleton/Skeleton.java:654-776 | per joint: a tracked joint takes the read position, confidence, orientation and orientation confidence, and its delta is the magnitude of its stored position minus the read one; an untracked joint keeps all five; the global arm vectors are taken between the new positions; nothing else changes |
| Skeleton.MirrorPositions | src/therapeuticskeleton/Skeleton.java:778-799 | LEFT: right elbow and hand become the mirror images of the left ones; RIGHT: the other way round; every other joint is unchanged |
| Skeleton.MirrorOrientations | src/therapeuticskeleton/Skeleton.java:800-827 | as for positions, and the shoulder orientation is mirrored as well |
| Skeleton.CopyFromSource | src/therapeuticskeleton/Skeleton.java:784-823 | a mirrored joint takes its source joint's confidence |
| Skeleton.MirrorKeepsTorsoAndShoulders | src/therapeuticskeleton/Skeleton.java:778-799 | mirroring never moves the torso or the shoulders |
| Skeleton.ApplyMirror | src/therapeuticskeleton/Skeleton.java:170-175 | per joint: a joint whose source is itself keeps its position and orientation, any other joint takes the mirror image of its source joint's position and orientation; both confidences are the source joint's; nothing else changes |
| Skeleton.TransformToLCS | src/therapeuticskeleton/Skeleton.java:828-850 | tracked joints take their local coordinates in the given frame; untracked ones keep theirs; the local arm vectors are taken between the local joints |
| Skeleton.Recognise | src/therapeuticskeleton/Skeleton.java:180-185 | only the recognisers and their flags change; the push test on the local joints decides the start frame; the gesture becomes PUSH dated with the current cycle when the test fires and is unchanged otherwise, so a gesture dated before the cycle is dated now exactly when the test fires |
| Skeleton.RecognisedPostureIsFirstMatch | src/therapeuticskeleton/Skeleton.java:180-182 | the stored posture is the first of the cascade that holds for the local arms and axes under the skeleton's tolerance |
| Skeleton.RecogniseWithoutFrame | src/therapeuticskeleton/Skeleton.java:176-186 | with NaN local data both recognisers run and both flags are set, the posture is NO_POSE and the push start is reset, with the last gesture kept |
| Skeleton.FrameStep | src/therapeuticskeleton/Skeleton.java:176-186 | the frame is stored and marked calculated; tracked joints take their local coordinates in it and untracked keep theirs; if enabled, posture and gesture are evaluated on the new local joints, otherwise both are unchanged |
| Skeleton.LocalStep | src/therapeuticskeleton/Skeleton.java:176-186 | the evaluation flags are set exactly when recognition is enabled (or already set); with distinct shoulders the frame of the read torso and shoulders is stored and marked calculated; with coincident shoulders the frame and the local joints and arms are unchanged |
| Skeleton.LocalStepTransforms | src/therapeuticskeleton/Skeleton.java:176-179 | with distinct shoulders each tracked joint's local position is its global position in the stored frame, untracked joints keep theirs, and the local arm vectors run between the local joints |
| Skeleton.LocalStepRecognition | src/therapeuticskeleton/Skeleton.java:176-186 | with a frame and recognition on, posture and gesture are evaluated on the new local joints; with coincident shoulders the posture is NO_POSE and a pending push is reset; with recognition off neither changes |
| Skeleton.ResetForUpdate | src/therapeuticskeleton/Skeleton.java:158-165 | the start of an update: the caller's frame count and rate are stored, every per-update flag is cleared, and joint data, configuration, update cycle and recogniser state carry over unchanged |
| Skeleton.ReadAndMirror | src/therapeuticskeleton/Skeleton.java:158-175 | the status flags are reset and the frame data stored; the mirror plane is marked calculated exactly when mirror therapy is on; the torso and shoulders are the reading |
| Skeleton.Update | src/therapeuticskeleton/Skeleton.java:158-194 | the cycle counter advances by one; the local frame is calculated exactly when enabled and the shoulders differ; posture and gesture are evaluated exactly when the local frame step runs and recognition is enabled; the global arm vectors are those of the unmirrored reading |
| Skeleton.GestureDatedNoLaterThan | src/therapeuticskeleton/Skeleton.java:176-192 | the gesture is dated at the current cycle at the latest, so after the increment it lies in the past |
| Skeleton.UpdateTracksReading | src/therapeuticskeleton/Skeleton.java:654-776 | per joint: untracked joints keep everything; tracked joints not mirrored take the reading; every tracked delta is the distance from the position stored by the previous update (for a mirrored joint, its mirrored position) to the unmirrored reading |
| Skeleton.ReadAndMirrorPerJoint | src/therapeuticskeleton/Skeleton.java:158-175 | the per-joint effect of reading and mirroring |
| Skeleton.LocalStepKeepsReading | src/therapeuticskeleton/Skeleton.java:176-186 | the local step never touches the global joint data or untracked local joints |
| Skeleton.LeftMirrorTherapyCopiesLeftSide | src/therapeuticskeleton/Skeleton.java:778-827 | in LEFT mode the left arm is the reading and the right arm its mirror image, with the left confidences and mirrored orientations; with a unit normal the two hands lie at opposite signed distances |
| Skeleton.MirrorOffKeepsReading | src/therapeuticskeleton/Skeleton.java:170-175 | with mirror therapy off every tracked joint is exactly the reading |
| Skeleton.MirroredHandIsLocalReflection | src/therapeuticskeleton/Skeleton.java:170-179 | mirroring LEFT across the body's own sagittal plane gives a right hand whose local coordinates are the left hand's with X negated |
| Skeleton.GestureVisibleFromOneCycle | src/therapeuticskeleton/Skeleton.java:644-649 | a push recognised in an update is reported when looking back one or more cycles, never when looking back zero |
| Skeleton.NoLocalFrameNoRecognition | src/therapeuticskeleton/Skeleton.java:176-186 | with the local frame switched off there is no posture, no gesture, no local joint, all arm angles are 0 and the gesture recogniser is untouched |
| Skeleton.CoincidentShouldersCancelPush | src/therapeuticskeleton/Skeleton.java:176-192 | with coincident read shoulders there is no posture, no local joint and all arm angles are 0; with recognition on, the pending push is cancelled, only a push recognised in an earlier cycle can still be reported, and the next update cannot fire a push without a new start pose |
| Skeleton.UpdateLocalFrame | src/therapeuticskeleton/Skeleton.java:176-179 | the frame of an update is the frame of the read torso and shoulders |
| Skeleton.MirroringKeepsFrame | src/therapeuticskeleton/Skeleton.java:170-179 | the mirror mode does not change the local frame, the torso or the shoulders |

## Left out

- Sensor I/O. The SimpleOpenNI calls become the `Reading` input, given in
  anatomical labels. The Java library swaps the camera's left/right labels for
  positions (Skeleton.java:664-705 and 712-731) but reads orientations under
  the camera's own labels (Skeleton.java:758-776). The model reads both from
  the same anatomical index, so this difference is not represented.
- The `setAnatomicallyCorrectLabels == false` branches are dead code (the
  flag is a constant `true`).
- `getJointProjective`, the `get*Projective` orientation getters and
  `distanceToKinect` are left out: they call the sensor driver or take a
  floating-point magnitude.
- `angleBetween`, `angleToLocal*Axis` and `angleToGlobal*Axis`
  (Skeleton.java:436-500) and `getOrientationAlpha/Beta/Gamma` are left
  out. They are one `angleBetween` call on joint differences, and the
  angle function is a parameter here.
- The mirror-plane getters (Skeleton.java:539-560) and
  `math.calculateMirrorPlane()` are left out: the latter is not defined in
  SkeletonMath.java. The update takes the mirror plane as an input.
  `MirroredHandIsLocalReflection` covers the case where it is the frame's
  own sagittal plane.
- Tolerance delegation from the skeleton (Skeleton.java:244-273), the user
  id, `getFrameCount`/`getFrameRate` and the plain setters and getters of
  the flags are left out, because each is a field read or write.
- Statistics inside `Skeleton.update` is left out.
  `statistics.update()` (Skeleton.java:189) is called without the two
  arguments `SkeletonStatistics.update` takes. The `*Unmirrored` getters it
  reads are not defined in Skeleton.java. `SkeletonStatistics` is therefore
  modelled on its own: each update receives a `Sample` of what it would
  read.
- Log-file output (`startStatisticsLogging`, `stopStatisticsLogging`, the
  `buffer.write` in `update`) is left out: it is I/O.
- The posture class reads `getLeftUpperArmLocal` and
  `getJointLocalCoordSys`, which Skeleton.java does not define. The model
  feeds them the local arm vectors and local joints of `transformToLCS`.
- `pushGestureStartFrame` is a `static` field in the Java library, so all gesture
  recognisers share it. The model keeps it per recogniser; with one
  skeleton the two agree.
- The isUpdated lock is only partly modelled. It is cleared at the start of
  an update and set at the end, and the model only has the final value,
  because concurrency is not modelled.
- Floating point is left out: reals replace floats, so rounding, NaN and
  infinity do not occur. A frame rate of 0 (which makes the Java library's clock
  infinite) is excluded by a precondition of `SkeletonStatistics.Update`,
  and coincident shoulders give an error result.
- Coincident shoulders are modelled only in their effect on recognition.
  The Java library still marks the local frame calculated and its local getters
  then return NaN. The model keeps `localCoordSysCalculated` false, so
  those getters return zero. What the recognisers do with the NaN values is
  modelled: NO_POSE, a cancelled push start, both evaluation flags set
  (`RecogniseWithoutFrame`).
- Integer wrap-around of the 32-bit `updateCycle`, `frameCount` and the
  statistics counters is not modelled.
- `PMatrix3D.invert()` is modelled only for the frame matrices the core
  inverts: orthonormal frames, and the singular frames where inversion
  fails.
- The commented-out three-point computation of the body planes
  (SkeletonMath.java:105-129) is not modelled.
