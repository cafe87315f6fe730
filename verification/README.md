# Rep counters and calibration baseline of the Capstone health app

This project models, in Dafny, the decision logic of the Android layer of a
mobile exercise-tracking app: the two repetition counters that turn a stream
of detected body poses into a capped rep count, the calibration view's rules
for admitting pose samples and turning 100 of them into a per-landmark
median baseline, and the coordinate mapper that places image points on the
screen.

A pose is a map from landmark type (the detector's 33 ids) to a landmark
with `x`, `y` and an in-frame likelihood; a landmark the detector did not
report is absent from the map. Coordinates and likelihoods are reals. Each
counter is an immutable state record with a pure step function over one
frame; the frame carries the pose, the current time in milliseconds, and
the squat counter's arm-posture verdict.

Modules, one per source component:

- `Landmarks` (`landmarks.dfy`): landmark ids, `Landmark`, `Pose`, `Frame`.
- `HeelRaise` (`heel_raise.dfy`): the Idle/Lifted heel-raise machine.
  It has raise and return thresholds, a 300 ms minimum dwell, a 1500 ms
  cooldown and an 8000 ms timeout.
- `Squat` (`squat.dfy`): the squat counter. It counts on the edge into the
  squat band and re-arms only above 110 × 1.35.
- `MotionCounter` (`motion_counter.dfy`): the shared counter interface
  (handle a pose, reset, read the count) over both machines.
- `Statistics` (`median.dfy`): sorting and the median.
- `Calibration` (`calibration.dfy`): sample admission, progress, the
  baseline map and its reported key names.
- `CoordinateMapper` (`coordinate_mapper.dfy`): the fill-and-centre mapping.
- `SeqUtil` and `Wrappers`: a flat-map with its permutation lemma, and Option/Result.

Notes on the code as written:

- The heel-raise return band is derived from the left heel's baseline and
  applied to both heels. The model does the same.
- The squat re-arm bound is `110.0 * 1.35f`. The single-precision literal is
  exactly 11324621 / 2^23, so the bound is 148.50000262…, slightly above 148.5.
  The model uses that exact value.
- The heel-raise raise test (a heel more than 1% above its baseline) and
  return test (both heels within 12% of the baseline) overlap with the
  default ratios, so they do not form a hysteresis band. A heel held still
  between 1% and 12% above its baseline, never lowered, counts a rep about
  every 1.8 s; only the 300 ms dwell and the 1500 ms cooldown space the reps.
  The model keeps this behaviour and proves it (`HeldHeelCountsEveryCycle`).
- The heel-raise counter and the calibration filter reject a landmark whose
  likelihood is below 0.4. The squat counter does not: it only checks that
  its ten landmarks are present, and the model does the same.
- `calculateBaseline` refuses fewer than 30 samples. `handlePose` only calls it
  at 100 samples, so that error can never be reported. `HandlePose` proves this.

## Model

| member | source | states |
|---|---|---|
| HeelRaise.Step | android/app/src/main/kotlin/com/example/capstone_healthcare_app/motion/HeelRaiseCounter.kt:33-101 | At the cap, or with a heel or eye missing or below likelihood 0.4, nothing changes. The count grows by at most one, exactly on a return from Lifted after more than 300 ms of dwell and more than 1500 ms since the last count; that frame stamps the count time and goes Idle. Idle becomes Lifted exactly on a raise (both heels, or one heel with both eyes) after the cooldown, stamping the lift time. Lifted becomes Idle without counting exactly on a return inside the cooldown or after an 8000 ms lift |
| HeelRaise.IsValidLandmark | android/app/src/main/kotlin/com/example/capstone_healthcare_app/motion/HeelRaiseCounter.kt:103-105 | A landmark is valid iff it is present with likelihood at least 0.4. A missing one reads as likelihood 0, so it is never valid |
| HeelRaise.DefaultConfig | android/app/src/main/kotlin/com/example/capstone_healthcare_app/motion/HeelRaiseCounter.kt:8-17 | The constructor's defaults keep the cap and baselines. For a heel baseline below the image top, the return band is wider than the raise threshold, so the two overlap rather than form a hysteresis band, and the eye threshold is positive |
| HeelRaise.RunCountsAreSpaced | android/app/src/main/kotlin/com/example/capstone_healthcare_app/motion/HeelRaiseCounter.kt:74-86 | Over any run, the last-count time advances by at least 1501 ms for every rep counted, whatever the order of the frames' timestamps |
| HeelRaise.Reset | android/app/src/main/kotlin/com/example/capstone_healthcare_app/motion/HeelRaiseCounter.kt:107-112 | Reset zeroes the count and returns to Idle. It is equivalent to the initial state but keeps the last lift time |
| HeelRaise.RunPreservesEquivalence | android/app/src/main/kotlin/com/example/capstone_healthcare_app/motion/HeelRaiseCounter.kt:64-93 | States that differ only in the lift time while Idle stay equivalent over any run: the lift time is read only while Lifted |
| HeelRaise.ResetCountsLikeFresh | android/app/src/main/kotlin/com/example/capstone_healthcare_app/motion/HeelRaiseCounter.kt:107-112 | Not resetting the lift time is harmless: after a reset the counter counts, over any frames, exactly like a freshly constructed one |
| HeelRaise.DefaultBandsOverlap | android/app/src/main/kotlin/com/example/capstone_healthcare_app/motion/HeelRaiseCounter.kt:48-60 | With the default ratios and equal heel baselines, heels held between 1% and 12% above the baseline are both raised and returned in the same frame |
| HeelRaise.HeldHeelCountsEveryCycle | android/app/src/main/kotlin/com/example/capstone_healthcare_app/motion/HeelRaiseCounter.kt:64-93 | A usable pose that is both raised and returned, held without moving, counts one rep per lift-and-return cycle of frames spaced by the dwell and the cooldown, up to the cap, and ends Idle: the heels never need to come down |
| HeelRaise.HeldHeelCountsTwice | android/app/src/main/kotlin/com/example/capstone_healthcare_app/motion/HeelRaiseCounter.kt:14-16 | With the default ratios, baselines of 1000 and both heels held at 950, frames at 2000, 2301, 3802 and 4103 ms count two reps |
| Squat.Step | android/app/src/main/kotlin/com/example/capstone_healthcare_app/motion/SquatCounter.kt:25-67 | At the cap, or with any of the ten landmarks missing, nothing changes. The count grows by at most one, exactly on an armed edge from not squatting into an average hip-knee distance below 110 with the arms in front. A counting frame disarms and never re-arms, and no other frame disarms, so an armed counter stays armed until it counts. Only a frame above the re-arm bound re-arms. Every handled frame records whether it was a squat |
| Squat.IsSquatting | android/app/src/main/kotlin/com/example/capstone_healthcare_app/motion/SquatCounter.kt:45-49 | A frame is squatting exactly when its average hip-knee distance is below 110. A squatting frame never re-arms, because the squat band and the re-arm band are disjoint |
| Squat.RunRepsNeedRearming | android/app/src/main/kotlin/com/example/capstone_healthcare_app/motion/SquatCounter.kt:52-60 | Hysteresis over a run: reps counted plus ending armed is at most starting armed plus the number of re-arming frames. So every rep after the first needs its own frame standing above the re-arm bound |
| Squat.Reset | android/app/src/main/kotlin/com/example/capstone_healthcare_app/motion/SquatCounter.kt:102-106 | Reset yields exactly the initial state of a fresh counter: count 0, not squatting, armed |
| MotionCounter.GetCount | android/app/src/main/kotlin/com/example/capstone_healthcare_app/motion/MotionCounter.kt:9 | Reads the counter's current count; a freshly constructed counter of either kind reads 0 |
| MotionCounter.OnPoseDetected | android/app/src/main/kotlin/com/example/capstone_healthcare_app/motion/MotionCounter.kt:5-10 | Handling a pose keeps the counter's kind and cap, changes nothing at the cap, and moves the count by zero or one |
| MotionCounter.Reset | android/app/src/main/kotlin/com/example/capstone_healthcare_app/motion/MotionCounter.kt:5-10 | Reset keeps kind and cap and zeroes the count. A squat counter returns to its fresh state; a heel-raise counter to a state equivalent to fresh |
| MotionCounter.RunCountMonotoneAndCapped | android/app/src/main/kotlin/com/example/capstone_healthcare_app/motion/MotionCounter.kt:5-10 | From a count between 0 and the cap, for either counter, the count never decreases, never exceeds max(0, maxCount) and grows by at most the number of frames |
| Statistics.Insert | android/app/src/main/kotlin/com/example/capstone_healthcare_app/native/NativeCalibrationView.kt:310 | Inserting into a sorted list gives a sorted list with that element added |
| Statistics.Sort | android/app/src/main/kotlin/com/example/capstone_healthcare_app/native/NativeCalibrationView.kt:310 | The sorted list is ascending and a permutation of the input |
| Statistics.SortedUnique | android/app/src/main/kotlin/com/example/capstone_healthcare_app/native/NativeCalibrationView.kt:310 | Two ascending lists with the same elements are equal, so the sorted list does not depend on the sort used |
| Statistics.Median | android/app/src/main/kotlin/com/example/capstone_healthcare_app/native/NativeCalibrationView.kt:308-317 | The median of an empty list has no value (the source's NaN); any other list has one |
| Statistics.MedianPermutationInvariant | android/app/src/main/kotlin/com/example/capstone_healthcare_app/native/NativeCalibrationView.kt:308-317 | Lists with the same elements have the same median |
| Statistics.MedianBetweenExtremes | android/app/src/main/kotlin/com/example/capstone_healthcare_app/native/NativeCalibrationView.kt:308-317 | The median lies between some element and some element: at least the least and at most the greatest |
| Statistics.MiddleSplitsSorted | android/app/src/main/kotlin/com/example/capstone_healthcare_app/native/NativeCalibrationView.kt:311-316 | The middle element (odd length) or mean of the two middle elements (even length) of a sorted list has at least half the list at or below it and at least half at or above it |
| Statistics.MedianSplitsInHalf | android/app/src/main/kotlin/com/example/capstone_healthcare_app/native/NativeCalibrationView.kt:308-317 | At least half the elements are at most the median and at least half are at least the median |
| Calibration.IsHighConfidencePose | android/app/src/main/kotlin/com/example/capstone_healthcare_app/native/NativeCalibrationView.kt:283-305 | The in-order scan with early exit returns true iff all ten shoulders, hips, knees, ankles and heels are present with likelihood at least 0.4 |
| Calibration.GuideBox | android/app/src/main/kotlin/com/example/capstone_healthcare_app/native/NativeCalibrationView.kt:178-184 | The admission box is the preview view inset by 8% of its width and height on every side, and lies inside a view of non-negative size |
| Calibration.IsUserInGuideBox | android/app/src/main/kotlin/com/example/capstone_healthcare_app/native/NativeCalibrationView.kt:178-197 | True iff both shoulders and both hips are present and each lies within 8% of the width from the left and right edges and 8% of the height from the top and bottom, bounds inclusive; likelihood is not consulted |
| Calibration.GuideBoxEdgesInclusive | android/app/src/main/kotlin/com/example/capstone_healthcare_app/native/NativeCalibrationView.kt:192-196 | Key landmarks lying anywhere on the closed box's edges, corners included, pass: both bounds on both axes are inclusive |
| Calibration.OneKeyLandmarkOutsideFails | android/app/src/main/kotlin/com/example/capstone_healthcare_app/native/NativeCalibrationView.kt:192-196 | One shoulder or hip that is missing, or strictly outside a margin on either axis, makes the test fail |
| Calibration.Coordinates | android/app/src/main/kotlin/com/example/capstone_healthcare_app/native/NativeCalibrationView.kt:327-332 | A landmark type's coordinate list, taken in sample order, is non-empty exactly when some sample contains that landmark |
| Calibration.BaselineValues | android/app/src/main/kotlin/com/example/capstone_healthcare_app/native/NativeCalibrationView.kt:326-354 | The baseline has an entry for exactly the landmark types seen in some sample (x and y, plus the heel and eye names), each the median of that landmark's coordinates on its axis |
| Calibration.BaselineAliases | android/app/src/main/kotlin/com/example/capstone_healthcare_app/native/NativeCalibrationView.kt:341-354 | The left/right heel and eye entries exist exactly when the numbered y entry of that landmark does, and equal it |
| Calibration.CalculateBaseline | android/app/src/main/kotlin/com/example/capstone_healthcare_app/native/NativeCalibrationView.kt:320-354 | Fails with INSUFFICIENT_DATA iff there are fewer than 30 samples. Otherwise it has entries for exactly the landmarks seen, each the median of that landmark's coordinates on its axis, with agreeing heel and eye entries |
| Calibration.BaselinePermutationInvariant | android/app/src/main/kotlin/com/example/capstone_healthcare_app/native/NativeCalibrationView.kt:326-339 | The baseline does not depend on the order in which samples were collected |
| Calibration.DecimalInjective | android/app/src/main/kotlin/com/example/capstone_healthcare_app/native/NativeCalibrationView.kt:337 | Distinct landmark ids have distinct decimal names |
| Calibration.KeyNameInjective | android/app/src/main/kotlin/com/example/capstone_healthcare_app/native/NativeCalibrationView.kt:337-354 | No two baseline entries share a reported key string, so no entry overwrites another in the reported map |
| Calibration.ProgressPercent | android/app/src/main/kotlin/com/example/capstone_healthcare_app/native/NativeCalibrationView.kt:264-265 | The reported percent equals the number of samples held |
| Calibration.StartCalibration | android/app/src/main/kotlin/com/example/capstone_healthcare_app/native/NativeCalibrationView.kt:134-138 | The start command leaves no samples |
| Calibration.StartForgetsEarlierSamples | android/app/src/main/kotlin/com/example/capstone_healthcare_app/native/NativeCalibrationView.kt:134-138 | After the start command, whatever was held before, the samples are exactly the poses admitted since, until the target is reached |
| Calibration.HandlePose | android/app/src/main/kotlin/com/example/capstone_healthcare_app/native/NativeCalibrationView.kt:253-281 | Every frame first reports whether the user is in the box. A frame that is not both confident and in the box changes nothing else. An admitted frame is appended and its progress reported. The one reaching 100 reports the baseline of all 100 samples and clears the list. The insufficient-data error is never reported, and the list stays below 100 |
| Calibration.CollectKeepsAdmitted | android/app/src/main/kotlin/com/example/capstone_healthcare_app/native/NativeCalibrationView.kt:262-263 | Until the target is reached, the sample list is exactly the admitted poses in arrival order |
| CoordinateMapper.NewMapper | android/app/src/main/kotlin/com/example/capstone_healthcare_app/motion/CoordinateMapper.kt:10-12 | With positive camera dimensions, the scaled image covers the screen on both axes and fits exactly on at least one. Both offsets are non-positive. The image centre maps to the screen centre, and the scale is positive when the screen has a positive side |
| CoordinateMapper.TransposeX | android/app/src/main/kotlin/com/example/capstone_healthcare_app/motion/CoordinateMapper.kt:14-16 | Maps image x to screen x; with a non-zero scale the image x can be recovered from the screen x |
| CoordinateMapper.TransposeY | android/app/src/main/kotlin/com/example/capstone_healthcare_app/motion/CoordinateMapper.kt:18-20 | Maps image y to screen y; with a non-zero scale the image y can be recovered from the screen y |
| CoordinateMapper.TransposePreservesShape | android/app/src/main/kotlin/com/example/capstone_healthcare_app/motion/CoordinateMapper.kt:14-20 | Both maps stretch distances by the same scale, so aspect ratio is kept, and both are strictly increasing when the scale is positive |
| CoordinateMapper.RotationIgnored | android/app/src/main/kotlin/com/example/capstone_healthcare_app/motion/CoordinateMapper.kt:8-20 | The stored rotation has no effect on where a point is drawn |

## Left out

- Camera and pose-detector plumbing is not modelled: CameraX binding, lens switching, `analyze`, the `isProcessing` and event-sink gating, `ImageProxy` handling. A pose is an input.
- Host-UI channels are not modelled: method and event channel handlers, `sendEvent`, `sendError`, UI-thread posting. Events are returned as a list.
- The completion step clears the samples inside a task posted to the main thread. The model clears them in the same step, so frames admitted between the post and the clear are not modelled.
- Video recording, logging, the skeleton painter, the guide-box overlay drawing, the view factories and the user-account bean are not modelled. The overlay draws 20% margins; the admission test uses 8%.
- The system clock is not modelled. Each frame carries its time as `now`.
- The squat counter's arm-angle test (`areArmsInFront`, `calculateAngle`) uses `atan2`, which is floating-point trigonometry. Its verdict is a boolean in the frame.
- The count listener is not modelled. It fires exactly on the frames that `HeelRaise.CountsRep` and `Squat.CountsRep` describe.
- Float and double rounding is not modelled. All arithmetic is on reals.
- Calibration.ProgressPercent: states percent == sample count over reals. In double arithmetic `29 / 100.0 * 100` is 28.999999999999996, so the app reports 28 at 29 samples (likewise at 57 and 58). The model does not capture that.
- Timestamp and count overflow (64-bit `Long`, 32-bit `Int`) is not modelled. Integers are unbounded.
- CoordinateMapper.NewMapper: requires positive camera dimensions. The source divides without a guard and would produce infinities or NaN.
- The heel-raise view builds its counter with arguments that do not match the counter's constructor. The model follows the constructor.
