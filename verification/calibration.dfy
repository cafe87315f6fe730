/**
 * The calibration view's decision logic: which frames are admitted as
 * calibration samples, when enough samples have been collected, and the
 * baseline (per-landmark median position) computed from them.
 */
module Calibration {
  import opened Wrappers
  import opened Landmarks
  import opened SeqUtil
  import opened Statistics

  /** Share of the view's width (height) left as margin on each side of the guide box. */
  const GUIDE_MARGIN: real := 0.08
  /** Number of admitted samples after which the baseline is computed. */
  const TARGET_SAMPLES: nat := 100
  /** Fewer samples than this are refused by the baseline computation. */
  const MIN_SAMPLES: nat := 30
  const INSUFFICIENT_DATA: string := "INSUFFICIENT_DATA"

  /** The ten landmarks every sample must carry with high confidence, in the order they are checked. */
  const REQUIRED: seq<LandmarkType> := [
    LEFT_SHOULDER, RIGHT_SHOULDER, LEFT_HIP, RIGHT_HIP, LEFT_KNEE,
    RIGHT_KNEE, LEFT_ANKLE, RIGHT_ANKLE, LEFT_HEEL, RIGHT_HEEL]

  /** The four landmarks that must lie inside the guide box. */
  const KEY_LANDMARKS: seq<LandmarkType> := [LEFT_SHOULDER, RIGHT_SHOULDER, LEFT_HIP, RIGHT_HIP]

  /** Landmark `t` is present with likelihood at least 0.4. */
  predicate Confident(pose: Pose, t: LandmarkType)
  {
    t in pose && pose[t].likelihood >= MIN_CONFIDENCE
  }

  /** Every required landmark is confidently detected. */
  predicate AllRequiredConfident(pose: Pose)
  {
    forall t :: t in REQUIRED ==> Confident(pose, t)
  }

  /** The confidence test, scanning the required landmarks in order and stopping at the first failure. */
  method IsHighConfidencePose(pose: Pose) returns (ok: bool)
    ensures ok <==> AllRequiredConfident(pose)
  {
    var i := 0;
    while i < |REQUIRED|
      invariant 0 <= i <= |REQUIRED|
      invariant forall j :: 0 <= j < i ==> Confident(pose, REQUIRED[j])
    {
      var t := REQUIRED[i];
      if t !in pose || pose[t].likelihood < MIN_CONFIDENCE {
        assert t in REQUIRED && !Confident(pose, t);
        return false;
      }
      i := i + 1;
    }
    return true;
  }

  /** An axis-aligned rectangle in view coordinates, bounds included. */
  datatype Box = Box(left: real, top: real, right: real, bottom: real)

  /** The admission box of a `width` x `height` preview view. */
  function GuideBox(width: int, height: int): (b: Box)
    // the view inset by 8% of its width (height) on each side
    ensures b.left == width as real - b.right == GUIDE_MARGIN * width as real
    ensures b.top == height as real - b.bottom == GUIDE_MARGIN * height as real
    // for a view of non-negative size, a non-empty box inside the view
    ensures width >= 0 ==> 0.0 <= b.left < b.right || (width == 0 && b.left == b.right == 0.0)
    ensures width >= 0 ==> b.right <= width as real
    ensures height >= 0 ==> 0.0 <= b.top <= b.bottom <= height as real
  {
    var marginX := width as real * GUIDE_MARGIN;
    var marginY := height as real * GUIDE_MARGIN;
    Box(marginX, marginY, width as real - marginX, height as real - marginY)
  }

  predicate Inside(b: Box, lm: Landmark)
  {
    b.left <= lm.x <= b.right && b.top <= lm.y <= b.bottom
  }

  /** The landmark lies within 8% margins of the view on both axes, edges included. */
  predicate WithinMargins(lm: Landmark, width: int, height: int)
  {
    var w, h := width as real, height as real;
    GUIDE_MARGIN * w <= lm.x <= w - GUIDE_MARGIN * w && GUIDE_MARGIN * h <= lm.y <= h - GUIDE_MARGIN * h
  }

  /** Both shoulders and both hips are detected and inside the guide box; likelihood is not consulted. */
  function IsUserInGuideBox(pose: Pose, width: int, height: int): (inBox: bool)
    ensures inBox <==>
              && LEFT_SHOULDER in pose && WithinMargins(pose[LEFT_SHOULDER], width, height)
              && RIGHT_SHOULDER in pose && WithinMargins(pose[RIGHT_SHOULDER], width, height)
              && LEFT_HIP in pose && WithinMargins(pose[LEFT_HIP], width, height)
              && RIGHT_HIP in pose && WithinMargins(pose[RIGHT_HIP], width, height)
  {
    forall t :: t in KEY_LANDMARKS ==> t in pose && Inside(GuideBox(width, height), pose[t])
  }

  /** The landmark lies on the closed guide box's boundary: within both margins and on at least one bound. */
  predicate OnGuideBoxEdge(lm: Landmark, width: int, height: int)
  {
    var w, h := width as real, height as real;
    && WithinMargins(lm, width, height)
    && (|| lm.x == GUIDE_MARGIN * w || lm.x == w - GUIDE_MARGIN * w
        || lm.y == GUIDE_MARGIN * h || lm.y == h - GUIDE_MARGIN * h)
  }

  /**
   * The box's bounds are inclusive: key landmarks lying anywhere on the box's
   * edges, corners included, pass.
   */
  lemma GuideBoxEdgesInclusive(pose: Pose, width: int, height: int)
    requires forall t :: t in KEY_LANDMARKS ==> t in pose && OnGuideBoxEdge(pose[t], width, height)
    ensures IsUserInGuideBox(pose, width, height)
  {
  }

  /** A single key landmark that is missing, or strictly outside a margin on either axis, fails the test. */
  lemma OneKeyLandmarkOutsideFails(pose: Pose, width: int, height: int, t: LandmarkType)
    requires t in KEY_LANDMARKS
    requires t !in pose
             || pose[t].x < GUIDE_MARGIN * width as real || pose[t].x > width as real - GUIDE_MARGIN * width as real
             || pose[t].y < GUIDE_MARGIN * height as real || pose[t].y > height as real - GUIDE_MARGIN * height as real
    ensures !IsUserInGuideBox(pose, width, height)
  {
  }

  /** A frame is kept as a calibration sample exactly when it is confident and in the box. */
  predicate Admitted(pose: Pose, width: int, height: int)
  {
    AllRequiredConfident(pose) && IsUserInGuideBox(pose, width, height)
  }

  // ---------------------------------------------------------------------------
  // Baseline

  datatype Axis = X | Y

  function Coordinate(lm: Landmark, a: Axis): real
  {
    match a
    case X => lm.x
    case Y => lm.y
  }

  /**
   * The entries of the baseline map: the x and y medians of each landmark type,
   * and the separately named y medians of the heels and eyes.
   */
  datatype BaselineKey =
    | Coord(landmark: LandmarkType, axis: Axis)
    | LeftHeelY
    | RightHeelY
    | LeftEyeY
    | RightEyeY

  /** The landmark whose median a key holds. */
  function KeyLandmark(k: BaselineKey): LandmarkType
  {
    match k
    case Coord(t, _) => t
    case LeftHeelY => LEFT_HEEL
    case RightHeelY => RIGHT_HEEL
    case LeftEyeY => LEFT_EYE
    case RightEyeY => RIGHT_EYE
  }

  function KeyAxis(k: BaselineKey): Axis
  {
    match k
    case Coord(_, a) => a
    case _ => Y
  }

  const AllKeys: set<BaselineKey> :=
    (set t: int | 0 <= t < 33 :: Coord(t, X))
    + (set t: int | 0 <= t < 33 :: Coord(t, Y))
    + {LeftHeelY, RightHeelY, LeftEyeY, RightEyeY}

  lemma AllKeysComplete(k: BaselineKey)
    ensures k in AllKeys
  {
    match k
    case Coord(t, a) =>
      if a == X {
        assert Coord(t, X) in (set t': int | 0 <= t' < 33 :: Coord(t', X));
      } else {
        assert Coord(t, Y) in (set t': int | 0 <= t' < 33 :: Coord(t', Y));
      }
    case _ =>
  }

  /** Landmark `t` occurs in at least one sample. */
  predicate Present(samples: seq<Pose>, t: LandmarkType)
  {
    exists i :: 0 <= i < |samples| && t in samples[i]
  }

  function CoordinateOf(t: LandmarkType, a: Axis): Pose -> seq<real>
  {
    p => if t in p then [Coordinate(p[t], a)] else []
  }

  /**
   * The `a` coordinates of landmark `t` in the samples that contain it, in
   * sample order: the group of that landmark type, projected on one axis.
   */
  function Coordinates(samples: seq<Pose>, t: LandmarkType, a: Axis): (cs: seq<real>)
    ensures |cs| > 0 <==> Present(samples, t)
  {
    FlatMapNonEmpty(samples, CoordinateOf(t, a));
    FlatMap(samples, CoordinateOf(t, a))
  }

  /** Every key of the baseline datatype is listed in `AllKeys`. */
  lemma AllKeysListed()
    ensures forall k :: k in AllKeys
  {
    forall k ensures k in AllKeys {
      AllKeysComplete(k);
    }
  }

  /** The baseline map of the given samples, without the sample-count check. */
  function BaselineValues(samples: seq<Pose>): (b: map<BaselineKey, real>)
    // an entry for exactly the landmark types seen in some sample
    ensures forall k :: k in b <==> Present(samples, KeyLandmark(k))
    // each entry is the median of that landmark's coordinates on its axis
    ensures forall k :: k in b ==> Median(Coordinates(samples, KeyLandmark(k), KeyAxis(k))) == Some(b[k])
  {
    AllKeysListed();
    map k | k in AllKeys && Present(samples, KeyLandmark(k))
      :: MedianValue(Coordinates(samples, KeyLandmark(k), KeyAxis(k)))
  }

  /** The named heel and eye entries exist exactly with, and equal, the numbered y entries. */
  predicate AliasesAgree(b: map<BaselineKey, real>)
  {
    && AliasAgrees(b, LeftHeelY, LEFT_HEEL)
    && AliasAgrees(b, RightHeelY, RIGHT_HEEL)
    && AliasAgrees(b, LeftEyeY, LEFT_EYE)
    && AliasAgrees(b, RightEyeY, RIGHT_EYE)
  }

  predicate AliasAgrees(b: map<BaselineKey, real>, alias: BaselineKey, t: LandmarkType)
  {
    && (alias in b <==> Coord(t, Y) in b)
    && (alias in b ==> b[alias] == b[Coord(t, Y)])
  }

  lemma BaselineAlias(b: map<BaselineKey, real>, samples: seq<Pose>, alias: BaselineKey, t: LandmarkType)
    requires b == BaselineValues(samples)
    requires !alias.Coord? && KeyLandmark(alias) == t
    ensures AliasAgrees(b, alias, t)
  {
  }

  lemma BaselineAliases(samples: seq<Pose>)
    ensures AliasesAgree(BaselineValues(samples))
  {
    var b := BaselineValues(samples);
    BaselineAlias(b, samples, LeftHeelY, LEFT_HEEL);
    BaselineAlias(b, samples, RightHeelY, RIGHT_HEEL);
    BaselineAlias(b, samples, LeftEyeY, LEFT_EYE);
    BaselineAlias(b, samples, RightEyeY, RIGHT_EYE);
  }

  /** The baseline computation, refusing fewer than 30 samples. */
  function CalculateBaseline(samples: seq<Pose>): (r: Result<map<BaselineKey, real>, string>)
    ensures r.Failure? <==> |samples| < MIN_SAMPLES
    ensures r.Failure? ==> r.error == INSUFFICIENT_DATA
    // an entry for exactly the landmark types seen in some sample
    ensures r.Success? ==> forall k :: k in r.value <==> Present(samples, KeyLandmark(k))
    // each entry is the median of that landmark's coordinates over the samples
    ensures r.Success? ==> forall k :: k in r.value ==>
              Median(Coordinates(samples, KeyLandmark(k), KeyAxis(k))) == Some(r.value[k])
    // the named heel and eye entries repeat the numbered y entries
    ensures r.Success? ==> AliasesAgree(r.value)
  {
    if |samples| < MIN_SAMPLES then Failure(INSUFFICIENT_DATA)
    else
      BaselineAliases(samples);
      Success(BaselineValues(samples))
  }

  /** Landmark presence does not depend on the order of the samples. */
  lemma PresentPermutationInvariant(a: seq<Pose>, b: seq<Pose>, t: LandmarkType)
    requires multiset(a) == multiset(b)
    ensures Present(a, t) <==> Present(b, t)
  {
    if Present(a, t) {
      var i :| 0 <= i < |a| && t in a[i];
      assert a[i] in multiset(b);
    }
    if Present(b, t) {
      var j :| 0 <= j < |b| && t in b[j];
      assert b[j] in multiset(a);
    }
  }

  /** The baseline does not depend on the order in which samples were collected. */
  lemma BaselinePermutationInvariant(a: seq<Pose>, b: seq<Pose>)
    requires multiset(a) == multiset(b)
    ensures BaselineValues(a) == BaselineValues(b)
  {
    forall k | k in BaselineValues(a) || k in BaselineValues(b)
      ensures k in BaselineValues(a) && k in BaselineValues(b)
      ensures BaselineValues(a)[k] == BaselineValues(b)[k]
    {
      var t, ax := KeyLandmark(k), KeyAxis(k);
      PresentPermutationInvariant(a, b, t);
      FlatMapPermutation(a, b, CoordinateOf(t, ax));
      MedianPermutationInvariant(Coordinates(a, t, ax), Coordinates(b, t, ax));
    }
  }

  // ---------------------------------------------------------------------------
  // Key names

  /** The decimal digit `d` as a character. */
  function DigitChar(d: int): char
    requires 0 <= d < 10
  {
    ('0' as int + d) as char
  }

  predicate IsDigit(c: char)
  {
    '0' <= c <= '9'
  }

  /** The decimal representation of `n`, as the landmark type's `toString`. */
  function Decimal(n: nat): string
    decreases n
  {
    if n < 10 then [DigitChar(n)] else Decimal(n / 10) + [DigitChar(n % 10)]
  }

  lemma {:induction false} DecimalShape(n: nat)
    ensures |Decimal(n)| > 0
    ensures n >= 10 ==> |Decimal(n)| >= 2
    ensures forall i :: 0 <= i < |Decimal(n)| ==> IsDigit(Decimal(n)[i])
    decreases n
  {
    if n >= 10 {
      DecimalShape(n / 10);
    }
  }

  /** Distinct numbers have distinct decimal representations. */
  lemma {:induction false} DecimalInjective(a: nat, b: nat)
    requires Decimal(a) == Decimal(b)
    ensures a == b
    decreases a
  {
    DecimalShape(a / 10);
    DecimalShape(b / 10);
    if a >= 10 && b >= 10 {
      var da, db := Decimal(a), Decimal(b);
      assert da[|da| - 1] == DigitChar(a % 10);
      assert db[|db| - 1] == DigitChar(b % 10);
      assert Decimal(a / 10) == da[..|da| - 1];
      assert Decimal(b / 10) == db[..|db| - 1];
      DecimalInjective(a / 10, b / 10);
    }
  }

  function AxisSuffix(a: Axis): string
  {
    match a
    case X => "_x"
    case Y => "_y"
  }

  /** The string under which an entry is reported. */
  function KeyName(k: BaselineKey): string
  {
    match k
    case Coord(t, a) => Decimal(t) + AxisSuffix(a)
    case LeftHeelY => "left_heel_y"
    case RightHeelY => "right_heel_y"
    case LeftEyeY => "left_eye_y"
    case RightEyeY => "right_eye_y"
  }

  /**
   * No two entries share a reported name: in particular the named heel and
   * eye entries never overwrite a numbered one, so the reported string map has
   * exactly the entries of the baseline.
   */
  lemma KeyNameInjective(k1: BaselineKey, k2: BaselineKey)
    requires KeyName(k1) == KeyName(k2)
    ensures k1 == k2
  {
    if k1.Coord? {
      DecimalShape(k1.landmark);
    }
    if k2.Coord? {
      DecimalShape(k2.landmark);
    }
    if k1.Coord? && k2.Coord? {
      var d1, d2 := Decimal(k1.landmark), Decimal(k2.landmark);
      var n := KeyName(k1);
      assert n[..|n| - 2] == d1 && n[..|n| - 2] == d2;
      DecimalInjective(k1.landmark, k2.landmark);
      assert n[|n| - 1] == AxisSuffix(k1.axis)[1] == AxisSuffix(k2.axis)[1];
    }
  }

  // ---------------------------------------------------------------------------
  // Sample collection

  /** The events the view reports to the host UI while calibrating. */
  datatype Event =
    | PositionStatus(isInBox: bool)
    | Progress(percent: int)
    | Completed(baseline: map<BaselineKey, real>)
    | Error(code: string)

  /** The sample list after handling a frame, and the events reported for it, in order. */
  datatype Outcome = Outcome(samples: seq<Pose>, events: seq<Event>)

  /** The progress percentage reported after `size` samples: size / 100 scaled by 100, truncated. */
  function ProgressPercent(size: nat): (percent: int)
    ensures percent == size
  {
    (size as real / TARGET_SAMPLES as real * 100.0).Floor
  }

  /** The start command discards any samples collected so far. */
  function StartCalibration(samples: seq<Pose>): (r: seq<Pose>)
    ensures |r| == 0
  {
    []
  }

  /**
   * Handle one detected pose in a `width` x `height` preview view: report
   * whether the user is in the box; if the frame is admitted, keep it, report
   * progress, and once 100 samples are kept report the baseline and start
   * over.
   */
  function HandlePose(samples: seq<Pose>, pose: Pose, width: int, height: int): (r: Outcome)
    ensures |r.events| > 0 && r.events[0] == PositionStatus(IsUserInGuideBox(pose, width, height))
    // a frame that is not admitted leaves the samples alone and reports only the position
    ensures !Admitted(pose, width, height) ==> r.samples == samples && |r.events| == 1
    // an admitted frame below the target is appended and its progress reported
    ensures Admitted(pose, width, height) && |samples| + 1 < TARGET_SAMPLES ==>
              r.samples == samples + [pose]
              && r.events[1..] == [Progress(|samples| + 1)]
    // the admitted frame that reaches the target completes calibration and clears the samples
    ensures Admitted(pose, width, height) && |samples| + 1 >= TARGET_SAMPLES ==>
              r.samples == []
              && r.events[1..] == [Progress(|samples| + 1), Completed(BaselineValues(samples + [pose]))]
    // the insufficient-data failure can never be reported
    ensures forall e :: e in r.events ==> !e.Error?
    // the sample list stays below the target
    ensures |samples| < TARGET_SAMPLES ==> |r.samples| < TARGET_SAMPLES
  {
    var isInBox := IsUserInGuideBox(pose, width, height);
    var status := [PositionStatus(isInBox)];
    if AllRequiredConfident(pose) && isInBox then
      var kept := samples + [pose];
      var progress := Progress(ProgressPercent(|kept|));
      if |kept| >= TARGET_SAMPLES then
        match CalculateBaseline(kept)
        case Success(baseline) => Outcome([], status + [progress, Completed(baseline)])
        case Failure(code) => Outcome(kept, status + [progress, Error(code)])
      else Outcome(kept, status + [progress])
    else Outcome(samples, status)
  }

  /** One analysed camera frame: the detected pose and the preview view's size at that moment. */
  datatype CameraFrame = CameraFrame(pose: Pose, width: int, height: int)

  function AdmittedPose(f: CameraFrame): seq<Pose>
  {
    if Admitted(f.pose, f.width, f.height) then [f.pose] else []
  }

  /** The poses of the admitted frames, in order. */
  function AdmittedPoses(frames: seq<CameraFrame>): seq<Pose>
  {
    FlatMap(frames, AdmittedPose)
  }

  /** The sample list after handling `frames` in order. */
  function Collect(samples: seq<Pose>, frames: seq<CameraFrame>): seq<Pose>
    decreases |frames|
  {
    if |frames| == 0 then samples
    else Collect(HandlePose(samples, frames[0].pose, frames[0].width, frames[0].height).samples, frames[1..])
  }

  /**
   * Until the target is reached, the samples are exactly the admitted poses,
   * in arrival order, appended to those already held.
   */
  lemma {:induction false} CollectKeepsAdmitted(samples: seq<Pose>, frames: seq<CameraFrame>)
    requires |samples| + |AdmittedPoses(frames)| < TARGET_SAMPLES
    ensures Collect(samples, frames) == samples + AdmittedPoses(frames)
    decreases |frames|
  {
    if |frames| > 0 {
      var f := frames[0];
      var next := HandlePose(samples, f.pose, f.width, f.height).samples;
      assert AdmittedPoses(frames) == AdmittedPose(f) + AdmittedPoses(frames[1..]);
      CollectKeepsAdmitted(next, frames[1..]);
      assert next == samples + AdmittedPose(f);
    }
  }

  /**
   * Starting calibration forgets earlier samples: until the target is reached,
   * the samples are exactly the poses admitted since the start command.
   */
  lemma StartForgetsEarlierSamples(earlier: seq<Pose>, frames: seq<CameraFrame>)
    requires |AdmittedPoses(frames)| < TARGET_SAMPLES
    ensures Collect(StartCalibration(earlier), frames) == AdmittedPoses(frames)
  {
    CollectKeepsAdmitted(StartCalibration(earlier), frames);
  }
}
