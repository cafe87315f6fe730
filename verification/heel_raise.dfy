/**
 * The heel-raise repetition counter: a two-phase machine (Idle / Lifted) over
 * the vertical positions of both heels and both eyes, measured against a
 * calibrated baseline, with separate raise and return thresholds, a minimum
 * dwell in the Lifted phase, a cooldown between counted reps and a timeout
 * that abandons an over-long lift.
 *
 * With the default ratios the two thresholds do not form a hysteresis band:
 * the return band (within 12% of the baseline) contains part of the raise
 * region (more than 1% above the baseline), so a heel held still in that
 * overlap keeps counting, and only the dwell and the cooldown space the reps.
 *
 * Image y grows downwards, so a heel that rises has a y smaller than its
 * baseline and a positive `baseline - y` difference.
 */
module HeelRaise {
  import opened Landmarks

  /** Minimum time between two counted reps, in milliseconds. */
  const COOLDOWN_MS: int := 1500
  /** Minimum time the heels must stay lifted before a return counts. */
  const MIN_DWELL_MS: int := 300
  /** A lift that lasts longer than this is abandoned without counting. */
  const TIMEOUT_MS: int := 8000

  datatype Phase = Idle | Lifted

  /** The counter's constructor arguments: the cap and the calibrated baseline. */
  datatype Config = Config(
    maxCount: int,
    baselineLeftHeelY: real,
    baselineRightHeelY: real,
    baselineLeftEyeY: real,
    baselineRightEyeY: real,
    raiseRatio: real,
    returnThresholdRatio: real,
    eyeRaiseThreshold: real)

  /** A configuration that takes the constructor's default ratios and eye threshold. */
  function DefaultConfig(maxCount: int, leftHeelY: real, rightHeelY: real,
                         leftEyeY: real, rightEyeY: real): (cfg: Config)
    ensures cfg.maxCount == maxCount
    ensures cfg.baselineLeftHeelY == leftHeelY && cfg.baselineRightHeelY == rightHeelY
    ensures cfg.baselineLeftEyeY == leftEyeY && cfg.baselineRightEyeY == rightEyeY
    // for a heel below the image top, the return band is wider than the raise threshold,
    // so the raise region and the return band overlap (see DefaultBandsOverlap)
    ensures leftHeelY > 0.0 ==>
              0.0 < leftHeelY * cfg.raiseRatio < leftHeelY * cfg.returnThresholdRatio
    // a one-heel raise needs both eyes to rise by more than 8 pixels
    ensures cfg.eyeRaiseThreshold > 0.0
  {
    Config(maxCount, leftHeelY, rightHeelY, leftEyeY, rightEyeY, 0.01, 0.12, 8.0)
  }

  /** The mutable fields of the counter. */
  datatype State = State(phase: Phase, lastHeelRaisedTime: int, count: int, lastCountTime: int)

  /** The state of a freshly constructed counter. */
  const Initial: State := State(Idle, 0, 0, 0)

  /** A landmark is usable when present with likelihood at least 0.4; a missing one reads as likelihood 0. */
  function IsValidLandmark(pose: Pose, t: LandmarkType): (valid: bool)
    ensures valid <==> t in pose && pose[t].likelihood >= MIN_CONFIDENCE
  {
    LikelihoodOrZero(pose, t) >= MIN_CONFIDENCE
  }

  /** Both heels and both eyes are usable. */
  predicate Usable(pose: Pose)
  {
    IsValidLandmark(pose, LEFT_HEEL) && IsValidLandmark(pose, RIGHT_HEEL)
    && IsValidLandmark(pose, LEFT_EYE) && IsValidLandmark(pose, RIGHT_EYE)
  }

  /** Both heels (or one heel together with both eyes) rose past their thresholds. */
  predicate Raised(cfg: Config, pose: Pose)
    requires Usable(pose)
  {
    var raiseThreshold := cfg.baselineLeftHeelY * cfg.raiseRatio;
    var leftDiff := cfg.baselineLeftHeelY - pose[LEFT_HEEL].y;
    var rightDiff := cfg.baselineRightHeelY - pose[RIGHT_HEEL].y;
    var leftEyeDiff := cfg.baselineLeftEyeY - pose[LEFT_EYE].y;
    var rightEyeDiff := cfg.baselineRightEyeY - pose[RIGHT_EYE].y;
    var bothHeelsRaised := leftDiff > raiseThreshold && rightDiff > raiseThreshold;
    var oneHeelRaised := leftDiff > raiseThreshold || rightDiff > raiseThreshold;
    var bothEyesRaised := leftEyeDiff > cfg.eyeRaiseThreshold && rightEyeDiff > cfg.eyeRaiseThreshold;
    bothHeelsRaised || (oneHeelRaised && bothEyesRaised)
  }

  /**
   * Both heels are back within the return band around their baselines. The band
   * is derived from the LEFT heel's baseline for both heels.
   */
  predicate Returned(cfg: Config, pose: Pose)
    requires Usable(pose)
  {
    var returnThreshold := cfg.baselineLeftHeelY * cfg.returnThresholdRatio;
    Abs(pose[LEFT_HEEL].y - cfg.baselineLeftHeelY) < returnThreshold
    && Abs(pose[RIGHT_HEEL].y - cfg.baselineRightHeelY) < returnThreshold
  }

  /** The frame completes a rep: it would increment the count. */
  predicate CountsRep(cfg: Config, s: State, f: Frame)
  {
    && s.count < cfg.maxCount
    && Usable(f.pose)
    && s.phase == Lifted
    && Returned(cfg, f.pose)
    && f.now - s.lastHeelRaisedTime > MIN_DWELL_MS
    && f.now - s.lastCountTime > COOLDOWN_MS
  }

  /** The frame starts a lift: Idle becomes Lifted. */
  predicate StartsLift(cfg: Config, s: State, f: Frame)
  {
    && s.count < cfg.maxCount
    && Usable(f.pose)
    && s.phase == Idle
    && Raised(cfg, f.pose)
    && f.now - s.lastCountTime > COOLDOWN_MS
  }

  /** The frame ends a lift without counting: a return inside the cooldown, or the timeout. */
  predicate AbandonsLift(cfg: Config, s: State, f: Frame)
  {
    && s.count < cfg.maxCount
    && Usable(f.pose)
    && s.phase == Lifted
    && if Returned(cfg, f.pose)
       then f.now - s.lastHeelRaisedTime > MIN_DWELL_MS && f.now - s.lastCountTime <= COOLDOWN_MS
       else f.now - s.lastHeelRaisedTime > TIMEOUT_MS
  }

  /** One call of the counter's per-pose handler. */
  function Step(cfg: Config, s: State, f: Frame): (s': State)
    // at the cap, or with an unusable landmark, nothing changes
    ensures s.count >= cfg.maxCount ==> s' == s
    ensures !Usable(f.pose) ==> s' == s
    // the count moves by at most one, and exactly when a rep completes
    ensures s'.count == s.count || s'.count == s.count + 1
    ensures s'.count == s.count + 1 <==> CountsRep(cfg, s, f)
    ensures CountsRep(cfg, s, f) ==> s'.phase == Idle && s'.lastCountTime == f.now
    ensures s'.lastCountTime != s.lastCountTime ==> s'.count == s.count + 1
    // Idle becomes Lifted exactly on a raise after the cooldown, stamping the lift time
    ensures s.phase == Idle && s'.phase == Lifted <==> StartsLift(cfg, s, f)
    ensures StartsLift(cfg, s, f) ==> s'.lastHeelRaisedTime == f.now
    ensures s'.lastHeelRaisedTime != s.lastHeelRaisedTime ==> StartsLift(cfg, s, f)
    // Lifted becomes Idle exactly when a rep completes or the lift is abandoned
    ensures s.phase == Lifted && s'.phase == Idle <==> CountsRep(cfg, s, f) || AbandonsLift(cfg, s, f)
    ensures AbandonsLift(cfg, s, f) ==> s'.count == s.count
  {
    if s.count >= cfg.maxCount then s
    else if !Usable(f.pose) then s
    else
      match s.phase
      case Idle =>
        if Raised(cfg, f.pose) && f.now - s.lastCountTime > COOLDOWN_MS
        then s.(phase := Lifted, lastHeelRaisedTime := f.now)
        else s
      case Lifted =>
        if Returned(cfg, f.pose) then
          if f.now - s.lastHeelRaisedTime > MIN_DWELL_MS then
            if f.now - s.lastCountTime > COOLDOWN_MS
            then s.(phase := Idle, count := s.count + 1, lastCountTime := f.now)
            else s.(phase := Idle)
          else s
        else if f.now - s.lastHeelRaisedTime > TIMEOUT_MS then s.(phase := Idle)
        else s
  }

  /** The counter after handling `frames` in order. */
  function Run(cfg: Config, s: State, frames: seq<Frame>): State
    decreases |frames|
  {
    if |frames| == 0 then s else Run(cfg, Step(cfg, s, frames[0]), frames[1..])
  }

  /**
   * Counted reps are spaced by more than the cooldown: over any run, the
   * last-count timestamp advances by at least 1501 ms per rep counted, whatever
   * the order of the frames' timestamps.
   */
  lemma {:induction false} RunCountsAreSpaced(cfg: Config, s: State, frames: seq<Frame>)
    ensures Run(cfg, s, frames).lastCountTime - s.lastCountTime
            >= (COOLDOWN_MS + 1) * (Run(cfg, s, frames).count - s.count)
    decreases |frames|
  {
    if |frames| > 0 {
      RunCountsAreSpaced(cfg, Step(cfg, s, frames[0]), frames[1..]);
    }
  }

  /**
   * Two states behave alike when they agree on everything except, while Idle,
   * the time of the last lift (which only a Lifted state reads).
   */
  predicate Equivalent(a: State, b: State)
  {
    && a.phase == b.phase
    && a.count == b.count
    && a.lastCountTime == b.lastCountTime
    && (a.phase == Lifted ==> a.lastHeelRaisedTime == b.lastHeelRaisedTime)
  }

  /** The counter's reset: count, phase and last-count time return to their initial values. */
  function Reset(s: State): (r: State)
    ensures r.count == 0 && r.phase == Idle
    ensures Equivalent(r, Initial)
    ensures r.lastHeelRaisedTime == s.lastHeelRaisedTime
  {
    s.(count := 0, phase := Idle, lastCountTime := 0)
  }

  /** Equivalent states stay equivalent over any run of frames. */
  lemma {:induction false} RunPreservesEquivalence(cfg: Config, a: State, b: State, frames: seq<Frame>)
    requires Equivalent(a, b)
    ensures Equivalent(Run(cfg, a, frames), Run(cfg, b, frames))
    decreases |frames|
  {
    if |frames| > 0 {
      RunPreservesEquivalence(cfg, Step(cfg, a, frames[0]), Step(cfg, b, frames[0]), frames[1..]);
    }
  }

  /**
   * Reset leaves the last-lift time alone, yet a reset counter counts exactly as
   * a freshly constructed one over any sequence of frames.
   */
  lemma {:induction false} ResetCountsLikeFresh(cfg: Config, s: State, frames: seq<Frame>)
    ensures Run(cfg, Reset(s), frames).count == Run(cfg, Initial, frames).count
    ensures Run(cfg, Reset(s), frames).phase == Run(cfg, Initial, frames).phase
  {
    RunPreservesEquivalence(cfg, Reset(s), Initial, frames);
  }

  /**
   * With the default ratios, a pose whose heels are both held between 1% and
   * 12% above a common baseline is raised and returned at the same time.
   */
  lemma DefaultBandsOverlap(maxCount: int, heelY: real, leftEyeY: real, rightEyeY: real, pose: Pose)
    requires heelY > 0.0 && Usable(pose)
    requires heelY - 0.12 * heelY < pose[LEFT_HEEL].y < heelY - 0.01 * heelY
    requires heelY - 0.12 * heelY < pose[RIGHT_HEEL].y < heelY - 0.01 * heelY
    ensures Raised(DefaultConfig(maxCount, heelY, heelY, leftEyeY, rightEyeY), pose)
    ensures Returned(DefaultConfig(maxCount, heelY, heelY, leftEyeY, rightEyeY), pose)
  {
  }

  /**
   * `n` lift-and-return cycles of one unchanging pose, starting at `start`: a
   * frame that can start a lift, one 301 ms later that can count, and the next
   * cycle 1501 ms after that count.
   */
  function HeldFrames(pose: Pose, start: int, n: nat): (frames: seq<Frame>)
    ensures |frames| == 2 * n
    ensures forall i :: 0 <= i < |frames| ==> frames[i].pose == pose
    decreases n
  {
    if n == 0 then []
    else [Frame(pose, start, false), Frame(pose, start + MIN_DWELL_MS + 1, false)]
         + HeldFrames(pose, start + MIN_DWELL_MS + COOLDOWN_MS + 2, n - 1)
  }

  /**
   * A pose that is both raised and returned, held without moving, counts one rep
   * per cycle of `HeldFrames`: nothing in the machine requires the heels to come
   * down between reps.
   */
  lemma {:induction false} HeldHeelCountsEveryCycle(cfg: Config, pose: Pose, s: State, start: int, n: nat)
    requires Usable(pose) && Raised(cfg, pose) && Returned(cfg, pose)
    requires s.phase == Idle && start - s.lastCountTime > COOLDOWN_MS
    requires s.count + n <= cfg.maxCount
    ensures Run(cfg, s, HeldFrames(pose, start, n)).count == s.count + n
    ensures Run(cfg, s, HeldFrames(pose, start, n)).phase == Idle
    decreases n
  {
    if n > 0 {
      var f1 := Frame(pose, start, false);
      var f2 := Frame(pose, start + MIN_DWELL_MS + 1, false);
      var next := start + MIN_DWELL_MS + COOLDOWN_MS + 2;
      var rest := HeldFrames(pose, next, n - 1);
      var frames := HeldFrames(pose, start, n);
      assert frames[0] == f1 && frames[1..] == [f2] + rest;
      assert ([f2] + rest)[0] == f2 && ([f2] + rest)[1..] == rest;
      var s1 := Step(cfg, s, f1);
      assert StartsLift(cfg, s, f1);
      var s2 := Step(cfg, s1, f2);
      assert CountsRep(cfg, s1, f2);
      assert Run(cfg, s, frames) == Run(cfg, s2, rest);
      HeldHeelCountsEveryCycle(cfg, pose, s2, next, n - 1);
    }
  }

  /**
   * An instance: with baselines 1000, both heels held at 950 (5% up) and never
   * lowered, frames at 2000, 2301, 3802 and 4103 ms count two reps.
   */
  lemma HeldHeelCountsTwice(pose: Pose)
    requires Usable(pose) && pose[LEFT_HEEL].y == 950.0 && pose[RIGHT_HEEL].y == 950.0
    ensures Run(DefaultConfig(10, 1000.0, 1000.0, 500.0, 500.0), Initial,
                [Frame(pose, 2000, false), Frame(pose, 2301, false),
                 Frame(pose, 3802, false), Frame(pose, 4103, false)]).count == 2
  {
    var cfg := DefaultConfig(10, 1000.0, 1000.0, 500.0, 500.0);
    DefaultBandsOverlap(10, 1000.0, 500.0, 500.0, pose);
    HeldHeelCountsEveryCycle(cfg, pose, Initial, 2000, 2);
    assert HeldFrames(pose, 2000, 2) ==
           [Frame(pose, 2000, false), Frame(pose, 2301, false),
            Frame(pose, 3802, false), Frame(pose, 4103, false)];
  }
}
