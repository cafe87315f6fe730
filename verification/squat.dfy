/**
 * The squat repetition counter: two flags over the average vertical hip-to-knee
 * distance. A rep counts on the edge into the squatting band, but only while
 * the counter is armed (`fullyStood`) and the arms are held in front; a counted
 * rep disarms it, and only a frame standing clearly taller than the squat
 * threshold re-arms it.
 */
module Squat {
  import opened Landmarks

  /** Average hip-to-knee distance below which the subject is squatting. */
  const SQUAT_THRESHOLD: real := 110.0

  /**
   * Distance above which the counter re-arms. The source multiplies 110 by the
   * single-precision literal 1.35, whose exact value is 11324621 / 2^23, so the
   * bound is slightly above 148.5.
   */
  const REARM_THRESHOLD: real := SQUAT_THRESHOLD * (11324621.0 / 8388608.0)

  /** The mutable fields of the counter. */
  datatype State = State(count: int, wasSquatting: bool, fullyStood: bool)

  /** The state of a freshly constructed counter. */
  const Initial: State := State(0, false, true)

  /** The ten landmarks a frame must carry; their likelihood is not consulted. */
  predicate Complete(pose: Pose)
  {
    && LEFT_HIP in pose && LEFT_KNEE in pose && RIGHT_HIP in pose && RIGHT_KNEE in pose
    && LEFT_SHOULDER in pose && LEFT_ELBOW in pose && LEFT_WRIST in pose
    && RIGHT_SHOULDER in pose && RIGHT_ELBOW in pose && RIGHT_WRIST in pose
  }

  /** Mean of the left and right vertical hip-to-knee distances. */
  function AverageDistance(pose: Pose): (d: real)
    requires Complete(pose)
    ensures d >= 0.0
  {
    (Abs(pose[LEFT_HIP].y - pose[LEFT_KNEE].y) + Abs(pose[RIGHT_HIP].y - pose[RIGHT_KNEE].y)) / 2.0
  }

  function IsSquatting(pose: Pose): (squatting: bool)
    requires Complete(pose)
    // the squat band and the re-arm band are disjoint: a squatting frame never re-arms
    ensures squatting ==> !Rearms(pose)
    // squatting means exactly an average hip-knee distance below 110
    ensures squatting <==> AverageDistance(pose) < SQUAT_THRESHOLD
  {
    AverageDistance(pose) < SQUAT_THRESHOLD
  }

  /** A frame that re-arms the counter: complete and standing above the re-arm bound. */
  predicate Rearms(pose: Pose)
  {
    Complete(pose) && AverageDistance(pose) > REARM_THRESHOLD
  }

  /** The frame completes a rep. */
  predicate CountsRep(maxCount: int, s: State, f: Frame)
  {
    && s.count < maxCount
    && Complete(f.pose)
    && !s.wasSquatting
    && IsSquatting(f.pose)
    && s.fullyStood
    && f.armsInFront
  }

  /** One call of the counter's per-pose handler. */
  function Step(maxCount: int, s: State, f: Frame): (s': State)
    // at the cap, or with a landmark missing, nothing changes
    ensures s.count >= maxCount ==> s' == s
    ensures !Complete(f.pose) ==> s' == s
    // the count moves by at most one, exactly on an armed edge into the squat
    ensures s'.count == s.count || s'.count == s.count + 1
    ensures s'.count == s.count + 1 <==> CountsRep(maxCount, s, f)
    // a counting frame disarms the counter and never re-arms it
    ensures CountsRep(maxCount, s, f) ==> !s'.fullyStood
    // and only a counting frame disarms it
    ensures s.fullyStood && !s'.fullyStood ==> CountsRep(maxCount, s, f)
    // the counter is armed afresh only by a frame standing above the re-arm bound
    ensures s'.fullyStood && !s.fullyStood ==> Rearms(f.pose)
    ensures s.count < maxCount && Rearms(f.pose) ==> s'.fullyStood
    // every handled frame records whether it was a squat
    ensures s.count < maxCount && Complete(f.pose) ==> s'.wasSquatting == IsSquatting(f.pose)
  {
    if s.count >= maxCount then s
    else if !Complete(f.pose) then s
    else
      var squatting := IsSquatting(f.pose);
      var counted := !s.wasSquatting && squatting && s.fullyStood && f.armsInFront;
      var count := if counted then s.count + 1 else s.count;
      var armed := if counted then false else s.fullyStood;
      var armed' := if AverageDistance(f.pose) > REARM_THRESHOLD then true else armed;
      State(count, squatting, armed')
  }

  /** The counter after handling `frames` in order. */
  function Run(maxCount: int, s: State, frames: seq<Frame>): State
    decreases |frames|
  {
    if |frames| == 0 then s else Run(maxCount, Step(maxCount, s, frames[0]), frames[1..])
  }

  /** The number of frames in `frames` that re-arm the counter. */
  function RearmingFrames(frames: seq<Frame>): nat
    decreases |frames|
  {
    if |frames| == 0 then 0
    else (if Rearms(frames[0].pose) then 1 else 0) + RearmingFrames(frames[1..])
  }

  function Armed(s: State): int
  {
    if s.fullyStood then 1 else 0
  }

  /**
   * Hysteresis: every rep after the first needs its own re-arming frame. Over
   * any run, the reps counted plus whether the counter ends armed is at most
   * whether it started armed plus the number of re-arming frames.
   */
  lemma {:induction false} RunRepsNeedRearming(maxCount: int, s: State, frames: seq<Frame>)
    ensures Run(maxCount, s, frames).count - s.count + Armed(Run(maxCount, s, frames))
            <= Armed(s) + RearmingFrames(frames)
    decreases |frames|
  {
    if |frames| > 0 {
      var s1 := Step(maxCount, s, frames[0]);
      RunRepsNeedRearming(maxCount, s1, frames[1..]);
    }
  }

  /** The counter's reset: whatever the state, it returns to that of a fresh counter. */
  function Reset(s: State): (r: State)
    ensures r == Initial
  {
    State(0, false, true)
  }
}
