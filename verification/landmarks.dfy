/**
 * The pose abstraction shared by the rep counters and the calibration view.
 *
 * A pose-detector result is a map from landmark type to the detected landmark;
 * a landmark the detector did not report is simply absent from the map.
 * Coordinates and in-frame likelihoods are modelled as reals.
 */
module Landmarks {

  /** The 33 landmark types of the pose detector, numbered 0 to 32. */
  type LandmarkType = t: int | 0 <= t < 33

  const LEFT_EYE: LandmarkType := 2
  const RIGHT_EYE: LandmarkType := 5
  const LEFT_SHOULDER: LandmarkType := 11
  const RIGHT_SHOULDER: LandmarkType := 12
  const LEFT_ELBOW: LandmarkType := 13
  const RIGHT_ELBOW: LandmarkType := 14
  const LEFT_WRIST: LandmarkType := 15
  const RIGHT_WRIST: LandmarkType := 16
  const LEFT_HIP: LandmarkType := 23
  const RIGHT_HIP: LandmarkType := 24
  const LEFT_KNEE: LandmarkType := 25
  const RIGHT_KNEE: LandmarkType := 26
  const LEFT_ANKLE: LandmarkType := 27
  const RIGHT_ANKLE: LandmarkType := 28
  const LEFT_HEEL: LandmarkType := 29
  const RIGHT_HEEL: LandmarkType := 30

  /** One detected body keypoint: image position and in-frame likelihood. */
  datatype Landmark = Landmark(x: real, y: real, likelihood: real)

  /** One pose-detector result: the landmarks it reported, by type. */
  type Pose = map<LandmarkType, Landmark>

  /**
   * One camera frame as the counters see it: the detected pose, the wall-clock
   * time in milliseconds at which it is processed, and whether the arms are
   * held in front of the body (the squat counter's angle test, taken as given).
   */
  datatype Frame = Frame(pose: Pose, now: int, armsInFront: bool)

  /** Likelihood below which the counters and the calibration filter reject a landmark. */
  const MIN_CONFIDENCE: real := 0.4

  function Abs(x: real): real
  {
    if x < 0.0 then -x else x
  }

  /** The likelihood of landmark `t`, with a missing landmark read as 0. */
  function LikelihoodOrZero(pose: Pose, t: LandmarkType): real
  {
    if t in pose then pose[t].likelihood else 0.0
  }
}
