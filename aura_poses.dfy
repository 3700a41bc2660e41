/** The open-hand pose of the aura plugin: all-or-nothing over the five fingers. */
module AuraPoses {
  import opened Types

  const OpenHandPoseId := "pose_open_hand"
  const OpenHandThreshold: real := 0.95

  predicate AllOpen(fs: FingerStates) {
    fs.thumb == Open && fs.index == Open && fs.middle == Open && fs.ring == Open && fs.pinky == Open
  }

  /**
   * The open-hand score: 1 when all five fingers are open, 0 otherwise, so
   * it clears the 0.95 threshold exactly when the whole hand is open.
   */
  function OpenHandScore(f: HandFeatures): (s: real)
    ensures s == 0.0 || s == 1.0
    ensures s == 1.0 <==> AllOpen(f.fingerStates)
    ensures s > OpenHandThreshold <==> AllOpen(f.fingerStates)
  {
    var fs := f.fingerStates;
    var openCount := Indicator(fs.thumb == Open) + Indicator(fs.index == Open) + Indicator(fs.middle == Open)
                   + Indicator(fs.ring == Open) + Indicator(fs.pinky == Open);
    if openCount == 5 then 1.0 else 0.0
  }

  const OpenHandPose := PoseSpec(OpenHandPoseId, "Open Hand", OpenHandScore, OpenHandThreshold)

  /** One closed or undetermined finger is enough to score zero. */
  lemma NotOpenScoresZero(f: HandFeatures)
    requires exists x :: x in [f.fingerStates.thumb, f.fingerStates.index, f.fingerStates.middle,
                               f.fingerStates.ring, f.fingerStates.pinky] && x != Open
    ensures OpenHandScore(f) == 0.0
  {
  }
}
