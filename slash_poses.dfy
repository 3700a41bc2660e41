/**
 * The two poses of the slash plugin. Both scores count quarter points over
 * the four non-thumb fingers, so the thumb never matters.
 */
module SlashPoses {
  import opened Types

  const FistPoseId := "pose_fist"
  const FistThreshold: real := 0.75
  const TwoFingersPoseId := "pose_two_fingers"
  const TwoFingersThreshold: real := 0.75

  /** The scores a quarter-point scorer can produce. */
  predicate IsQuarter(s: real) {
    s == 0.0 || s == 0.25 || s == 0.5 || s == 0.75 || s == 1.0
  }

  /**
   * The fist score: how many of index, middle, ring and pinky are closed,
   * divided by four. It is a quarter between 0 and 1 and clears the 0.75
   * threshold exactly when all four are closed.
   */
  function FistScore(f: HandFeatures): (s: real)
    ensures IsQuarter(s)
    ensures s > FistThreshold <==>
      && f.fingerStates.index == Closed && f.fingerStates.middle == Closed
      && f.fingerStates.ring == Closed && f.fingerStates.pinky == Closed
    ensures s == 0.0 <==>
      && f.fingerStates.index != Closed && f.fingerStates.middle != Closed
      && f.fingerStates.ring != Closed && f.fingerStates.pinky != Closed
  {
    var fs := f.fingerStates;
    var coreClosed := Indicator(fs.index == Closed) + Indicator(fs.middle == Closed)
                    + Indicator(fs.ring == Closed) + Indicator(fs.pinky == Closed);
    coreClosed as real / 4.0
  }

  /**
   * The two-fingers score: a quarter point each for index open, middle
   * open, ring closed and pinky closed. It lies in [0, 1] and clears the 0.75
   * threshold exactly when all four conditions hold.
   */
  function TwoFingersScore(f: HandFeatures): (s: real)
    ensures IsQuarter(s) && 0.0 <= s <= 1.0
    ensures s > TwoFingersThreshold <==>
      && f.fingerStates.index == Open && f.fingerStates.middle == Open
      && f.fingerStates.ring == Closed && f.fingerStates.pinky == Closed
  {
    var fs := f.fingerStates;
    var quarters := Indicator(fs.index == Open) + Indicator(fs.middle == Open)
                  + Indicator(fs.ring == Closed) + Indicator(fs.pinky == Closed);
    quarters as real * 0.25
  }

  const FistPose := PoseSpec(FistPoseId, "Fist", FistScore, FistThreshold)
  const TwoFingersPose := PoseSpec(TwoFingersPoseId, "Two Fingers (Domain/Slash)", TwoFingersScore, TwoFingersThreshold)

  /** The same hand with a different thumb. */
  function WithThumb(f: HandFeatures, thumb: FingerState): HandFeatures {
    f.(fingerStates := f.fingerStates.(thumb := thumb))
  }

  /** Neither slash score reads the thumb. */
  lemma ThumbIgnored(f: HandFeatures, thumb: FingerState)
    ensures FistScore(WithThumb(f, thumb)) == FistScore(f)
    ensures TwoFingersScore(WithThumb(f, thumb)) == TwoFingersScore(f)
  {
  }

  /** No hand qualifies as both a fist and two fingers: the index finger decides. */
  lemma FistExcludesTwoFingers(f: HandFeatures)
    ensures !(FistScore(f) > FistThreshold && TwoFingersScore(f) > TwoFingersThreshold)
  {
  }
}
