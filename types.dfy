/**
 * The shapes shared by the whole pipeline: finger features of one hand,
 * pose and gesture definitions, and technique identities.
 */
module Types {
  /** Milliseconds, as delivered by the browser's frame clock (fractional). */
  type Time = real

  datatype FingerState = Open | Closed | Unknown

  datatype Handedness = Left | Right

  /** 1 when the condition holds, 0 otherwise: one term of a scorer's running count. */
  function Indicator(b: bool): (n: nat)
    ensures n <= 1 && (n == 1 <==> b)
  {
    if b then 1 else 0
  }

  /** The state of each of the five fingers of one hand. */
  datatype FingerStates = FingerStates(
    thumb: FingerState,
    index: FingerState,
    middle: FingerState,
    ring: FingerState,
    pinky: FingerState)

  /**
   * The per-hand feature snapshot the pose scorers read. `pinch` is in
   * [0,1], 1 meaning thumb and index tips touch. The palm normal, rotation
   * and motion estimates are computed by the feature extractor but read by
   * no pose of this model, so they are not carried.
   */
  datatype HandFeatures = HandFeatures(
    handId: string,
    handedness: Handedness,
    fingerStates: FingerStates,
    pinch: real)

  /** A pose definition: a pure scoring function and the score it must exceed. */
  datatype PoseSpec = PoseSpec(
    id: string,
    name: string,
    score: HandFeatures -> real,
    threshold: real)

  /** One step of a gesture: the pose required and the largest gap to the next step. */
  datatype Step = Step(poseId: string, maxGapMs: Time)

  /** A gesture definition: an ordered sequence of steps and a per-gesture cooldown. */
  datatype GestureSpec = GestureSpec(
    id: string,
    name: string,
    sequence: seq<Step>,
    cooldownMs: Time)

  /** The identity of a technique; its start/update/stop hooks are abstract events. */
  datatype Technique = Technique(
    id: string,
    name: string,
    gestureId: string,
    version: string)

  /** One entry of the pose history log. */
  datatype HistoryItem = HistoryItem(t: Time, poseId: string)
}
