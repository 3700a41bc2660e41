/**
 * Pose classification and gesture sequence matching: the `PoseRecognizer`
 * (a running maximum over registered pose definitions) and the
 * `SequenceRecognizer` (a transition-only, time-pruned pose history log,
 * per-gesture cooldowns and a backward anchored matcher).
 */
module Recognition {
  import opened Wrappers
  import opened Types

  /** Entries at least this old (relative to the newest timestamp) are pruned. */
  const HistoryRetentionMs: Time := 5000.0

  /** Slack added to a step's maximum gap before the backward scan gives up. */
  const NoiseBufferMs: Time := 500.0

  /** JavaScript truthiness of a nullable string: present and not empty. */
  predicate Truthy(id: Option<string>) {
    id.Some? && id.value != ""
  }

  // ---------------------------------------------------------------------
  // Pose classification
  // ---------------------------------------------------------------------

  datatype PoseResult = PoseResult(poseId: string, score: real)

  /** The classifier loop's running best: the score and the id (null at first). */
  datatype Best = Best(score: real, poseId: Option<string>)

  /** The running best after the loop has visited `specs`, in order. */
  function Scan(specs: seq<PoseSpec>, hand: HandFeatures): Best {
    if |specs| == 0 then Best(0.0, None)
    else
      var b := Scan(specs[..|specs| - 1], hand);
      var s := specs[|specs| - 1];
      var score := s.score(hand);
      if score > s.threshold && score > b.score then Best(score, Some(s.id)) else b
  }

  /** What `recognize` returns: the best pose if its id is truthy, otherwise null. */
  function Classify(specs: seq<PoseSpec>, hand: HandFeatures): Option<PoseResult> {
    var b := Scan(specs, hand);
    if Truthy(b.poseId) then Some(PoseResult(b.poseId.value, b.score)) else None
  }

  /** A definition can win: its score exceeds its own threshold and the initial best, 0. */
  predicate Qualifies(s: PoseSpec, hand: HandFeatures) {
    s.score(hand) > s.threshold && s.score(hand) > 0.0
  }

  /** `k` is the earliest definition attaining the largest qualifying score. */
  ghost predicate IsWinner(specs: seq<PoseSpec>, hand: HandFeatures, k: int) {
    && 0 <= k < |specs|
    && Qualifies(specs[k], hand)
    && (forall j :: 0 <= j < |specs| && Qualifies(specs[j], hand) ==>
          specs[j].score(hand) <= specs[k].score(hand))
    && (forall j :: 0 <= j < k && Qualifies(specs[j], hand) ==>
          specs[j].score(hand) < specs[k].score(hand))
  }

  /**
   * The loop's running best is the earliest definition with the maximum
   * qualifying score, and stays null with score 0 exactly when none qualifies.
   */
  lemma {:induction false} ScanWinner(specs: seq<PoseSpec>, hand: HandFeatures) returns (k: int)
    ensures var b := Scan(specs, hand);
      b.poseId.None? ==>
        k == -1 && b.score == 0.0 && forall j :: 0 <= j < |specs| ==> !Qualifies(specs[j], hand)
    ensures var b := Scan(specs, hand);
      b.poseId.Some? ==>
        IsWinner(specs, hand, k) && b.poseId.value == specs[k].id && b.score == specs[k].score(hand)
  {
    if |specs| == 0 {
      k := -1;
    } else {
      var n := |specs| - 1;
      var init := specs[..n];
      assert forall j :: 0 <= j < n ==> init[j] == specs[j];
      var k0 := ScanWinner(init, hand);
      var s := specs[n];
      var b := Scan(init, hand);
      if s.score(hand) > s.threshold && s.score(hand) > b.score {
        k := n;
      } else {
        k := k0;
      }
    }
  }

  /**
   * `recognize` returns the earliest definition with the maximum qualifying
   * score; it returns null exactly when no definition qualifies or that
   * winner's id is the (falsy) empty string.
   */
  lemma ClassifySpec(specs: seq<PoseSpec>, hand: HandFeatures) returns (k: int)
    ensures Classify(specs, hand).Some? ==>
      IsWinner(specs, hand, k) && specs[k].id != ""
      && Classify(specs, hand).value == PoseResult(specs[k].id, specs[k].score(hand))
    ensures Classify(specs, hand).None? <==>
      (forall j :: 0 <= j < |specs| ==> !Qualifies(specs[j], hand))
      || (IsWinner(specs, hand, k) && specs[k].id == "")
  {
    k := ScanWinner(specs, hand);
  }

  /** With non-empty ids, `recognize` returns null iff no definition qualifies. */
  lemma ClassifyNoneIff(specs: seq<PoseSpec>, hand: HandFeatures)
    requires forall j :: 0 <= j < |specs| ==> specs[j].id != ""
    ensures Classify(specs, hand).None? <==> forall j :: 0 <= j < |specs| ==> !Qualifies(specs[j], hand)
  {
    var k := ClassifySpec(specs, hand);
  }

  class PoseRecognizer {
    var specs: seq<PoseSpec>

    constructor ()
      ensures specs == []
    {
      specs := [];
    }

    method RegisterPose(spec: PoseSpec)
      modifies this
      ensures specs == old(specs) + [spec]
    {
      specs := specs + [spec];
    }

    /** Classifies one hand; the registered definitions are left as they are. */
    method Recognize(hand: HandFeatures) returns (r: Option<PoseResult>)
      ensures r == Classify(specs, hand)
    {
      var bestScore := 0.0;
      var bestPoseId: Option<string> := None;
      for i := 0 to |specs|
        invariant Scan(specs[..i], hand) == Best(bestScore, bestPoseId)
      {
        var spec := specs[i];
        var score := spec.score(hand);
        if score > spec.threshold && score > bestScore {
          bestScore := score;
          bestPoseId := Some(spec.id);
        }
        assert specs[..i + 1][..i] == specs[..i];
      }
      assert specs[..|specs|] == specs;
      r := if Truthy(bestPoseId) then Some(PoseResult(bestPoseId.value, bestScore)) else None;
    }
  }

  // ---------------------------------------------------------------------
  // Pose history log
  // ---------------------------------------------------------------------

  /** `history.filter(h => now - h.t < 5000)`. */
  function Prune(h: seq<HistoryItem>, now: Time): seq<HistoryItem> {
    if |h| == 0 then []
    else (if now - h[0].t < HistoryRetentionMs then [h[0]] else []) + Prune(h[1..], now)
  }

  /** The history after `update(now, activePoseId)`. */
  function Recorded(h: seq<HistoryItem>, now: Time, activePoseId: Option<string>): seq<HistoryItem> {
    if Truthy(activePoseId) && (|h| == 0 || h[|h| - 1].poseId != activePoseId.value)
    then Prune(h + [HistoryItem(now, activePoseId.value)], now)
    else h
  }

  /** Timestamps never decrease, no two neighbours share a pose, no pose id is empty. */
  ghost predicate WellFormed(h: seq<HistoryItem>) {
    && (forall i, j :: 0 <= i < j < |h| ==> h[i].t <= h[j].t)
    && (forall i :: 0 <= i < |h| - 1 ==> h[i].poseId != h[i + 1].poseId)
    && (forall i :: 0 <= i < |h| ==> h[i].poseId != "")
  }

  /** Pruning keeps exactly the entries younger than the retention window. */
  lemma {:induction false} PruneMembers(h: seq<HistoryItem>, now: Time)
    ensures forall x :: x in Prune(h, now) <==> x in h && now - x.t < HistoryRetentionMs
  {
    if |h| > 0 {
      PruneMembers(h[1..], now);
      forall x ensures x in Prune(h, now) <==> x in h && now - x.t < HistoryRetentionMs {
        assert x in h <==> x == h[0] || x in h[1..];
      }
    }
  }

  /** On a time-ordered log, pruning drops a prefix. */
  lemma {:induction false} PruneSuffix(h: seq<HistoryItem>, now: Time) returns (c: nat)
    requires forall i, j :: 0 <= i < j < |h| ==> h[i].t <= h[j].t
    ensures c <= |h| && Prune(h, now) == h[c..]
  {
    if |h| == 0 {
      c := 0;
    } else {
      var c' := PruneSuffix(h[1..], now);
      if now - h[0].t < HistoryRetentionMs {
        assert forall i :: 0 <= i < |h| ==> now - h[i].t < HistoryRetentionMs;
        KeepAll(h[1..], now);
        c := 0;
      } else {
        c := c' + 1;
      }
    }
  }

  /** Pruning keeps every entry when all are young enough. */
  lemma {:induction false} KeepAll(h: seq<HistoryItem>, now: Time)
    requires forall i :: 0 <= i < |h| ==> now - h[i].t < HistoryRetentionMs
    ensures Prune(h, now) == h
  {
    if |h| > 0 {
      KeepAll(h[1..], now);
    }
  }

  /** A null or empty pose id leaves the log alone. */
  lemma RecordedFalsy(h: seq<HistoryItem>, now: Time, activePoseId: Option<string>)
    requires !Truthy(activePoseId)
    ensures Recorded(h, now, activePoseId) == h
  {
  }

  /**
   * `update` appends iff the pose is truthy and the log is empty or ends in a
   * different pose; an append leaves `(now, pose)` last and keeps exactly the
   * entries younger than 5000 ms; otherwise nothing changes.
   */
  lemma RecordedSpec(h: seq<HistoryItem>, now: Time, pose: string)
    ensures var r := Recorded(h, now, Some(pose));
      var appends := pose != "" && (|h| == 0 || h[|h| - 1].poseId != pose);
      && (!appends ==> r == h)
      && (appends ==>
            && |r| > 0 && r[|r| - 1] == HistoryItem(now, pose)
            && forall x :: x in r <==>
                 (x in h || x == HistoryItem(now, pose)) && now - x.t < HistoryRetentionMs)
  {
    var h' := h + [HistoryItem(now, pose)];
    PruneMembers(h', now);
    PruneLast(h', now);
  }

  /** Pruning at the newest timestamp keeps that newest entry last. */
  lemma {:induction false} PruneLast(h: seq<HistoryItem>, now: Time)
    requires |h| > 0 && h[|h| - 1].t == now
    ensures var p := Prune(h, now); |p| > 0 && p[|p| - 1] == h[|h| - 1]
  {
    if |h| > 1 {
      PruneLast(h[1..], now);
    }
  }

  /** Repeating the same pose, at any later time, changes nothing. */
  lemma RecordedIdempotent(h: seq<HistoryItem>, now: Time, later: Time, p: Option<string>)
    ensures Recorded(Recorded(h, now, p), later, p) == Recorded(h, now, p)
  {
    if Truthy(p) {
      RecordedSpec(h, now, p.value);
    }
  }

  /** With non-decreasing timestamps, `update` keeps the log well formed. */
  lemma RecordedWellFormed(h: seq<HistoryItem>, now: Time, p: Option<string>)
    requires WellFormed(h)
    requires |h| > 0 ==> h[|h| - 1].t <= now
    ensures WellFormed(Recorded(h, now, p))
  {
    if Truthy(p) && (|h| == 0 || h[|h| - 1].poseId != p.value) {
      var h' := h + [HistoryItem(now, p.value)];
      assert WellFormed(h');
      var c := PruneSuffix(h', now);
      assert Recorded(h, now, p) == h'[c..];
      SuffixWellFormed(h', c);
    }
  }

  lemma SuffixWellFormed(h: seq<HistoryItem>, c: nat)
    requires WellFormed(h) && c <= |h|
    ensures WellFormed(h[c..])
  {
    var s := h[c..];
    assert forall i :: 0 <= i < |s| ==> s[i] == h[c + i];
  }

  // ---------------------------------------------------------------------
  // Gesture matching
  // ---------------------------------------------------------------------

  /** An entry the scan for `step` accepts: the right pose within the step's maximum gap. */
  predicate Candidate(item: HistoryItem, step: Step, anchor: Time) {
    item.poseId == step.poseId && anchor - item.t <= step.maxGapMs
  }

  /** An entry the scan may step over: not older than the maximum gap plus the buffer. */
  predicate InWindow(item: HistoryItem, step: Step, anchor: Time) {
    anchor - item.t <= step.maxGapMs + NoiseBufferMs
  }

  /**
   * The inner loop of the matcher: scanning back from index `i` against
   * `anchor`, the index of the entry that satisfies `step`, or -1.
   */
  function FindStep(h: seq<HistoryItem>, step: Step, i: int, anchor: Time): (j: int)
    requires -1 <= i < |h|
    ensures -1 <= j <= i
    decreases i + 1
  {
    if i < 0 then -1
    else
      var gap := anchor - h[i].t;
      if gap > step.maxGapMs + NoiseBufferMs then -1
      else if h[i].poseId == step.poseId && gap <= step.maxGapMs then i
      else FindStep(h, step, i - 1, anchor)
  }

  /** The outer loop of the matcher: the first `k` steps, scanned backward from index `i`. */
  function MatchSteps(h: seq<HistoryItem>, steps: seq<Step>, k: nat, i: int, anchor: Time): bool
    requires k <= |steps| && -1 <= i < |h|
    decreases k
  {
    k == 0 ||
    var j := FindStep(h, steps[k - 1], i, anchor);
    j >= 0 && MatchSteps(h, steps, k - 1, j - 1, h[j].t)
  }

  /** The whole sequence matches the log at time `now`. */
  function SequenceMatches(h: seq<HistoryItem>, steps: seq<Step>, now: Time): bool {
    MatchSteps(h, steps, |steps|, |h| - 1, now)
  }

  /** A found entry is a candidate and every entry passed over was in the window but not one. */
  lemma {:induction false} FindStepFound(h: seq<HistoryItem>, step: Step, i: int, anchor: Time)
    requires -1 <= i < |h|
    ensures var j := FindStep(h, step, i, anchor);
      j >= 0 ==>
        && Candidate(h[j], step, anchor)
        && forall m :: j < m <= i ==> InWindow(h[m], step, anchor) && !Candidate(h[m], step, anchor)
  {
    if i >= 0 && FindStep(h, step, i, anchor) < i {
      FindStepFound(h, step, i - 1, anchor);
    }
  }

  /** Every candidate reachable without crossing an out-of-window entry is found. */
  lemma {:induction false} FindStepComplete(h: seq<HistoryItem>, step: Step, i: int, anchor: Time)
    requires -1 <= i < |h|
    ensures forall m ::
              0 <= m <= i && Candidate(h[m], step, anchor) &&
              (forall c :: m < c <= i ==> InWindow(h[c], step, anchor))
              ==> m <= FindStep(h, step, i, anchor)
  {
    if i >= 0 {
      var gap := anchor - h[i].t;
      if gap > step.maxGapMs + NoiseBufferMs {
        forall m | 0 <= m <= i && Candidate(h[m], step, anchor)
          && (forall c :: m < c <= i ==> InWindow(h[c], step, anchor))
          ensures false
        {
        }
      } else if !(h[i].poseId == step.poseId && gap <= step.maxGapMs) {
        FindStepComplete(h, step, i - 1, anchor);
      }
    }
  }

  /** Failure rule: the scan never looks behind an entry older than the window. */
  lemma FindStepStops(h: seq<HistoryItem>, step: Step, i: int, anchor: Time, c: int)
    requires 0 <= c <= i < |h|
    requires !InWindow(h[c], step, anchor)
    requires forall m :: c < m <= i ==> !Candidate(h[m], step, anchor)
    ensures FindStep(h, step, i, anchor) == -1
  {
    FindStepFound(h, step, i, anchor);
  }

  /**
   * History indices `idx` realise the first `k` steps: strictly increasing,
   * each entry with its step's pose, each gap to the next step within that
   * step's maximum, and the last one within its maximum of `anchor`.
   */
  ghost predicate Embeds(h: seq<HistoryItem>, steps: seq<Step>, k: nat, idx: seq<int>, anchor: Time) {
    && k <= |steps| && |idx| == k
    && (forall a :: 0 <= a < k ==> 0 <= idx[a] < |h| && h[idx[a]].poseId == steps[a].poseId)
    && (forall a, b :: 0 <= a < b < k ==> idx[a] < idx[b])
    && (forall a :: 0 <= a < k - 1 ==> h[idx[a + 1]].t - h[idx[a]].t <= steps[a].maxGapMs)
    && (k > 0 ==> anchor - h[idx[k - 1]].t <= steps[k - 1].maxGapMs)
  }

  lemma {:induction false} MatchStepsSound(h: seq<HistoryItem>, steps: seq<Step>, k: nat, i: int, anchor: Time)
    returns (idx: seq<int>)
    requires k <= |steps| && -1 <= i < |h|
    requires MatchSteps(h, steps, k, i, anchor)
    ensures Embeds(h, steps, k, idx, anchor)
    ensures forall a :: 0 <= a < k ==> idx[a] <= i
  {
    if k == 0 {
      idx := [];
    } else {
      var j := FindStep(h, steps[k - 1], i, anchor);
      FindStepFound(h, steps[k - 1], i, anchor);
      var prefix := MatchStepsSound(h, steps, k - 1, j - 1, h[j].t);
      idx := prefix + [j];
      assert forall a :: 0 <= a < k - 1 ==> idx[a] == prefix[a];
    }
  }

  /**
   * Soundness of a match: when the matcher accepts a gesture, the log holds
   * its steps in order, with every gap within its step's maximum and the last
   * step within its maximum of `now`.
   */
  lemma MatchSound(h: seq<HistoryItem>, steps: seq<Step>, now: Time) returns (idx: seq<int>)
    requires SequenceMatches(h, steps, now)
    ensures Embeds(h, steps, |steps|, idx, now)
  {
    idx := MatchStepsSound(h, steps, |steps|, |h| - 1, now);
  }

  /** The matcher's nested loops. */
  method MatchSequence(history: seq<HistoryItem>, sequence: seq<Step>, now: Time) returns (valid: bool)
    ensures valid == SequenceMatches(history, sequence, now)
    ensures sequence == [] ==> valid
  {
    var historyIdx := |history| - 1;
    var seqIdx := |sequence| - 1;
    var lastMatchTime := now;
    valid := true;
    while seqIdx >= 0
      invariant -1 <= seqIdx < |sequence|
      invariant -1 <= historyIdx < |history|
      invariant valid
      invariant SequenceMatches(history, sequence, now)
        == MatchSteps(history, sequence, seqIdx + 1, historyIdx, lastMatchTime)
      decreases seqIdx
    {
      var seqStep := sequence[seqIdx];
      var stepFound := false;
      ghost var start, anchor := historyIdx, lastMatchTime;
      while historyIdx >= 0
        invariant -1 <= historyIdx <= start
        invariant !stepFound && lastMatchTime == anchor
        invariant FindStep(history, seqStep, start, anchor) == FindStep(history, seqStep, historyIdx, anchor)
        decreases historyIdx
      {
        var historyItem := history[historyIdx];
        var timeDiff := lastMatchTime - historyItem.t;
        if timeDiff > seqStep.maxGapMs + NoiseBufferMs {
          break;
        }
        if historyItem.poseId == seqStep.poseId {
          if timeDiff <= seqStep.maxGapMs {
            stepFound := true;
            lastMatchTime := historyItem.t;
            historyIdx := historyIdx - 1;
            break;
          }
        }
        historyIdx := historyIdx - 1;
      }
      assert stepFound ==>
        FindStep(history, seqStep, start, anchor) == historyIdx + 1
        && lastMatchTime == history[historyIdx + 1].t;
      assert !stepFound ==> FindStep(history, seqStep, start, anchor) == -1;
      if !stepFound {
        valid := false;
        break;
      }
      seqIdx := seqIdx - 1;
    }
  }

  /** `lastTriggerTime[id] && now - lastTriggerTime[id] < cooldownMs`. */
  predicate CoolingDown(lastTriggerTime: map<string, Time>, g: GestureSpec, now: Time) {
    g.id in lastTriggerTime && lastTriggerTime[g.id] != 0.0 && now - lastTriggerTime[g.id] < g.cooldownMs
  }

  /** A missing or zero trigger time never blocks, nor does a cooldown of 0 once time has moved on. */
  lemma CooldownExemptions(lastTriggerTime: map<string, Time>, g: GestureSpec, now: Time)
    ensures g.id !in lastTriggerTime ==> !CoolingDown(lastTriggerTime, g, now)
    ensures g.id in lastTriggerTime && lastTriggerTime[g.id] == 0.0 ==> !CoolingDown(lastTriggerTime, g, now)
    ensures g.id in lastTriggerTime && g.cooldownMs == 0.0 && now >= lastTriggerTime[g.id] ==>
      !CoolingDown(lastTriggerTime, g, now)
  {
  }

  /** Gesture `k` fires: it is out of its cooldown and its sequence matches. */
  predicate Fires(specs: seq<GestureSpec>, h: seq<HistoryItem>, last: map<string, Time>, now: Time, k: nat)
    requires k < |specs|
  {
    !CoolingDown(last, specs[k], now) && SequenceMatches(h, specs[k].sequence, now)
  }

  /** The outer loop of `recognize`: the first gesture from `from` on that fires. */
  function FirstTriggered(specs: seq<GestureSpec>, h: seq<HistoryItem>, last: map<string, Time>,
                          now: Time, from: nat): (r: Option<nat>)
    requires from <= |specs|
    ensures r.Some? ==> from <= r.value < |specs|
    decreases |specs| - from
  {
    if from == |specs| then None
    else if Fires(specs, h, last, now, from) then Some(from)
    else FirstTriggered(specs, h, last, now, from + 1)
  }

  /** `recognize` picks the first gesture, in registration order, that fires; none iff none fires. */
  lemma {:induction false} FirstTriggeredSpec(specs: seq<GestureSpec>, h: seq<HistoryItem>,
                                              last: map<string, Time>, now: Time, from: nat)
    requires from <= |specs|
    ensures var r := FirstTriggered(specs, h, last, now, from);
      && (r.Some? ==>
            && from <= r.value < |specs| && Fires(specs, h, last, now, r.value)
            && forall j :: from <= j < r.value ==> !Fires(specs, h, last, now, j))
      && (r.None? ==> forall j :: from <= j < |specs| ==> !Fires(specs, h, last, now, j))
    decreases |specs| - from
  {
    if from < |specs| && !Fires(specs, h, last, now, from) {
      FirstTriggeredSpec(specs, h, last, now, from + 1);
    }
  }

  class SequenceRecognizer {
    var specs: seq<GestureSpec>
    var history: seq<HistoryItem>
    var lastTriggerTime: map<string, Time>

    constructor ()
      ensures specs == [] && history == [] && lastTriggerTime == map[]
    {
      specs, history, lastTriggerTime := [], [], map[];
    }

    method RegisterGesture(spec: GestureSpec)
      modifies this
      ensures specs == old(specs) + [spec]
      ensures history == old(history) && lastTriggerTime == old(lastTriggerTime)
    {
      specs := specs + [spec];
    }

    /** Records a pose transition and prunes the log. */
    method Update(now: Time, activePoseId: Option<string>)
      modifies this
      ensures history == Recorded(old(history), now, activePoseId)
      ensures specs == old(specs) && lastTriggerTime == old(lastTriggerTime)
    {
      if Truthy(activePoseId) {
        if |history| == 0 || history[|history| - 1].poseId != activePoseId.value {
          history := history + [HistoryItem(now, activePoseId.value)];
          history := Prune(history, now);
        }
      }
    }

    /**
     * Returns the first registered gesture that fires at `now` and records
     * `now` as its trigger time; the log is never changed, and when nothing
     * fires no state changes.
     */
    method Recognize(now: Time) returns (r: Option<string>)
      modifies this
      ensures specs == old(specs) && history == old(history)
      ensures var w := FirstTriggered(specs, history, old(lastTriggerTime), now, 0);
        && (w.Some? ==>
              r == Some(specs[w.value].id)
              && lastTriggerTime == old(lastTriggerTime)[specs[w.value].id := now])
        && (w.None? ==> r == None && lastTriggerTime == old(lastTriggerTime))
    {
      var i := 0;
      while i < |specs|
        invariant 0 <= i <= |specs|
        invariant specs == old(specs) && history == old(history)
        invariant lastTriggerTime == old(lastTriggerTime)
        invariant FirstTriggered(specs, history, lastTriggerTime, now, 0)
          == FirstTriggered(specs, history, lastTriggerTime, now, i)
      {
        var spec := specs[i];
        if spec.id in lastTriggerTime && lastTriggerTime[spec.id] != 0.0
          && now - lastTriggerTime[spec.id] < spec.cooldownMs
        {
          // still cooling down: skip this gesture
        } else {
          var valid := MatchSequence(history, spec.sequence, now);
          if valid {
            lastTriggerTime := lastTriggerTime[spec.id := now];
            return Some(spec.id);
          }
        }
        i := i + 1;
      }
      return None;
    }
  }
}
