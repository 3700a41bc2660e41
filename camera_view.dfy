/**
 * The per-frame glue of the camera view: the recognizers are loaded from
 * the catalog (poses in catalog order, gestures longest-first), and each new
 * video frame selects the active pose, feeds the sequence recognizer, starts
 * the technique of a triggered gesture (subject to the aura priority
 * window) and stops the aura on a frame whose pose is not the open hand
 * and whose trigger is not the aura gesture. The effect engine
 * is updated on every animation frame.
 */
module CameraView {
  import opened Wrappers
  import opened Types
  import opened OrderedMaps
  import opened Recognition
  import opened Engine
  import opened Catalog
  import opened AuraPoses
  import opened Plugins

  /** Within 2000 ms of the last complex (non-aura) trigger, the aura does not start. */
  const AuraPriorityMs: Time := 2000.0

  // ---------------------------------------------------------------------
  // Gesture ordering
  // ---------------------------------------------------------------------

  function Len(g: GestureSpec): nat {
    |g.sequence|
  }

  /** Sequence lengths never increase along the list. */
  ghost predicate LongestFirst(gs: seq<GestureSpec>) {
    forall i, j :: 0 <= i < j < |gs| ==> Len(gs[i]) >= Len(gs[j])
  }

  /** The gestures of length `n`, in list order. */
  function WithLength(gs: seq<GestureSpec>, n: nat): seq<GestureSpec> {
    if |gs| == 0 then []
    else (if Len(gs[0]) == n then [gs[0]] else []) + WithLength(gs[1..], n)
  }

  /** Places `g` before the first gesture that is not longer than it. */
  function InsertByLength(g: GestureSpec, s: seq<GestureSpec>): seq<GestureSpec> {
    if |s| == 0 then [g]
    else if Len(s[0]) <= Len(g) then [g] + s
    else [s[0]] + InsertByLength(g, s[1..])
  }

  /** The comparator `b.sequence.length - a.sequence.length` under a stable sort. */
  function SortByLength(gs: seq<GestureSpec>): seq<GestureSpec> {
    if |gs| == 0 then [] else InsertByLength(gs[0], SortByLength(gs[1..]))
  }

  lemma {:induction false} InsertPerm(g: GestureSpec, s: seq<GestureSpec>)
    ensures multiset(InsertByLength(g, s)) == multiset(s) + multiset{g}
  {
    if |s| > 0 && Len(s[0]) > Len(g) {
      InsertPerm(g, s[1..]);
      assert s == [s[0]] + s[1..];
    }
  }

  lemma TailLongestFirst(s: seq<GestureSpec>)
    requires LongestFirst(s) && |s| > 0
    ensures LongestFirst(s[1..])
  {
    forall i, j | 0 <= i < j < |s| - 1 ensures Len(s[1..][i]) >= Len(s[1..][j]) {
      assert s[1..][i] == s[i + 1] && s[1..][j] == s[j + 1];
    }
  }

  /** Inserting never produces a gesture longer than the longest of its inputs. */
  lemma {:induction false} InsertBounded(g: GestureSpec, s: seq<GestureSpec>, bound: nat)
    requires Len(g) <= bound && forall j :: 0 <= j < |s| ==> Len(s[j]) <= bound
    ensures forall j :: 0 <= j < |InsertByLength(g, s)| ==> Len(InsertByLength(g, s)[j]) <= bound
  {
    if |s| > 0 && Len(s[0]) > Len(g) {
      InsertBounded(g, s[1..], bound);
      var r := InsertByLength(g, s);
      assert forall j :: 0 < j < |r| ==> r[j] == InsertByLength(g, s[1..])[j - 1];
    }
  }

  lemma ConsLongestFirst(x: GestureSpec, rest: seq<GestureSpec>)
    requires LongestFirst(rest) && forall j :: 0 <= j < |rest| ==> Len(rest[j]) <= Len(x)
    ensures LongestFirst([x] + rest)
  {
    var r := [x] + rest;
    forall i, j | 0 <= i < j < |r| ensures Len(r[i]) >= Len(r[j]) {
      assert r[j] == rest[j - 1];
      if i > 0 { assert r[i] == rest[i - 1]; }
    }
  }

  lemma {:induction false} InsertSorted(g: GestureSpec, s: seq<GestureSpec>)
    requires LongestFirst(s)
    ensures LongestFirst(InsertByLength(g, s))
  {
    if |s| == 0 {
    } else if Len(s[0]) <= Len(g) {
      forall j | 0 <= j < |s| ensures Len(s[j]) <= Len(g) {
        if j > 0 { assert Len(s[0]) >= Len(s[j]); }
      }
      ConsLongestFirst(g, s);
    } else {
      TailLongestFirst(s);
      InsertSorted(g, s[1..]);
      assert forall j :: 0 <= j < |s[1..]| ==> Len(s[1..][j]) <= Len(s[0]) by {
        forall j | 0 <= j < |s[1..]| ensures Len(s[1..][j]) <= Len(s[0]) {
          assert s[1..][j] == s[j + 1];
        }
      }
      InsertBounded(g, s[1..], Len(s[0]));
      ConsLongestFirst(s[0], InsertByLength(g, s[1..]));
    }
  }

  /** Every gesture `g` passes is longer than `g`, so insertion keeps each length's order. */
  lemma {:induction false} InsertWithLength(g: GestureSpec, s: seq<GestureSpec>, n: nat)
    ensures WithLength(InsertByLength(g, s), n) == (if Len(g) == n then [g] else []) + WithLength(s, n)
  {
    var r := InsertByLength(g, s);
    if |s| == 0 {
    } else if Len(s[0]) <= Len(g) {
      assert r[1..] == s;
    } else {
      InsertWithLength(g, s[1..], n);
      assert r[1..] == InsertByLength(g, s[1..]);
    }
  }

  /**
   * The load-time order of the gestures: longest first, the same gestures,
   * and gestures of equal length in their catalog order.
   */
  lemma {:induction false} SortByLengthSpec(gs: seq<GestureSpec>)
    ensures LongestFirst(SortByLength(gs))
    ensures multiset(SortByLength(gs)) == multiset(gs)
    ensures forall n :: WithLength(SortByLength(gs), n) == WithLength(gs, n)
  {
    if |gs| > 0 {
      var rest := SortByLength(gs[1..]);
      SortByLengthSpec(gs[1..]);
      InsertSorted(gs[0], rest);
      InsertPerm(gs[0], rest);
      forall n ensures WithLength(SortByLength(gs), n) == WithLength(gs, n) {
        InsertWithLength(gs[0], rest, n);
      }
      assert gs == [gs[0]] + gs[1..];
    }
  }

  // ---------------------------------------------------------------------
  // Active pose
  // ---------------------------------------------------------------------

  /** The pose of the last hand whose classification succeeds; none if none does. */
  function LastRecognized(specs: seq<PoseSpec>, hands: seq<HandFeatures>): Option<string> {
    if |hands| == 0 then None
    else match Classify(specs, hands[|hands| - 1])
      case Some(res) => Some(res.poseId)
      case None => LastRecognized(specs, hands[..|hands| - 1])
  }

  /**
   * A selected pose comes from some hand after which every hand fails to
   * classify; nothing is selected exactly when every hand fails.
   */
  lemma {:induction false} LastRecognizedSpec(specs: seq<PoseSpec>, hands: seq<HandFeatures>) returns (k: int)
    ensures LastRecognized(specs, hands).Some? ==>
      && 0 <= k < |hands| && Classify(specs, hands[k]).Some?
      && LastRecognized(specs, hands) == Some(Classify(specs, hands[k]).value.poseId)
      && forall j :: k < j < |hands| ==> Classify(specs, hands[j]).None?
    ensures LastRecognized(specs, hands).None? <==>
      forall j :: 0 <= j < |hands| ==> Classify(specs, hands[j]).None?
  {
    k := -1;
    if |hands| > 0 {
      var n := |hands| - 1;
      var init := hands[..n];
      if Classify(specs, hands[n]).Some? {
        k := n;
      } else {
        k := LastRecognizedSpec(specs, init);
        assert forall j :: 0 <= j < n ==> hands[j] == init[j];
      }
    }
  }

  /** The `forEach` over the frame's hands: the last success overwrites earlier ones. */
  method SelectActivePose(recognizer: PoseRecognizer, hands: seq<HandFeatures>) returns (active: Option<string>)
    ensures active == LastRecognized(recognizer.specs, hands)
  {
    active := None;
    for i := 0 to |hands|
      invariant active == LastRecognized(recognizer.specs, hands[..i])
    {
      var res := recognizer.Recognize(hands[i]);
      assert hands[..i + 1][..i] == hands[..i];
      if res.Some? {
        active := Some(res.value.poseId);
      }
    }
    assert hands[..|hands|] == hands;
  }

  // ---------------------------------------------------------------------
  // Technique arbitration
  // ---------------------------------------------------------------------

  /** `Array.prototype.findIndex`: the first technique satisfying `p`, or -1. */
  function FindIndex(ts: seq<Technique>, p: Technique -> bool): (i: int)
    ensures -1 <= i < |ts|
    ensures i >= 0 ==> p(ts[i]) && forall j :: 0 <= j < i ==> !p(ts[j])
    ensures i == -1 <==> forall j :: 0 <= j < |ts| ==> !p(ts[j])
  {
    if |ts| == 0 then -1
    else if p(ts[0]) then 0
    else
      var r := FindIndex(ts[1..], p);
      assert forall j :: 1 <= j < |ts| ==> ts[j] == ts[1..][j - 1];
      if r == -1 then -1 else r + 1
  }

  /** `Array.prototype.find`. */
  function Find(ts: seq<Technique>, p: Technique -> bool): Option<Technique> {
    var i := FindIndex(ts, p);
    if i < 0 then None else Some(ts[i])
  }

  /** The technique a gesture starts: the first one in catalog order linked to it. */
  function TechniqueFor(ts: seq<Technique>, gestureId: string): (r: Option<Technique>)
    ensures r.Some? ==> r.value in ts && r.value.gestureId == gestureId
    ensures r.None? <==> forall j :: 0 <= j < |ts| ==> ts[j].gestureId != gestureId
    ensures r.Some? ==> exists k :: 0 <= k < |ts| && ts[k] == r.value
                                    && forall j :: 0 <= j < k ==> ts[j].gestureId != gestureId
  {
    Find(ts, (t: Technique) => t.gestureId == gestureId)
  }

  /** The aura technique's catalog entry, if registered. */
  function AuraEntry(ts: seq<Technique>): (r: Option<Technique>)
    ensures r.Some? ==> r.value in ts && r.value.id == AuraTechniqueId
    ensures r.None? <==> forall j :: 0 <= j < |ts| ==> ts[j].id != AuraTechniqueId
  {
    Find(ts, (t: Technique) => t.id == AuraTechniqueId)
  }

  /**
   * The technique a frame tries to start: only for a truthy triggered
   * gesture, the first technique linked to it, and not the aura within
   * 2000 ms of the last complex trigger.
   */
  function Launched(triggered: Option<string>, ts: seq<Technique>, now: Time, lastComplexTime: Time): (start: Option<Technique>)
    ensures start.Some? ==> Truthy(triggered) && start == TechniqueFor(ts, triggered.value)
    ensures Truthy(triggered) && TechniqueFor(ts, triggered.value).Some? && start.None? ==>
      TechniqueFor(ts, triggered.value).value.id == AuraTechniqueId && now - lastComplexTime < AuraPriorityMs
    ensures start.Some? && start.value.id == AuraTechniqueId ==> now - lastComplexTime >= AuraPriorityMs
  {
    if !Truthy(triggered) then None
    else
      match TechniqueFor(ts, triggered.value)
      case None => None
      case Some(t) => if t.id == AuraTechniqueId && now - lastComplexTime < AuraPriorityMs then None else Some(t)
  }

  /** The time of the last complex trigger after a frame: every non-aura start attempt marks it. */
  function NextComplexTime(start: Option<Technique>, now: Time, lastComplexTime: Time): Time {
    if start.Some? && start.value.id != AuraTechniqueId then now else lastComplexTime
  }

  /** The auto-stop rule: the hand is not open, the aura trigger did not fire, and an aura is registered. */
  predicate StopsAura(activePose: Option<string>, triggered: Option<string>, ts: seq<Technique>) {
    activePose != Some(OpenHandPoseId) && triggered != Some(AuraGestureId) && AuraEntry(ts).Some?
  }

  /**
   * A frame that starts the aura never stops it again, provided every aura
   * entry is linked to the aura trigger gesture, as the aura plugin registers it.
   */
  lemma AuraStartSurvivesFrame(activePose: Option<string>, triggered: Option<string>, ts: seq<Technique>,
                               now: Time, lastComplexTime: Time)
    requires forall j :: 0 <= j < |ts| && ts[j].id == AuraTechniqueId ==> ts[j].gestureId == AuraGestureId
    ensures var start := Launched(triggered, ts, now, lastComplexTime);
      start.Some? && start.value.id == AuraTechniqueId ==> !StopsAura(activePose, triggered, ts)
  {
  }

  /** The gesture a frame reports: the first, in recognizer order, that completes off cooldown. */
  function Triggered(gestures: seq<GestureSpec>, h: seq<HistoryItem>, last: map<string, Time>, now: Time): Option<string> {
    var w := FirstTriggered(gestures, h, last, now, 0);
    if w.Some? then Some(gestures[w.value].id) else None
  }

  /** The cooldown stamps after a frame: the reported gesture's is moved to `now`. */
  function TriggerTimes(gestures: seq<GestureSpec>, h: seq<HistoryItem>, last: map<string, Time>, now: Time): map<string, Time> {
    var w := FirstTriggered(gestures, h, last, now, 0);
    if w.Some? then last[gestures[w.value].id := now] else last
  }

  /** The start half of a frame on the engine: no launched technique changes nothing, otherwise one `startTechnique`. */
  ghost predicate LaunchStep(e0: Snapshot, start: Option<Technique>, now: Time, e1: Snapshot) {
    if start.None? then e1 == e0 else StartStep(e0, start.value, now, e1)
  }

  /** The auto-stop half of a frame on the engine: one `stopTechnique` of the aura when the rule applies. */
  ghost predicate AutoStopStep(e0: Snapshot, stop: bool, now: Time, e1: Snapshot) {
    if stop then StopStep(e0, AuraTechniqueId, now, e1) else e1 == e0
  }

  /** What a frame reads and writes: the recognizer's history and stamps, the complex time and the engine. */
  datatype LoopState = LoopState(history: seq<HistoryItem>, lastTriggerTime: map<string, Time>,
                                 lastComplexTime: Time, engine: Snapshot)

  /**
   * One new video frame takes `s0` to `s1`, through the engine state `mid`
   * between its start half and its auto-stop half: the active pose of
   * `hands` is recorded, the first completed gesture is reported and
   * stamped, its technique is launched (unless held back by the aura
   * priority window), and then the aura is stopped if the rule applies.
   */
  ghost predicate FrameStep(poses: seq<PoseSpec>, gestures: seq<GestureSpec>, ts: seq<Technique>,
                            hands: seq<HandFeatures>, now: Time, s0: LoopState, mid: Snapshot, s1: LoopState)
  {
    var active := LastRecognized(poses, hands);
    var h := Recorded(s0.history, now, active);
    var triggered := Triggered(gestures, h, s0.lastTriggerTime, now);
    var start := Launched(triggered, ts, now, s0.lastComplexTime);
    && s1.history == h
    && s1.lastTriggerTime == TriggerTimes(gestures, h, s0.lastTriggerTime, now)
    && s1.lastComplexTime == NextComplexTime(start, now, s0.lastComplexTime)
    && LaunchStep(s0.engine, start, now, mid)
    && AutoStopStep(mid, StopsAura(active, triggered, ts), now, s1.engine)
  }

  /** The frame from `s0` to `s1` launches a technique and the engine accepts it. */
  ghost predicate FrameStarts(gestures: seq<GestureSpec>, ts: seq<Technique>, now: Time, s0: LoopState, s1: LoopState) {
    var start := Launched(Triggered(gestures, s1.history, s0.lastTriggerTime, now), ts, now, s0.lastComplexTime);
    start.Some? && Accepts(s0.engine, start.value, now)
  }

  /**
   * What a frame does to the techniques: the stop rule leaves the aura
   * inactive; an accepted start leaves its technique active unless it is
   * the aura and the stop rule applies; the start stamp moves only for an
   * accepted non-aura start; no other technique's status changes.
   */
  lemma FrameOutcome(poses: seq<PoseSpec>, gestures: seq<GestureSpec>, ts: seq<Technique>,
                     hands: seq<HandFeatures>, now: Time, s0: LoopState, mid: Snapshot, s1: LoopState)
    requires FrameStep(poses, gestures, ts, hands, now, s0, mid, s1)
    ensures var active := LastRecognized(poses, hands);
      var triggered := Triggered(gestures, s1.history, s0.lastTriggerTime, now);
      var start := Launched(triggered, ts, now, s0.lastComplexTime);
      var accepted := start.Some? && Accepts(s0.engine, start.value, now);
      && (StopsAura(active, triggered, ts) ==> !Has(s1.engine.active, AuraTechniqueId))
      && (accepted && (start.value.id != AuraTechniqueId || !StopsAura(active, triggered, ts)) ==>
            Has(s1.engine.active, start.value.id))
      && (forall id :: id != AuraTechniqueId && (start.None? || id != start.value.id) ==>
            (Has(s1.engine.active, id) <==> Has(s0.engine.active, id)))
      && s1.engine.lastStartTime == (if accepted && start.value.id != AuraTechniqueId then now else s0.engine.lastStartTime)
  {
    var active := LastRecognized(poses, hands);
    var triggered := Triggered(gestures, s1.history, s0.lastTriggerTime, now);
    var start := Launched(triggered, ts, now, s0.lastComplexTime);
    if start.Some? {
      StartStepActive(s0.engine, start.value, now, mid);
    }
    if StopsAura(active, triggered, ts) {
      StopStepInactive(mid, AuraTechniqueId, now, s1.engine);
    }
  }

  // ---------------------------------------------------------------------
  // The frame loop
  // ---------------------------------------------------------------------

  /** `forEach(p => registerPose(p))`. */
  method LoadPoses(pr: PoseRecognizer, poses: seq<PoseSpec>)
    modifies pr
    ensures pr.specs == old(pr.specs) + poses
  {
    for i := 0 to |poses|
      invariant pr.specs == old(pr.specs) + poses[..i]
    {
      assert poses[..i + 1] == poses[..i] + [poses[i]];
      pr.RegisterPose(poses[i]);
    }
    assert poses[..|poses|] == poses;
  }

  /** `forEach(g => registerGesture(g))`. */
  method LoadGestures(sr: SequenceRecognizer, gestures: seq<GestureSpec>)
    modifies sr
    ensures sr.specs == old(sr.specs) + gestures
    ensures sr.history == old(sr.history) && sr.lastTriggerTime == old(sr.lastTriggerTime)
  {
    for i := 0 to |gestures|
      invariant sr.specs == old(sr.specs) + gestures[..i]
      invariant sr.history == old(sr.history) && sr.lastTriggerTime == old(sr.lastTriggerTime)
    {
      assert gestures[..i + 1] == gestures[..i] + [gestures[i]];
      sr.RegisterGesture(gestures[i]);
    }
    assert gestures[..|gestures|] == gestures;
  }

  class FrameLoop {
    const registry: Registry
    const poseRecognizer: PoseRecognizer
    const seqRecognizer: SequenceRecognizer
    const engine: FXEngine
    /** The video time of the last frame processed; -1 before the first. */
    var lastVideoTime: real
    /** When a non-aura technique was last triggered; 0 at first. */
    var lastComplexTime: Time

    ghost predicate Valid()
      reads this, registry, engine
    {
      registry.Valid() && engine.Valid()
    }

    /** Loads the recognizers from the catalog: poses in catalog order, gestures longest-first. */
    constructor (catalog: Registry)
      requires catalog.Valid()
      ensures Valid() && registry == catalog
      ensures poseRecognizer.specs == catalog.AllPoses()
      ensures seqRecognizer.specs == SortByLength(catalog.AllGestures())
      ensures seqRecognizer.history == [] && seqRecognizer.lastTriggerTime == map[]
      ensures engine.activeTechniques == [] && engine.techniqueState == [] && engine.trace == []
      ensures engine.lastStartTime == 0.0 && engine.lastStartedName == ""
      ensures lastVideoTime == -1.0 && lastComplexTime == 0.0
      ensures fresh(poseRecognizer) && fresh(seqRecognizer) && fresh(engine)
    {
      var pr := new PoseRecognizer();
      LoadPoses(pr, catalog.AllPoses());
      var sr := new SequenceRecognizer();
      LoadGestures(sr, SortByLength(catalog.AllGestures()));
      registry := catalog;
      poseRecognizer := pr;
      seqRecognizer := sr;
      engine := new FXEngine();
      lastVideoTime := -1.0;
      lastComplexTime := 0.0;
    }

    /** The loop's state, as a value. */
    ghost function Observed(): LoopState
      reads this, seqRecognizer, engine
    {
      LoopState(seqRecognizer.history, seqRecognizer.lastTriggerTime, lastComplexTime, engine.State())
    }

    /**
     * Recognition on a new frame: picks the active pose, records it in the
     * history at `now` and then asks for a gesture at the same `now`.
     */
    method Sense(now: Time, hands: seq<HandFeatures>) returns (active: Option<string>, triggered: Option<string>)
      modifies seqRecognizer
      ensures active == LastRecognized(poseRecognizer.specs, hands)
      ensures seqRecognizer.specs == old(seqRecognizer.specs)
      ensures seqRecognizer.history == Recorded(old(seqRecognizer.history), now, active)
      ensures triggered == Triggered(seqRecognizer.specs, seqRecognizer.history, old(seqRecognizer.lastTriggerTime), now)
      ensures seqRecognizer.lastTriggerTime
        == TriggerTimes(seqRecognizer.specs, seqRecognizer.history, old(seqRecognizer.lastTriggerTime), now)
    {
      active := SelectActivePose(poseRecognizer, hands);
      seqRecognizer.Update(now, active);
      triggered := seqRecognizer.Recognize(now);
    }

    /**
     * The start half of a frame: marks the complex time for a non-aura
     * technique, then asks the engine, which may still refuse.
     */
    method Launch(triggered: Option<string>, ts: seq<Technique>, now: Time) returns (started: bool)
      requires engine.Valid()
      modifies this, engine
      ensures engine.Valid()
      ensures lastVideoTime == old(lastVideoTime)
      ensures var start := Launched(triggered, ts, now, old(lastComplexTime));
        && lastComplexTime == NextComplexTime(start, now, old(lastComplexTime))
        && started == (start.Some? && Accepts(old(engine.State()), start.value, now))
        && LaunchStep(old(engine.State()), start, now, engine.State())
      ensures started ==> fresh(engine.techniqueState[|engine.techniqueState| - 1].value)
    {
      started := false;
      if Truthy(triggered) {
        var tech := TechniqueFor(ts, triggered.value);
        if tech.Some? {
          var isAura := tech.value.id == AuraTechniqueId;
          if isAura && now - lastComplexTime < AuraPriorityMs {
            // the aura is held back after a complex gesture
          } else {
            assert tech == Launched(triggered, ts, now, lastComplexTime);
            if !isAura {
              lastComplexTime := now;
            }
            started := engine.StartTechnique(tech.value, now);
          }
        }
      }
    }

    /** The auto-stop half of a frame. */
    method AutoStop(active: Option<string>, triggered: Option<string>, ts: seq<Technique>, now: Time)
      requires engine.Valid()
      modifies engine
      ensures engine.Valid()
      ensures AutoStopStep(old(engine.State()), StopsAura(active, triggered, ts), now, engine.State())
    {
      if active != Some(OpenHandPoseId) && triggered != Some(AuraGestureId) {
        var auraTech := AuraEntry(ts);
        if auraTech.Some? {
          engine.StopTechnique(auraTech.value.id, now);
        }
      }
    }

    /**
     * Acts on a frame's recognition: the start half, reaching the engine
     * state `mid`, then the auto-stop half.
     */
    method Act(active: Option<string>, triggered: Option<string>, now: Time) returns (started: bool, ghost mid: Snapshot)
      requires Valid()
      modifies this, engine
      ensures Valid()
      ensures lastVideoTime == old(lastVideoTime)
      ensures var ts := registry.AllTechniques();
        var start := Launched(triggered, ts, now, old(lastComplexTime));
        && lastComplexTime == NextComplexTime(start, now, old(lastComplexTime))
        && started == (start.Some? && Accepts(old(engine.State()), start.value, now))
        && LaunchStep(old(engine.State()), start, now, mid)
        && AutoStopStep(mid, StopsAura(active, triggered, ts), now, engine.State())
      ensures started ==> |mid.states| > 0 && fresh(mid.states[|mid.states| - 1].value)
    {
      var techniques := registry.AllTechniques();
      started := Launch(triggered, techniques, now);
      mid := engine.State();
      AutoStop(active, triggered, techniques, now);
    }

    /**
     * Recognition then arbitration for one new video frame (the body of the
     * `currentTime` guard).
     */
    method ProcessFrame(now: Time, hands: seq<HandFeatures>)
      returns (active: Option<string>, triggered: Option<string>, started: bool, ghost mid: Snapshot)
      requires Valid()
      modifies this, seqRecognizer, engine
      ensures Valid()
      ensures lastVideoTime == old(lastVideoTime)
      ensures seqRecognizer.specs == old(seqRecognizer.specs)
      ensures active == LastRecognized(poseRecognizer.specs, hands)
      ensures triggered == Triggered(seqRecognizer.specs, seqRecognizer.history, old(seqRecognizer.lastTriggerTime), now)
      ensures var start := Launched(triggered, registry.AllTechniques(), now, old(lastComplexTime));
        started == (start.Some? && Accepts(old(engine.State()), start.value, now))
      ensures FrameStep(poseRecognizer.specs, seqRecognizer.specs, registry.AllTechniques(), hands, now,
                        old(Observed()), mid, Observed())
      ensures started ==> |mid.states| > 0 && fresh(mid.states[|mid.states| - 1].value)
    {
      active, triggered := Sense(now, hands);
      started, mid := Act(active, triggered, now);
    }

    /** The `currentTime` guard: recognition runs once per new video time. */
    method Detect(videoTime: real, now: Time, hands: seq<HandFeatures>) returns (ghost mid: Snapshot)
      requires Valid()
      modifies this, seqRecognizer, engine
      ensures Valid()
      ensures lastVideoTime == videoTime
      ensures seqRecognizer.specs == old(seqRecognizer.specs)
      ensures videoTime == old(lastVideoTime) ==>
        lastComplexTime == old(lastComplexTime) && unchanged(seqRecognizer) && unchanged(engine)
      ensures videoTime != old(lastVideoTime) ==>
        FrameStep(poseRecognizer.specs, seqRecognizer.specs, registry.AllTechniques(), hands, now,
                  old(Observed()), mid, Observed())
      ensures videoTime != old(lastVideoTime)
              && FrameStarts(seqRecognizer.specs, registry.AllTechniques(), now, old(Observed()), Observed()) ==>
        |mid.states| > 0 && fresh(mid.states[|mid.states| - 1].value)
    {
      mid := engine.State();
      if videoTime != lastVideoTime {
        lastVideoTime := videoTime;
        var _, _, _, m := ProcessFrame(now, hands);
        mid := m;
      }
    }

    /** The engine's update pass, which ends every ready frame's trace. */
    method Render(now: Time)
      requires Valid()
      modifies engine
      ensures Valid()
      ensures engine.State() == old(engine.State()).(trace := old(engine.trace) + engine.UpdatePass(now))
    {
      engine.Update(now);
    }

    /**
     * A frame once the video is ready. A new video time runs recognition and
     * arbitration once, reaching `detected` (with `mid` between its halves);
     * a repeated one leaves `detected` as the old state. The engine's update
     * pass runs last.
     */
    method ReadyFrame(videoTime: real, now: Time, hands: seq<HandFeatures>)
      returns (ghost mid: Snapshot, ghost detected: LoopState)
      requires Valid()
      modifies this, seqRecognizer, engine
      ensures Valid()
      ensures lastVideoTime == videoTime && seqRecognizer.specs == old(seqRecognizer.specs)
      ensures videoTime == old(lastVideoTime) ==> detected == old(Observed())
      ensures videoTime != old(lastVideoTime) ==>
        FrameStep(poseRecognizer.specs, seqRecognizer.specs, registry.AllTechniques(), hands, now,
                  old(Observed()), mid, detected)
      ensures videoTime != old(lastVideoTime)
              && FrameStarts(seqRecognizer.specs, registry.AllTechniques(), now, old(Observed()), detected) ==>
        |mid.states| > 0 && fresh(mid.states[|mid.states| - 1].value)
      ensures Observed() == detected.(engine := detected.engine.(trace := detected.engine.trace + engine.UpdatePass(now)))
    {
      mid := Detect(videoTime, now, hands);
      detected := Observed();
      Render(now);
    }

    /** One animation frame: nothing happens until the video is ready. */
    method Tick(ready: bool, videoTime: real, now: Time, hands: seq<HandFeatures>)
      returns (ghost mid: Snapshot, ghost detected: LoopState)
      requires Valid()
      modifies this, seqRecognizer, engine
      ensures Valid()
      ensures !ready ==> unchanged(this) && unchanged(seqRecognizer) && unchanged(engine)
      ensures ready ==> lastVideoTime == videoTime && seqRecognizer.specs == old(seqRecognizer.specs)
      ensures ready && videoTime == old(lastVideoTime) ==> detected == old(Observed())
      ensures ready && videoTime != old(lastVideoTime) ==>
        FrameStep(poseRecognizer.specs, seqRecognizer.specs, registry.AllTechniques(), hands, now,
                  old(Observed()), mid, detected)
      ensures ready && videoTime != old(lastVideoTime)
              && FrameStarts(seqRecognizer.specs, registry.AllTechniques(), now, old(Observed()), detected) ==>
        |mid.states| > 0 && fresh(mid.states[|mid.states| - 1].value)
      ensures ready ==>
        Observed() == detected.(engine := detected.engine.(trace := detected.engine.trace + engine.UpdatePass(now)))
    {
      mid := engine.State();
      detected := Observed();
      if ready {
        mid, detected := ReadyFrame(videoTime, now, hands);
      }
    }
  }
}
