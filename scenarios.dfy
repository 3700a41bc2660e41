/**
 * Concrete runs of the pipeline with the shipped plugins: which gesture a
 * given pose history triggers, how the catalog's gestures are ordered, how
 * poses are classified, and a session against the effect engine.
 */
module Scenarios {
  import opened Wrappers
  import opened Types
  import opened OrderedMaps
  import opened Recognition
  import opened Engine
  import opened SlashPoses
  import opened AuraPoses
  import opened Plugins
  import opened CameraView

  /** The gestures in load order: already longest-first, so sorting keeps them. */
  const LoadedGestures := [SlashGesture, FireballGesture, OpenHandGesture]

  lemma LoadOrder()
    ensures SortByLength([SlashGesture, FireballGesture, OpenHandGesture]) == LoadedGestures
  {
    assert SortByLength([OpenHandGesture]) == [OpenHandGesture];
    assert [OpenHandGesture][1..] == [];
    assert [FireballGesture, OpenHandGesture][1..] == [OpenHandGesture];
    assert SortByLength([FireballGesture, OpenHandGesture]) == [FireballGesture, OpenHandGesture];
    assert [SlashGesture, FireballGesture, OpenHandGesture][1..] == [FireballGesture, OpenHandGesture];
  }

  /** A fist followed 500 ms later by two fingers is a slash at the second pose's time. */
  lemma SlashAfterHalfSecond(t: Time)
    ensures SequenceMatches([HistoryItem(t, FistPoseId), HistoryItem(t + 500.0, TwoFingersPoseId)],
                            SlashGesture.sequence, t + 500.0)
  {
    var h := [HistoryItem(t, FistPoseId), HistoryItem(t + 500.0, TwoFingersPoseId)];
    var steps := SlashGesture.sequence;
    assert FindStep(h, steps[1], 1, t + 500.0) == 1;
    assert FindStep(h, steps[0], 0, t) == 0;
    assert MatchSteps(h, steps, 0, -1, t);
  }

  /** 2600 ms between fist and two fingers exceeds the 2000 ms gap plus the 500 ms buffer. */
  lemma SlashTooSlow()
    ensures !SequenceMatches([HistoryItem(0.0, FistPoseId), HistoryItem(2600.0, TwoFingersPoseId)],
                             SlashGesture.sequence, 2600.0)
  {
    var h := [HistoryItem(0.0, FistPoseId), HistoryItem(2600.0, TwoFingersPoseId)];
    var steps := SlashGesture.sequence;
    assert FindStep(h, steps[1], 1, 2600.0) == 1;
    assert FindStep(h, steps[0], 0, 2600.0) == -1;
    assert !MatchSteps(h, steps, 1, 0, 2600.0);
  }

  /**
   * A pinch then an open hand also satisfies the one-step aura trigger, but
   * the fireball is registered first and wins.
   */
  lemma FireballBeforeAura()
    ensures var h := [HistoryItem(1000.0, PinchPoseId), HistoryItem(1500.0, OpenHandPoseId)];
      && SequenceMatches(h, OpenHandGesture.sequence, 1500.0)
      && FirstTriggered(LoadedGestures, h, map[], 1500.0, 0) == Some(1)
      && LoadedGestures[1].id == FireballGestureId
  {
    var h := [HistoryItem(1000.0, PinchPoseId), HistoryItem(1500.0, OpenHandPoseId)];
    assert FindStep(h, OpenHandGesture.sequence[0], 1, 1500.0) == 1;
    assert MatchSteps(h, OpenHandGesture.sequence, 0, 0, 1500.0);
    var slash := SlashGesture.sequence;
    assert FindStep(h, slash[1], 1, 1500.0) == -1 by {
      assert FindStep(h, slash[1], 0, 1500.0) == -1;
    }
    assert !Fires(LoadedGestures, h, map[], 1500.0, 0);
    var fire := FireballGesture.sequence;
    assert FindStep(h, fire[1], 1, 1500.0) == 1;
    assert FindStep(h, fire[0], 0, 1500.0) == 0;
    assert MatchSteps(h, fire, 0, -1, 1000.0);
    assert Fires(LoadedGestures, h, map[], 1500.0, 1);
  }

  /**
   * The aura outlives the open hand: 300 ms after the hand closes into a
   * fist, the one-step aura trigger still finds the open hand within its
   * 1000 ms gap (plus the 500 ms buffer), so the frame reports the aura
   * gesture, the stop rule does not apply, and the aura is launched again.
   */
  lemma AuraLingers()
    ensures var h := [HistoryItem(3000.0, OpenHandPoseId), HistoryItem(3300.0, FistPoseId)];
      && FirstTriggered(LoadedGestures, h, map[], 3400.0, 0) == Some(2)
      && Triggered(LoadedGestures, h, map[], 3400.0) == Some(AuraGestureId)
      && !StopsAura(Some(FistPoseId), Some(AuraGestureId), LoadedTechniques)
      && Launched(Some(AuraGestureId), LoadedTechniques, 3400.0, 0.0) == Some(AuraTechnique)
  {
    var h := [HistoryItem(3000.0, OpenHandPoseId), HistoryItem(3300.0, FistPoseId)];
    var slash := SlashGesture.sequence;
    assert FindStep(h, slash[1], 1, 3400.0) == -1 by {
      assert FindStep(h, slash[1], 0, 3400.0) == -1;
    }
    assert !Fires(LoadedGestures, h, map[], 3400.0, 0);
    var fire := FireballGesture.sequence;
    assert FindStep(h, fire[1], 1, 3400.0) == 0;
    assert FindStep(h, fire[0], -1, 3000.0) == -1;
    assert !MatchSteps(h, fire, 1, -1, 3000.0);
    assert !Fires(LoadedGestures, h, map[], 3400.0, 1);
    var open := OpenHandGesture.sequence;
    assert FindStep(h, open[0], 1, 3400.0) == 0;
    assert MatchSteps(h, open, 0, -1, 3000.0);
    assert Fires(LoadedGestures, h, map[], 3400.0, 2);
    assert FirstTriggered(LoadedGestures, h, map[], 3400.0, 2) == Some(2);
    assert FirstTriggered(LoadedGestures, h, map[], 3400.0, 1) == Some(2);
    assert LoadedTechniques[2].gestureId == AuraGestureId;
    assert TechniqueFor(LoadedTechniques, AuraGestureId) == Some(AuraTechnique);
    assert AuraEntry(LoadedTechniques) == Some(AuraTechnique);
  }

  /** A slash at 3000 blocks a second slash at 4000; the aura trigger, with no cooldown, fires again. */
  lemma SlashCoolingDown()
    ensures CoolingDown(map[SlashGestureId := 3000.0], SlashGesture, 4000.0)
    ensures !CoolingDown(map[AuraGestureId := 3000.0], OpenHandGesture, 3000.0)
    ensures var h := [HistoryItem(2500.0, FistPoseId), HistoryItem(3000.0, TwoFingersPoseId)];
      FirstTriggered(LoadedGestures, h, map[SlashGestureId := 3000.0], 4000.0, 0) == None
  {
    var h := [HistoryItem(2500.0, FistPoseId), HistoryItem(3000.0, TwoFingersPoseId)];
    var last := map[SlashGestureId := 3000.0];
    assert !Fires(LoadedGestures, h, last, 4000.0, 0);
    var fire := FireballGesture.sequence;
    assert FindStep(h, fire[1], 1, 4000.0) == -1 by {
      assert FindStep(h, fire[1], 0, 4000.0) == -1;
    }
    assert !Fires(LoadedGestures, h, last, 4000.0, 1);
    var open := OpenHandGesture.sequence;
    assert FindStep(h, open[0], 1, 4000.0) == -1;
    assert !Fires(LoadedGestures, h, last, 4000.0, 2);
    assert FirstTriggered(LoadedGestures, h, last, 4000.0, 2) == None;
    assert FirstTriggered(LoadedGestures, h, last, 4000.0, 1) == None;
  }

  /** The catalog's techniques in registration order. */
  const LoadedTechniques := [SlashTechnique, FireballTechnique, AuraTechnique]

  /**
   * The aura trigger is held back for 2000 ms after a complex trigger (and,
   * since the mark starts at 0, during the first 2000 ms); a slash is
   * attempted regardless and marks the time; a triggered aura is not
   * stopped in the same frame, while a frame without the open hand stops it.
   */
  lemma AuraPriority()
    ensures Launched(Some(AuraGestureId), LoadedTechniques, 1500.0, 0.0) == None
    ensures Launched(Some(AuraGestureId), LoadedTechniques, 4000.0, 3000.0) == None
    ensures Launched(Some(AuraGestureId), LoadedTechniques, 5000.0, 3000.0) == Some(AuraTechnique)
    ensures Launched(Some(SlashGestureId), LoadedTechniques, 3100.0, 3000.0) == Some(SlashTechnique)
    ensures NextComplexTime(Some(SlashTechnique), 3100.0, 3000.0) == 3100.0
    ensures !StopsAura(None, Some(AuraGestureId), LoadedTechniques)
    ensures StopsAura(Some(FistPoseId), None, LoadedTechniques)
    ensures !StopsAura(Some(OpenHandPoseId), None, LoadedTechniques)
  {
    assert LoadedTechniques[2].gestureId == AuraGestureId;
    assert LoadedTechniques[0].gestureId == SlashGestureId;
    assert LoadedTechniques[2].id == AuraTechniqueId;
    assert TechniqueFor(LoadedTechniques, AuraGestureId) == Some(AuraTechnique);
    assert TechniqueFor(LoadedTechniques, SlashGestureId) == Some(SlashTechnique);
    assert AuraEntry(LoadedTechniques) == Some(AuraTechnique);
  }

  /** The catalog's poses in registration order. */
  const LoadedPoses := [FistPose, TwoFingersPose, PinchPose, OpenHandPose]

  function Hand(fs: FingerStates, pinch: real): HandFeatures {
    HandFeatures("0", Right, fs, pinch)
  }

  /** A closed hand is a fist, with full score; the thumb may be open. */
  lemma FistClassified(pinch: real)
    requires pinch <= 1.0
    ensures Classify(LoadedPoses, Hand(FingerStates(Open, Closed, Closed, Closed, Closed), pinch))
         == Some(PoseResult(FistPoseId, 1.0))
  {
    var hand := Hand(FingerStates(Open, Closed, Closed, Closed, Closed), pinch);
    var best := Best(1.0, Some(FistPoseId));
    assert [FistPose][..0] == [];
    assert Scan([FistPose], hand) == best;
    assert [FistPose, TwoFingersPose][..1] == [FistPose];
    assert TwoFingersScore(hand) == 0.5;
    assert Scan([FistPose, TwoFingersPose], hand) == best;
    assert [FistPose, TwoFingersPose, PinchPose][..2] == [FistPose, TwoFingersPose];
    assert Scan([FistPose, TwoFingersPose, PinchPose], hand) == best;
    assert LoadedPoses[..3] == [FistPose, TwoFingersPose, PinchPose];
    assert OpenHandScore(hand) == 0.0;
    assert Scan(LoadedPoses, hand) == best;
  }

  /**
   * An open hand whose thumb and index tips touch scores 1 for both the
   * pinch and the open hand; the tie goes to the pinch, registered first.
   */
  lemma TieGoesToEarlierPose()
    ensures Classify(LoadedPoses, Hand(FingerStates(Open, Open, Open, Open, Open), 1.0))
         == Some(PoseResult(PinchPoseId, 1.0))
  {
    var hand := Hand(FingerStates(Open, Open, Open, Open, Open), 1.0);
    assert [FistPose][..0] == [];
    assert FistScore(hand) == 0.0;
    assert Scan([FistPose], hand) == Best(0.0, None);
    assert [FistPose, TwoFingersPose][..1] == [FistPose];
    assert TwoFingersScore(hand) == 0.5;
    assert Scan([FistPose, TwoFingersPose], hand) == Best(0.0, None);
    assert [FistPose, TwoFingersPose, PinchPose][..2] == [FistPose, TwoFingersPose];
    assert Scan([FistPose, TwoFingersPose, PinchPose], hand) == Best(1.0, Some(PinchPoseId));
    assert LoadedPoses[..3] == [FistPose, TwoFingersPose, PinchPose];
    assert OpenHandScore(hand) == 1.0;
    assert Scan(LoadedPoses, hand) == Best(1.0, Some(PinchPoseId));
  }

  /**
   * On a fresh engine the cooldown counts from time 0, so a start at 1000
   * is refused; the aura, exempt, starts at the same moment.
   */
  method ColdStart() returns (slash: bool, aura: bool)
    ensures !slash && aura
  {
    var e := new FXEngine();
    slash := e.StartTechnique(SlashTechnique, 1000.0);
    aura := e.StartTechnique(AuraTechnique, 1000.0);
  }

  /** Starts 800 ms apart: the second is refused; 1600 ms apart: accepted. */
  method GlobalCooldown() returns (first: bool, early: bool, later: bool)
    ensures first && !early && later
  {
    var e := new FXEngine();
    first := e.StartTechnique(SlashTechnique, 2000.0);
    early := e.StartTechnique(FireballTechnique, 2800.0);
    later := e.StartTechnique(FireballTechnique, 3600.0);
  }

  const SlashEntry := Entry(SlashTechnique.id, SlashTechnique)
  const FireballEntry := Entry(FireballTechnique.id, FireballTechnique)

  lemma SessionDeletes()
    ensures Delete<Technique>([], SlashTechnique.id) == []
    ensures Delete([SlashEntry], FireballTechnique.id) == [SlashEntry]
    ensures Delete([SlashEntry, FireballEntry], SlashTechnique.id) == [FireballEntry]
  {
    assert [SlashEntry][1..] == [];
    assert [SlashEntry, FireballEntry][1..] == [FireballEntry];
    assert [FireballEntry][1..] == [];
    assert Delete([FireballEntry], SlashTechnique.id) == [FireballEntry] + Delete<Technique>([], SlashTechnique.id);
  }

  /** Slash at 2000, then fireball at 3600: both accepted, in that order. */
  method TwoActive() returns (e: FXEngine)
    ensures fresh(e) && e.Valid()
    ensures e.activeTechniques == [SlashEntry, FireballEntry] && e.lastStartTime == 3600.0
  {
    SessionDeletes();
    e := new FXEngine();
    var _ := e.StartTechnique(SlashTechnique, 2000.0);
    assert e.activeTechniques == [SlashEntry];
    var _ := e.StartTechnique(FireballTechnique, 3600.0);
  }

  /** Restarting an active technique moves it behind the others. */
  method RestartMovesLast() returns (restarted: bool, order: seq<string>)
    ensures restarted && order == [FireballTechnique.id, SlashTechnique.id]
  {
    SessionDeletes();
    var e := TwoActive();
    restarted := e.StartTechnique(SlashTechnique, 5200.0);
    assert e.activeTechniques == [FireballEntry, SlashEntry];
    order := e.ActiveTechniqueIds();
  }
}
