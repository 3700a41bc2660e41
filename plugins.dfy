/**
 * The three plugins and their registration: the slash, fireball and aura
 * gestures and techniques, the pinch pose, and the catalog that results
 * when the plugins are registered slash, fireball, aura into an empty
 * registry.
 */
module Plugins {
  import opened Types
  import opened OrderedMaps
  import opened SlashPoses
  import opened AuraPoses
  import opened Catalog

  const PinchPoseId := "pose_pinch"
  const PinchThreshold: real := 0.5

  /** The pinch score is the feature extractor's pinch estimate itself. */
  function PinchScore(f: HandFeatures): real {
    f.pinch
  }

  const PinchPose := PoseSpec(PinchPoseId, "Pinch", PinchScore, PinchThreshold)

  const SlashGestureId := "gesture_slash"
  const FireballGestureId := "gesture_fireball"
  const AuraGestureId := "gesture_aura_trigger"

  const SlashGesture := GestureSpec(SlashGestureId, "Slash Activation",
    [Step(FistPoseId, 2000.0), Step(TwoFingersPoseId, 2000.0)], 2000.0)
  const FireballGesture := GestureSpec(FireballGestureId, "Fire Arrow Activation",
    [Step(PinchPoseId, 2000.0), Step(OpenHandPoseId, 2000.0)], 1000.0)
  const OpenHandGesture := GestureSpec(AuraGestureId, "Aura Trigger",
    [Step(OpenHandPoseId, 1000.0)], 0.0)

  const SlashTechnique := Technique("tech_slash", "Dismantle", SlashGestureId, "2.0.0")
  const FireballTechnique := Technique("tech_fireball", "Thermal Cannon", FireballGestureId, "3.1.0")
  /** As shipped, the aura technique names a pose as its gesture. */
  const AuraTechniqueShipped := Technique("tech_aura", "Cursed Energy Aura", OpenHandPoseId, "1.1.0")
  /** The aura plugin registers a copy linked to the aura trigger gesture. */
  const AuraTechnique := AuraTechniqueShipped.(gestureId := AuraGestureId)

  /** An open hand is never also a fist: the index finger must be open for one and closed for the other. */
  lemma OpenHandExcludesFist(f: HandFeatures)
    ensures OpenHandScore(f) > OpenHandThreshold ==> !(FistScore(f) > FistThreshold)
  {
  }

  method RegisterSlashPlugin(r: Registry)
    requires r.Valid()
    modifies r
    ensures r.Valid()
    ensures r.poses == Put(Put(old(r.poses), FistPoseId, FistPose), TwoFingersPoseId, TwoFingersPose)
    ensures r.gestures == Put(old(r.gestures), SlashGestureId, SlashGesture)
    ensures r.techniques == Put(old(r.techniques), SlashTechnique.id, SlashTechnique)
  {
    r.RegisterPose(FistPose);
    r.RegisterPose(TwoFingersPose);
    r.RegisterGesture(SlashGesture);
    r.RegisterTechnique(SlashTechnique);
  }

  method RegisterFireballPlugin(r: Registry)
    requires r.Valid()
    modifies r
    ensures r.Valid()
    ensures r.poses == Put(old(r.poses), PinchPoseId, PinchPose)
    ensures r.gestures == Put(old(r.gestures), FireballGestureId, FireballGesture)
    ensures r.techniques == Put(old(r.techniques), FireballTechnique.id, FireballTechnique)
  {
    r.RegisterPose(PinchPose);
    r.RegisterGesture(FireballGesture);
    r.RegisterTechnique(FireballTechnique);
  }

  method RegisterAuraPlugin(r: Registry)
    requires r.Valid()
    modifies r
    ensures r.Valid()
    ensures r.poses == Put(old(r.poses), OpenHandPoseId, OpenHandPose)
    ensures r.gestures == Put(old(r.gestures), AuraGestureId, OpenHandGesture)
    ensures r.techniques == Put(old(r.techniques), AuraTechnique.id, AuraTechnique)
  {
    r.RegisterPose(OpenHandPose);
    r.RegisterGesture(OpenHandGesture);
    r.RegisterTechnique(AuraTechnique);
  }

  /**
   * Load-time registration into the empty global registry, complex gestures
   * first: the catalog then lists four poses, three gestures and three
   * techniques in this order.
   */
  method RegisterPlugins(r: Registry)
    requires r.Valid() && r.techniques == [] && r.poses == [] && r.gestures == []
    modifies r
    ensures r.Valid()
    ensures r.AllPoses() == [FistPose, TwoFingersPose, PinchPose, OpenHandPose]
    ensures r.AllGestures() == [SlashGesture, FireballGesture, OpenHandGesture]
    ensures r.AllTechniques() == [SlashTechnique, FireballTechnique, AuraTechnique]
  {
    CatalogPoses();
    CatalogGestures();
    CatalogTechniques();
    RegisterSlashPlugin(r);
    RegisterFireballPlugin(r);
    RegisterAuraPlugin(r);
    assert r.AllPoses() == Values(r.poses);
    assert r.AllGestures() == Values(r.gestures);
    assert r.AllTechniques() == Values(r.techniques);
  }

  /** Setting a key no entry carries appends it. */
  lemma Append<V>(m: OMap<V>, k: string, v: V)
    requires forall i :: 0 <= i < |m| ==> m[i].key != k
    ensures Put(m, k, v) == m + [Entry(k, v)]
  {
    assert !Has(m, k);
  }

  lemma CatalogPoses()
    ensures Put(Put(Put(Put([], FistPoseId, FistPose), TwoFingersPoseId, TwoFingersPose),
                    PinchPoseId, PinchPose), OpenHandPoseId, OpenHandPose)
         == [Entry(FistPoseId, FistPose), Entry(TwoFingersPoseId, TwoFingersPose),
             Entry(PinchPoseId, PinchPose), Entry(OpenHandPoseId, OpenHandPose)]
    ensures Values([Entry(FistPoseId, FistPose), Entry(TwoFingersPoseId, TwoFingersPose),
                    Entry(PinchPoseId, PinchPose), Entry(OpenHandPoseId, OpenHandPose)])
         == [FistPose, TwoFingersPose, PinchPose, OpenHandPose]
  {
    var m0: OMap<PoseSpec> := [];
    Append(m0, FistPoseId, FistPose);
    var m1 := m0 + [Entry(FistPoseId, FistPose)];
    Append(m1, TwoFingersPoseId, TwoFingersPose);
    var m2 := m1 + [Entry(TwoFingersPoseId, TwoFingersPose)];
    Append(m2, PinchPoseId, PinchPose);
    var m3 := m2 + [Entry(PinchPoseId, PinchPose)];
    Append(m3, OpenHandPoseId, OpenHandPose);
  }

  lemma CatalogGestures()
    ensures Put(Put(Put([], SlashGestureId, SlashGesture), FireballGestureId, FireballGesture),
                AuraGestureId, OpenHandGesture)
         == [Entry(SlashGestureId, SlashGesture), Entry(FireballGestureId, FireballGesture),
             Entry(AuraGestureId, OpenHandGesture)]
    ensures Values([Entry(SlashGestureId, SlashGesture), Entry(FireballGestureId, FireballGesture),
                    Entry(AuraGestureId, OpenHandGesture)])
         == [SlashGesture, FireballGesture, OpenHandGesture]
  {
    var m0: OMap<GestureSpec> := [];
    Append(m0, SlashGestureId, SlashGesture);
    var m1 := m0 + [Entry(SlashGestureId, SlashGesture)];
    Append(m1, FireballGestureId, FireballGesture);
    var m2 := m1 + [Entry(FireballGestureId, FireballGesture)];
    Append(m2, AuraGestureId, OpenHandGesture);
  }

  lemma CatalogTechniques()
    ensures Put(Put(Put([], SlashTechnique.id, SlashTechnique), FireballTechnique.id, FireballTechnique),
                AuraTechnique.id, AuraTechnique)
         == [Entry(SlashTechnique.id, SlashTechnique), Entry(FireballTechnique.id, FireballTechnique),
             Entry(AuraTechnique.id, AuraTechnique)]
    ensures Values([Entry(SlashTechnique.id, SlashTechnique), Entry(FireballTechnique.id, FireballTechnique),
                    Entry(AuraTechnique.id, AuraTechnique)])
         == [SlashTechnique, FireballTechnique, AuraTechnique]
  {
    var m0: OMap<Technique> := [];
    Append(m0, SlashTechnique.id, SlashTechnique);
    var m1 := m0 + [Entry(SlashTechnique.id, SlashTechnique)];
    Append(m1, FireballTechnique.id, FireballTechnique);
    var m2 := m1 + [Entry(FireballTechnique.id, FireballTechnique)];
    Append(m2, AuraTechnique.id, AuraTechnique);
  }
}
