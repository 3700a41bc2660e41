/**
 * The plugin catalog (`Registry`): three insertion-ordered maps from id to
 * technique, pose and gesture. Registering an id again replaces its entry in
 * place; listing returns the values in insertion order.
 */
module Catalog {
  import opened Wrappers
  import opened Types
  import opened OrderedMaps

  /** Every key is its value's id and occurs once. */
  ghost predicate TechniquesKeyed(m: OMap<Technique>) {
    NoDupKeys(m) && forall i :: 0 <= i < |m| ==> m[i].value.id == m[i].key
  }

  ghost predicate PosesKeyed(m: OMap<PoseSpec>) {
    NoDupKeys(m) && forall i :: 0 <= i < |m| ==> m[i].value.id == m[i].key
  }

  ghost predicate GesturesKeyed(m: OMap<GestureSpec>) {
    NoDupKeys(m) && forall i :: 0 <= i < |m| ==> m[i].value.id == m[i].key
  }

  /** The number of distinct ids a map holds. */
  ghost function IdCount<V>(m: OMap<V>): nat {
    |set i | 0 <= i < |m| :: m[i].key|
  }

  class Registry {
    var techniques: OMap<Technique>
    var poses: OMap<PoseSpec>
    var gestures: OMap<GestureSpec>

    ghost predicate Valid()
      reads this
    {
      TechniquesKeyed(techniques) && PosesKeyed(poses) && GesturesKeyed(gestures)
    }

    constructor ()
      ensures Valid()
      ensures techniques == [] && poses == [] && gestures == []
    {
      techniques, poses, gestures := [], [], [];
    }

    /**
     * Afterwards `technique.id` maps to `technique`; a known id keeps its
     * position and the count, a new id goes last; the other kinds are untouched.
     */
    method RegisterTechnique(technique: Technique)
      requires Valid()
      modifies this
      ensures Valid()
      ensures techniques == Put(old(techniques), technique.id, technique)
      ensures Get(techniques, technique.id) == Some(technique)
      ensures forall id :: id != technique.id ==> Get(techniques, id) == Get(old(techniques), id)
      ensures Has(old(techniques), technique.id) ==> Keys(techniques) == Keys(old(techniques))
      ensures !Has(old(techniques), technique.id) ==> Keys(techniques) == Keys(old(techniques)) + [technique.id]
      ensures poses == old(poses) && gestures == old(gestures)
    {
      PutSpec(techniques, technique.id, technique);
      KeyedAfterPut(techniques, technique);
      techniques := Put(techniques, technique.id, technique);
    }

    /** As `RegisterTechnique`, for poses. */
    method RegisterPose(pose: PoseSpec)
      requires Valid()
      modifies this
      ensures Valid()
      ensures poses == Put(old(poses), pose.id, pose)
      ensures Get(poses, pose.id) == Some(pose)
      ensures forall id :: id != pose.id ==> Get(poses, id) == Get(old(poses), id)
      ensures Has(old(poses), pose.id) ==> Keys(poses) == Keys(old(poses))
      ensures !Has(old(poses), pose.id) ==> Keys(poses) == Keys(old(poses)) + [pose.id]
      ensures techniques == old(techniques) && gestures == old(gestures)
    {
      PutSpec(poses, pose.id, pose);
      PosesKeyedAfterPut(poses, pose);
      poses := Put(poses, pose.id, pose);
    }

    /** As `RegisterTechnique`, for gestures. */
    method RegisterGesture(gesture: GestureSpec)
      requires Valid()
      modifies this
      ensures Valid()
      ensures gestures == Put(old(gestures), gesture.id, gesture)
      ensures Get(gestures, gesture.id) == Some(gesture)
      ensures forall id :: id != gesture.id ==> Get(gestures, id) == Get(old(gestures), id)
      ensures Has(old(gestures), gesture.id) ==> Keys(gestures) == Keys(old(gestures))
      ensures !Has(old(gestures), gesture.id) ==> Keys(gestures) == Keys(old(gestures)) + [gesture.id]
      ensures techniques == old(techniques) && poses == old(poses)
    {
      PutSpec(gestures, gesture.id, gesture);
      GesturesKeyedAfterPut(gestures, gesture);
      gestures := Put(gestures, gesture.id, gesture);
    }

    /** The techniques in registration order, one per distinct id. */
    function AllTechniques(): (ts: seq<Technique>)
      requires Valid()
      reads this
      ensures |ts| == IdCount(techniques)
      ensures |ts| == |techniques| && forall i :: 0 <= i < |ts| ==> ts[i].id == Keys(techniques)[i]
      ensures forall i :: 0 <= i < |ts| ==> Get(techniques, ts[i].id) == Some(ts[i])
      ensures forall i, j :: 0 <= i < j < |ts| ==> ts[i].id != ts[j].id
    {
      SizeIsDistinctKeys(techniques);
      GetAtIndex(techniques);
      Values(techniques)
    }

    /** The poses in registration order, one per distinct id. */
    function AllPoses(): (ps: seq<PoseSpec>)
      requires Valid()
      reads this
      ensures |ps| == IdCount(poses)
      ensures |ps| == |poses| && forall i :: 0 <= i < |ps| ==> ps[i].id == Keys(poses)[i]
      ensures forall i :: 0 <= i < |ps| ==> Get(poses, ps[i].id) == Some(ps[i])
      ensures forall i, j :: 0 <= i < j < |ps| ==> ps[i].id != ps[j].id
    {
      SizeIsDistinctKeys(poses);
      GetAtIndex(poses);
      Values(poses)
    }

    /** The gestures in registration order, one per distinct id. */
    function AllGestures(): (gs: seq<GestureSpec>)
      requires Valid()
      reads this
      ensures |gs| == IdCount(gestures)
      ensures |gs| == |gestures| && forall i :: 0 <= i < |gs| ==> gs[i].id == Keys(gestures)[i]
      ensures forall i :: 0 <= i < |gs| ==> Get(gestures, gs[i].id) == Some(gs[i])
      ensures forall i, j :: 0 <= i < j < |gs| ==> gs[i].id != gs[j].id
    {
      SizeIsDistinctKeys(gestures);
      GetAtIndex(gestures);
      Values(gestures)
    }
  }

  lemma KeyedAfterPut(m: OMap<Technique>, t: Technique)
    requires TechniquesKeyed(m)
    ensures TechniquesKeyed(Put(m, t.id, t))
  {
    PutSpec(m, t.id, t);
  }

  lemma PosesKeyedAfterPut(m: OMap<PoseSpec>, p: PoseSpec)
    requires PosesKeyed(m)
    ensures PosesKeyed(Put(m, p.id, p))
  {
    PutSpec(m, p.id, p);
  }

  lemma GesturesKeyedAfterPut(m: OMap<GestureSpec>, g: GestureSpec)
    requires GesturesKeyed(m)
    ensures GesturesKeyed(Put(m, g.id, g))
  {
    PutSpec(m, g.id, g);
  }
}
