/**
 * The effect scheduler (`FXEngine`): which techniques are active, the state
 * blob each one owns, the global start cooldown (from which the aura is
 * exempt) and the per-frame update pass. Technique hooks are recorded as
 * events in a ghost trace; a state blob is an object, so a fresh one shows
 * that a start received new state.
 */
module Engine {
  import opened Wrappers
  import opened Types
  import opened OrderedMaps

  /** Minimum spacing between two starts of non-exempt techniques. */
  const GlobalCooldownMs: Time := 1500.0

  /** The one technique the global cooldown does not apply to. */
  const AuraTechniqueId := "tech_aura"

  /** A technique's private, opaque state; only its identity matters here. */
  class StateBlob {
    constructor () {}
  }

  /** A call of a technique hook, or the clearing of the drawing surface. */
  datatype Hook =
    | ClearSurface
    | StartHook(id: string, now: Time, state: StateBlob)
    | UpdateHook(id: string, now: Time, state: StateBlob)
    | StopHook(id: string, now: Time, state: StateBlob)

  /** The stop hook `stopTechnique(id)` runs: one call with the id's state if it is active. */
  function StopHooks(active: OMap<Technique>, states: OMap<StateBlob>, id: string, now: Time): (hs: seq<Hook>)
    requires Has(active, id) ==> Has(states, id)
    ensures Has(active, id) ==> hs == [StopHook(id, now, Lookup(states, id))]
    ensures !Has(active, id) ==> hs == []
  {
    if Has(active, id) then [StopHook(id, now, Lookup(states, id))] else []
  }

  /**
   * The update hooks of one pass over the state map, in order: one per
   * entry, with that entry's state. The contract gives only the length;
   * `UpdateHooksAt` states each hook.
   */
  function UpdateHooks(states: OMap<StateBlob>, now: Time): (hs: seq<Hook>)
    ensures |hs| == |states|
  {
    if |states| == 0 then []
    else
      var n := |states| - 1;
      UpdateHooks(states[..n], now) + [UpdateHook(states[n].key, now, states[n].value)]
  }

  /** Hook `i` of an update pass belongs to the `i`-th entry and carries its state. */
  lemma {:induction false} UpdateHooksAt(states: OMap<StateBlob>, now: Time, i: nat)
    requires i < |states|
    ensures UpdateHooks(states, now)[i] == UpdateHook(states[i].key, now, states[i].value)
  {
    var n := |states| - 1;
    if i < n {
      UpdateHooksAt(states[..n], now, i);
    }
  }

  /**
   * The scheduler's invariant on its two maps: the same keys in the same
   * order, each key at most once and naming its technique, and no two
   * techniques sharing a state blob.
   */
  ghost predicate ValidMaps(active: OMap<Technique>, states: OMap<StateBlob>) {
    && NoDupKeys(active)
    && Keys(active) == Keys(states)
    && (forall i :: 0 <= i < |active| ==> active[i].value.id == active[i].key)
    && (forall i, j :: 0 <= i < j < |states| ==> states[i].value != states[j].value)
  }

  /** Removing an id from both maps keeps the invariant. */
  lemma ValidAfterDelete(active: OMap<Technique>, states: OMap<StateBlob>, id: string)
    requires ValidMaps(active, states)
    ensures ValidMaps(Delete(active, id), Delete(states, id))
  {
    DeleteSpec(active, id);
    DeleteKeys(active, id);
    DeleteKeys(states, id);
    DeleteKeepsDistinct(states, id);
    var d := Delete(active, id);
    forall i | 0 <= i < |d| ensures d[i].value.id == d[i].key {
      assert d[i] in active;
    }
  }

  /** Appending an absent id with a blob no one else holds keeps the invariant. */
  lemma ValidAfterAppend(active: OMap<Technique>, states: OMap<StateBlob>, t: Technique, blob: StateBlob)
    requires ValidMaps(active, states)
    requires !Has(active, t.id)
    requires forall i :: 0 <= i < |states| ==> states[i].value != blob
    ensures ValidMaps(active + [Entry(t.id, t)], states + [Entry(t.id, blob)])
  {
    var a, s := active + [Entry(t.id, t)], states + [Entry(t.id, blob)];
    assert Keys(a) == Keys(active) + [t.id];
    assert Keys(s) == Keys(states) + [t.id];
  }

  /** A map without duplicate keys whose values are pairwise distinct keeps them distinct after `Delete`. */
  lemma DeleteKeepsDistinct(m: OMap<StateBlob>, k: string)
    requires NoDupKeys(m)
    requires forall i, j :: 0 <= i < j < |m| ==> m[i].value != m[j].value
    ensures forall i, j :: 0 <= i < j < |Delete(m, k)| ==> Delete(m, k)[i].value != Delete(m, k)[j].value
  {
    DeleteSpec(m, k);
    var d := Delete(m, k);
    forall i, j | 0 <= i < j < |d| ensures d[i].value != d[j].value {
      assert d[i] in m && d[j] in m;
      var p :| 0 <= p < |m| && m[p] == d[i];
      var q :| 0 <= q < |m| && m[q] == d[j];
      assert Keys(d)[i] != Keys(d)[j];
      assert p != q;
    }
  }

  /** The scheduler's observable state: both maps, the start stamps and the hook trace. */
  datatype Snapshot = Snapshot(active: OMap<Technique>, states: OMap<StateBlob>,
                               lastStartTime: Time, lastStartedName: string, trace: seq<Hook>)

  /** The global cooldown lets `t` start at `now`: it is the aura, or 1500 ms have passed. */
  predicate Accepts(e: Snapshot, t: Technique, now: Time) {
    t.id == AuraTechniqueId || now - e.lastStartTime >= GlobalCooldownMs
  }

  /**
   * `startTechnique(t)` at `now` takes `e0` to `e1`. A refused start changes
   * nothing. An accepted one stops the id if it is active (one stop hook with
   * its old state), puts it last in both maps with a new state, runs one
   * start hook with that state and, unless it is the aura, records the time
   * and name.
   */
  ghost predicate StartStep(e0: Snapshot, t: Technique, now: Time, e1: Snapshot) {
    && ValidMaps(e0.active, e0.states)
    && (!Accepts(e0, t, now) ==> e1 == e0)
    && (Accepts(e0, t, now) ==>
          && e1.active == Delete(e0.active, t.id) + [Entry(t.id, t)]
          && |e1.states| > 0
          && e1.states[..|e1.states| - 1] == Delete(e0.states, t.id)
          && e1.states[|e1.states| - 1].key == t.id
          && e1.trace == e0.trace + StopHooks(e0.active, e0.states, t.id, now)
                                  + [StartHook(t.id, now, e1.states[|e1.states| - 1].value)]
          && (t.id == AuraTechniqueId ==>
                e1.lastStartTime == e0.lastStartTime && e1.lastStartedName == e0.lastStartedName)
          && (t.id != AuraTechniqueId ==> e1.lastStartTime == now && e1.lastStartedName == t.name))
  }

  /**
   * `stopTechnique(id)` at `now` takes `e0` to `e1`: an active id gets one
   * stop hook with its state and leaves both maps; nothing else changes.
   */
  ghost predicate StopStep(e0: Snapshot, id: string, now: Time, e1: Snapshot) {
    && ValidMaps(e0.active, e0.states)
    && e1 == Snapshot(Delete(e0.active, id), Delete(e0.states, id), e0.lastStartTime, e0.lastStartedName,
                      e0.trace + StopHooks(e0.active, e0.states, id, now))
  }

  /** An accepted start leaves the id active and every other id as it was; a refused one changes nothing. */
  lemma StartStepActive(e0: Snapshot, t: Technique, now: Time, e1: Snapshot)
    requires StartStep(e0, t, now, e1)
    ensures Accepts(e0, t, now) ==> Has(e1.active, t.id) && Lookup(e1.active, t.id) == t
    ensures forall id :: id != t.id ==> (Has(e1.active, id) <==> Has(e0.active, id))
    ensures !Accepts(e0, t, now) ==> e1 == e0
  {
    DeleteSpec(e0.active, t.id);
    if Accepts(e0, t, now) {
      var d := Delete(e0.active, t.id);
      assert Keys(e1.active) == Keys(d) + [t.id];
      assert !Has(d, t.id);
      IndexOfIs(e1.active, t.id, |d|);
      forall id | id != t.id ensures Has(e1.active, id) <==> Has(d, id) {
        assert Keys(e1.active) == Keys(d) + [t.id];
      }
    }
  }

  /** A stop leaves the id inactive and every other id as it was. */
  lemma StopStepInactive(e0: Snapshot, id: string, now: Time, e1: Snapshot)
    requires StopStep(e0, id, now, e1)
    ensures !Has(e1.active, id)
    ensures forall k :: k != id ==> (Has(e1.active, k) <==> Has(e0.active, k))
    ensures !Has(e0.active, id) ==> e1.active == e0.active && e1.states == e0.states && e1.trace == e0.trace
  {
    DeleteSpec(e0.active, id);
    if !Has(e0.active, id) {
      DeleteMissing(e0.active, id);
      assert !Has(e0.states, id);
      DeleteMissing(e0.states, id);
    }
  }

  class FXEngine {
    var activeTechniques: OMap<Technique>
    var techniqueState: OMap<StateBlob>
    var lastStartTime: Time
    var lastStartedName: string
    /** The hook calls made so far, in order. */
    ghost var trace: seq<Hook>

    ghost predicate Valid()
      reads this
    {
      ValidMaps(activeTechniques, techniqueState)
    }

    /** The current state, as a value. */
    ghost function State(): Snapshot
      reads this
    {
      Snapshot(activeTechniques, techniqueState, lastStartTime, lastStartedName, trace)
    }

    constructor ()
      ensures Valid()
      ensures activeTechniques == [] && techniqueState == []
      ensures lastStartTime == 0.0 && lastStartedName == "" && trace == []
    {
      activeTechniques, techniqueState := [], [];
      lastStartTime, lastStartedName := 0.0, "";
      trace := [];
    }

    /** The active ids, in insertion order; each is active and has state. */
    function ActiveTechniqueIds(): (ids: seq<string>)
      requires Valid()
      reads this
      ensures NoDup(ids) && ids == Keys(techniqueState)
      ensures |ids| == |activeTechniques|
      ensures forall i :: 0 <= i < |ids| ==> ids[i] == activeTechniques[i].value.id
    {
      Keys(activeTechniques)
    }

    /** An id is active exactly when it is listed and has state. */
    function IsActive(id: string): (r: bool)
      requires Valid()
      reads this
      ensures r <==> id in ActiveTechniqueIds()
      ensures r <==> Has(techniqueState, id)
    {
      Has(activeTechniques, id)
    }

    /** Remaining global cooldown: never negative, zero exactly when 1500 ms have passed. */
    function CooldownRemaining(now: Time): (r: Time)
      reads this
      ensures r >= 0.0
      ensures r == 0.0 <==> now - lastStartTime >= GlobalCooldownMs
      ensures r > 0.0 ==> r + (now - lastStartTime) == GlobalCooldownMs
      ensures now >= lastStartTime ==> r <= GlobalCooldownMs
    {
      var remaining := GlobalCooldownMs - (now - lastStartTime);
      if remaining > 0.0 then remaining else 0.0
    }

    function LastStartedName(): string
      reads this
    {
      lastStartedName
    }

    /**
     * Starts `technique` at `now`. Any technique but the aura is refused,
     * with no change at all, within 1500 ms of the last non-aura start. An
     * accepted start first stops the id if it is active, then puts it last in
     * both maps with a fresh state, runs its start hook once with that state
     * and, unless it is the aura, records the start time and name.
     */
    method StartTechnique(technique: Technique, now: Time) returns (started: bool)
      requires Valid()
      modifies this
      ensures Valid()
      ensures started == Accepts(old(State()), technique, now)
      ensures StartStep(old(State()), technique, now, State())
      ensures started ==> fresh(techniqueState[|techniqueState| - 1].value)
    {
      if technique.id != AuraTechniqueId && CooldownRemaining(now) > 0.0 {
        return false;
      }
      if IsActive(technique.id) {
        StopTechnique(technique.id, now);
      } else {
        DeleteMissing(activeTechniques, technique.id);
        DeleteMissing(techniqueState, technique.id);
      }
      assert activeTechniques == Delete(old(activeTechniques), technique.id);
      assert techniqueState == Delete(old(techniqueState), technique.id);
      var state := Install(technique, now);

      if technique.id != AuraTechniqueId {
        lastStartTime := now;
        lastStartedName := technique.name;
      }
      return true;
    }

    /**
     * The middle of an accepted start, for an id that is not active: puts it
     * last in both maps with a fresh state and runs its start hook once.
     */
    method Install(technique: Technique, now: Time) returns (state: StateBlob)
      requires Valid() && !IsActive(technique.id)
      modifies this
      ensures Valid()
      ensures fresh(state)
      ensures activeTechniques == old(activeTechniques) + [Entry(technique.id, technique)]
      ensures techniqueState == old(techniqueState) + [Entry(technique.id, state)]
      ensures trace == old(trace) + [StartHook(technique.id, now, state)]
      ensures lastStartTime == old(lastStartTime) && lastStartedName == old(lastStartedName)
    {
      activeTechniques := Put(activeTechniques, technique.id, technique);
      state := new StateBlob();
      ValidAfterAppend(old(activeTechniques), techniqueState, technique, state);
      techniqueState := Put(techniqueState, technique.id, state);
      trace := trace + [StartHook(technique.id, now, state)];
    }

    /**
     * Stops `techniqueId`: if active, runs its stop hook once with its state
     * and removes it from both maps; otherwise does nothing.
     */
    method StopTechnique(techniqueId: string, now: Time)
      requires Valid()
      modifies this
      ensures Valid()
      ensures StopStep(old(State()), techniqueId, now, State())
      ensures !IsActive(techniqueId)
      ensures forall id :: id != techniqueId ==> (IsActive(id) <==> old(IsActive(id)))
      ensures !old(IsActive(techniqueId)) ==>
        activeTechniques == old(activeTechniques) && techniqueState == old(techniqueState)
    {
      var technique := Get(activeTechniques, techniqueId);
      DeleteSpec(activeTechniques, techniqueId);
      DeleteSpec(techniqueState, techniqueId);
      if technique.Some? {
        var state := Lookup(techniqueState, techniqueId);
        trace := trace + [StopHook(techniqueId, now, state)];
        ValidAfterDelete(activeTechniques, techniqueState, techniqueId);
        activeTechniques := Delete(activeTechniques, techniqueId);
        techniqueState := Delete(techniqueState, techniqueId);
      } else {
        DeleteMissing(activeTechniques, techniqueId);
        DeleteMissing(techniqueState, techniqueId);
      }
    }

    /** The hooks of one rendering pass in the current state. */
    ghost function UpdatePass(now: Time): seq<Hook>
      requires Valid()
      reads this
    {
      [ClearSurface] + UpdateHooks(techniqueState, now)
    }

    /**
     * A rendering pass clears the surface and then calls, for the `i`-th
     * active id in insertion order, that id's update hook with its own state.
     */
    lemma UpdatePassSpec(now: Time)
      requires Valid()
      ensures |UpdatePass(now)| == |ActiveTechniqueIds()| + 1
      ensures UpdatePass(now)[0] == ClearSurface
      ensures forall i :: 0 <= i < |ActiveTechniqueIds()| ==>
        && Has(techniqueState, ActiveTechniqueIds()[i])
        && UpdatePass(now)[i + 1] == UpdateHook(ActiveTechniqueIds()[i], now, Lookup(techniqueState, ActiveTechniqueIds()[i]))
    {
      var ids := ActiveTechniqueIds();
      forall i | 0 <= i < |ids|
        ensures Has(techniqueState, ids[i])
        ensures UpdatePass(now)[i + 1] == UpdateHook(ids[i], now, Lookup(techniqueState, ids[i]))
      {
        assert Keys(techniqueState)[i] == ids[i];
        LookupAt(techniqueState, i);
        UpdateHooksAt(techniqueState, now, i);
      }
    }

    /**
     * One rendering pass: clears the surface, then runs the update hook of
     * every active technique once, in insertion order, with its own state.
     * The maps are not changed.
     */
    method Update(now: Time)
      requires Valid()
      modifies this
      ensures Valid()
      ensures activeTechniques == old(activeTechniques) && techniqueState == old(techniqueState)
      ensures lastStartTime == old(lastStartTime) && lastStartedName == old(lastStartedName)
      ensures trace == old(trace) + UpdatePass(now)
    {
      trace := trace + [ClearSurface];
      RunUpdateHooks(now);
    }

    /** The loop of a rendering pass: each active id's update hook, in order, with its state. */
    method RunUpdateHooks(now: Time)
      requires NoDupKeys(techniqueState) && Keys(activeTechniques) == Keys(techniqueState)
      modifies this
      ensures unchanged(this`activeTechniques, this`techniqueState, this`lastStartTime, this`lastStartedName)
      ensures trace == old(trace) + UpdateHooks(techniqueState, now)
    {
      var active, states := activeTechniques, techniqueState;
      for i := 0 to |active|
        invariant unchanged(this`activeTechniques, this`techniqueState, this`lastStartTime, this`lastStartedName)
        invariant trace == old(trace) + UpdateHooks(states[..i], now)
      {
        var id := active[i].key;
        assert Keys(active)[i] == Keys(states)[i];
        LookupAt(states, i);
        var state := Lookup(states, id);
        assert states[..i + 1][..i] == states[..i];
        trace := trace + [UpdateHook(id, now, state)];
      }
      assert states[..|active|] == states;
    }
  }
}
