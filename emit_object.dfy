/**
  `EmitObject` as an object whose callbacks update its fields in place; every
  method is proved to move the fields as the matching function of `EmitSpec`
  says. `OnFingerDown` also reaches into the projectile pool.
 */
module EmitObjectModel {
  import opened ArTypes
  import opened AnchorHistory
  import opened AnchorList
  import opened TerrainPoller
  import opened Localization
  import opened Projectiles
  import opened Pooling
  import opened EmitSpec

  /**
    One turn of the `for` loop over `_testObjects`: `ElementAt(i)` finds the
    entry, its lowered lifetime is stored, and it is removed once that is
    used up.
   */
  method VisitEntry(objects: Table, i: nat, dt: Delta) returns (t: Table)
    requires i < |Entries(objects.slots)|
    ensures t == Visit(objects, i, dt)
    ensures Entries(t.slots) == if Entries(objects.slots)[i].lifetime - dt <= 0.0
                                then Entries(objects.slots)[..i] + Entries(objects.slots)[i + 1..]
                                else Entries(objects.slots)[i := Entries(objects.slots)[i].(lifetime := Entries(objects.slots)[i].lifetime - dt)]
  {
    var k := SlotOf(objects.slots, i);
    var lifetime := objects.slots[k].value.lifetime - dt;
    t := objects.(slots := objects.slots[k := Option.Some(objects.slots[k].value.(lifetime := lifetime))]);
    if lifetime <= 0.0 {
      t := RemoveSlot(t, k);
    }
    VisitEntries(objects, i, dt);
  }

  /**
    The `for` loop over `_testObjects`, which re-reads `Count` on every turn.
    Its effect on the enumeration is `Pass`, and the free list stays in step
    with the empty slots.
   */
  method SweepLoop(objects: Table, dt: Delta) returns (t: Table)
    ensures t == SweepFrom(objects, 0, dt)
    ensures Entries(t.slots) == Pass(Entries(objects.slots), dt)
    ensures Valid(objects) ==> Valid(t)
  {
    t := objects;
    var i := 0;
    while i < |Entries(t.slots)|
      invariant SweepFrom(t, i, dt) == SweepFrom(objects, 0, dt)
      decreases |t.slots| - i
    {
      t := VisitEntry(t, i, dt);
      i := i + 1;
    }
    SweepIsPass(objects, dt);
    if Valid(objects) {
      SweepFromKeepsValid(objects, 0, dt);
    }
  }

  class Emitter {
    var isEmittingEnabled: bool
    var isInARView: bool
    var fingerDown: bool
    var fingerDelay: real
    /** `_fFingerDelayMax`, a serialized field (1 by default). */
    const fingerDelayMax: real
    var hudFingerDown: bool
    var fingerTriggered: bool
    var testObjects: Table
    var nextVisual: nat
    var anchors: seq<AnchorObject>
    var pollers: seq<Poller>
    var isLocalizing: bool
    var anchorMessage: Message
    /** The `ProjectilePooler` component next to this one. */
    const pooler: ProjectilePooler

    ghost function Snapshot(): Emit
      reads this
    {
      Emit(isEmittingEnabled, isInARView, fingerDown, fingerDelay, fingerDelayMax, hudFingerDown, fingerTriggered,
           testObjects, nextVisual, anchors, pollers, isLocalizing, anchorMessage)
    }

    /** The field initialisers and `Awake`. */
    constructor (delayMax: real, pool: ProjectilePooler)
      ensures pooler == pool
      ensures Snapshot() == Emit(false, false, false, 0.0, delayMax, false, false, EmptyTable, 0, [], [], false, NoMessage)
    {
      isEmittingEnabled := false;
      isInARView := false;
      fingerDown := false;
      fingerDelay := 0.0;
      fingerDelayMax := delayMax;
      hudFingerDown := false;
      fingerTriggered := false;
      testObjects := EmptyTable;
      nextVisual := 0;
      anchors := [];
      pollers := [];
      isLocalizing := false;
      anchorMessage := NoMessage;
      pooler := pool;
    }

    /** `Start`: the pool is filled with instances of the projectile prefab. */
    method Start(prefabMaxLifeTime: real)
      modifies pooler
      ensures pooler.prefabLifeTime == prefabMaxLifeTime
      ensures |pooler.pool| == BatchSize(pooler.batchAmount)
      ensures forall i :: 0 <= i < |pooler.pool| ==>
                fresh(pooler.pool[i]) && !pooler.pool[i].active && pooler.pool[i].maxLifeTime == prefabMaxLifeTime
    {
      pooler.Init(prefabMaxLifeTime);
    }

    method OnEnable()
      modifies this
      ensures Snapshot() == EmitSpec.OnEnable(old(Snapshot()))
    {
      isLocalizing := true;
      isInARView := true;
    }

    /**
      `OnFingerDown`: nothing while emitting is off; otherwise the finger is
      down, and for the first finger one projectile is taken from the pool and
      (re)started; the pool throws when it cannot supply one.
     */
    method OnFingerDown(index: nat) returns (o: Outcome, taken: Option<Projectile>)
      modifies this, pooler, pooler.pool
      ensures Snapshot() == FingerDown(old(Snapshot()))
      ensures !old(isEmittingEnabled) || index != 0 ==>
                o == Completed && taken == Option.None && pooler.pool == old(pooler.pool)
                && forall p :: p in old(pooler.pool) ==> p.State() == old(p.State())
      ensures old(isEmittingEnabled) && index == 0 && old(FirstInactive(pooler.pool)) < |old(pooler.pool)| ==>
                o == Completed && pooler.pool == old(pooler.pool)
                && taken == Option.Some(old(pooler.pool)[old(FirstInactive(pooler.pool))])
      ensures old(isEmittingEnabled) && index == 0 && old(FirstInactive(pooler.pool)) == |old(pooler.pool)| ==>
                if pooler.batchAmount > 0 then
                  o == Completed && |pooler.pool| == |old(pooler.pool)| + pooler.batchAmount
                  && taken == Option.Some(pooler.pool[|old(pooler.pool)|])
                else
                  o == Faulted(NoInactiveProjectile) && taken == Option.None && pooler.pool == old(pooler.pool)
      ensures taken.Some? ==> taken.value.State() == Life(taken.value.maxLifeTime, true)
      ensures pooler.prefabLifeTime == old(pooler.prefabLifeTime)
      ensures |pooler.pool| >= |old(pooler.pool)| && pooler.pool[..|old(pooler.pool)|] == old(pooler.pool)
      ensures forall i :: |old(pooler.pool)| <= i < |pooler.pool| ==>
                fresh(pooler.pool[i]) && pooler.pool[i].maxLifeTime == pooler.prefabLifeTime
                && (taken == Option.Some(pooler.pool[i]) || !pooler.pool[i].active)
      ensures forall p :: p in old(pooler.pool) && taken != Option.Some(p) ==> p.State() == old(p.State())
    {
      if !isEmittingEnabled {
        return Completed, Option.None;
      }
      fingerDown := true;
      if index != 0 {
        return Completed, Option.None;
      }
      var r := pooler.GetGameObject(false);
      match r
      case FetchFailed(fault) =>
        o, taken := Faulted(fault), Option.None;
      case Fetched(p) =>
        p.Init();
        o, taken := Completed, Option.Some(p);
    }

    method OnFingerUp()
      modifies this
      ensures Snapshot() == FingerUp(old(Snapshot()))
    {
      fingerDown := false;
    }

    /** The effect of one coroutine resumption on the fields. */
    method ApplyPoll(id: AnchorId, state: TerrainAnchorState, e: Effect)
      modifies this
      ensures Snapshot() == EmitSpec.ApplyPoll(old(Snapshot()), id, state, e)
    {
      match e {
        case Idle =>
        case Cancelled =>
        case Dangling =>
        case Waiting(advise) =>
          if advise {
            anchorMessage := ResolvingTimeout;
          }
        case Finished(active, last) =>
          anchors := SetActive(anchors, id, active);
          if last == IsLastAnchor {
            anchorMessage := TerrainStateText(state);
          }
      }
    }

    method StartCheckTerrainAnchorState(id: AnchorId, state: TerrainAnchorState)
      modifies this
      ensures Snapshot() == EmitSpec.StartPoller(old(Snapshot()), id, state)
    {
      var r := Step(TerrainPoller.Start(id), state, anchors, isLocalizing, false);
      pollers := pollers + [r.poller];
      ApplyPoll(id, state, r.effect);
    }

    method ResumeCheckTerrainAnchorState(k: nat, state: TerrainAnchorState) returns (o: Outcome)
      requires k < |pollers|
      modifies this
      ensures Snapshot() == EmitSpec.ResumePoller(old(Snapshot()), k, state).state
      ensures o == EmitSpec.ResumePoller(old(Snapshot()), k, state).outcome
    {
      var p := pollers[k];
      var r := Step(p, state, anchors, isLocalizing, false);
      pollers := pollers[k := r.poller];
      ApplyPoll(p.anchor, state, r.effect);
      o := PollOutcome(r.effect);
    }

    /** The part of `PlaceGeospatialAnchor` before the poller starts: show, list and register the anchor. */
    method RegisterAnchor(id: AnchorId)
      modifies this
      ensures Snapshot() == old(Snapshot()).(anchors := old(anchors) + [AnchorObject(id, true)],
                                             testObjects := AddEntry(old(testObjects), TimedEntry(old(nextVisual), MaxLifeTime)),
                                             nextVisual := old(nextVisual) + 1)
    {
      var visual := nextVisual;
      nextVisual := visual + 1;
      anchors := anchors + [AnchorObject(id, true)];
      testObjects := AddEntry(testObjects, TimedEntry(visual, MaxLifeTime));
    }

    method PlaceGeospatialAnchor(rec: StoredRecord, f: Frame) returns (placed: bool)
      modifies this
      ensures placed == f.resolve(rec).Some?
      ensures Snapshot() == EmitSpec.PlaceGeospatialAnchor(old(Snapshot()), rec, f)
    {
      var resolved := f.resolve(rec);
      match resolved
      case None =>
        anchorMessage := AnchorSetFailed;
        placed := false;
      case Some(id) =>
        ghost var s0 := Snapshot();
        RegisterAnchor(id);
        ghost var s1 := Snapshot();
        StartCheckTerrainAnchorState(id, f.terrain(id));
        assert Snapshot() == StartPoller(s1, id, f.terrain(id));
        assert s1 == s0.(anchors := s0.anchors + [AnchorObject(id, true)],
                         testObjects := AddEntry(s0.testObjects, TimedEntry(s0.nextVisual, MaxLifeTime)),
                         nextVisual := s0.nextVisual + 1);
        placed := true;
    }

    method PlaceAnchorByScreenTap(f: Frame) returns (o: Outcome)
      modifies this
      ensures Snapshot() == EmitSpec.PlaceByScreenTap(old(Snapshot()), f).state
      ensures o == EmitSpec.PlaceByScreenTap(old(Snapshot()), f).outcome
    {
      if f.tapHit.None? {
        return Completed;
      }
      var hit := f.tapHit.value;
      var rec := NewRecordNow(f.now, hit.latitude, hit.longitude, hit.altitude, hit.eunRotation);
      var placed := PlaceGeospatialAnchor(rec, f);
      o := if placed then Faulted(NullHistoryCollection) else Completed;
    }

    /** A hold past `fingerDelayMax`: mark it and raise `PlaceObjectEvent` when something listens. */
    method TriggerHold(f: Frame, placeSubscribed: bool) returns (o: Outcome)
      modifies this
      ensures Snapshot() == TriggerStep(old(Snapshot()), f, placeSubscribed).state
      ensures o == TriggerStep(old(Snapshot()), f, placeSubscribed).outcome
    {
      fingerTriggered := true;
      o := Completed;
      if placeSubscribed {
        o := PlaceAnchorByScreenTap(f);
      }
    }

    /** The first part of `Update`: the finger-hold timer. */
    method FingerTimer(f: Frame, placeSubscribed: bool) returns (o: Outcome)
      modifies this
      ensures Snapshot() == FingerStep(old(Snapshot()), f, placeSubscribed).state
      ensures o == FingerStep(old(Snapshot()), f, placeSubscribed).outcome
    {
      ShowFingerDown();
      if fingerDown {
        o := HoldTimer(f, placeSubscribed);
      } else {
        ResetHold();
        o := Completed;
      }
    }

    /** The timer while the finger is down. */
    method HoldTimer(f: Frame, placeSubscribed: bool) returns (o: Outcome)
      modifies this
      ensures Snapshot() == HoldStep(old(Snapshot()), f, placeSubscribed).state
      ensures o == HoldStep(old(Snapshot()), f, placeSubscribed).outcome
    {
      ghost var s0 := Snapshot();
      AccumulateHold(f.dt);
      ghost var s2 := s0.(fingerDelay := s0.fingerDelay + f.dt);
      assert Snapshot() == s2;
      o := Completed;
      if fingerDelay > fingerDelayMax {
        o := TriggerHold(f, placeSubscribed);
        assert Snapshot() == TriggerStep(s2, f, placeSubscribed).state;
      }
    }

    /** `InfoHUD.IsFingerDown` mirrors `_bIsFingerDown`. */
    method ShowFingerDown()
      modifies this
      ensures Snapshot() == old(Snapshot()).(hudFingerDown := old(fingerDown))
    {
      hudFingerDown := fingerDown;
    }

    method AccumulateHold(dt: Delta)
      modifies this
      ensures Snapshot() == old(Snapshot()).(fingerDelay := old(fingerDelay) + dt)
    {
      fingerDelay := fingerDelay + dt;
    }

    method ResetHold()
      modifies this
      ensures Snapshot() == old(Snapshot()).(fingerDelay := 0.0, fingerTriggered := false)
    {
      fingerDelay := 0.0;
      fingerTriggered := false;
    }

    /** The sweep of `Update`, on the field `_testObjects`. */
    method SweepTestObjects(dt: Delta)
      modifies this
      ensures Snapshot() == Sweep(old(Snapshot()), dt)
    {
      testObjects := SweepLoop(testObjects, dt);
    }

    /** Unity's `Update`: the timer, then the sweep, which an exception in the timer part skips. */
    method Update(f: Frame, placeSubscribed: bool) returns (o: Outcome)
      modifies this
      ensures Snapshot() == EmitSpec.Update(old(Snapshot()), f, placeSubscribed).state
      ensures o == EmitSpec.Update(old(Snapshot()), f, placeSubscribed).outcome
    {
      o := FingerTimer(f, placeSubscribed);
      if o.Faulted? {
        return;
      }
      SweepTestObjects(f.dt);
    }
  }
}
