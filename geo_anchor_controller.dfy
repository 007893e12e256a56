/**
  `GeoAnchorController` as an object whose callbacks update its fields in
  place. Every method is proved to move the fields as the matching function
  of `GeoAnchorSpec` says; `OnAddAnchors_Clicked` also writes the emitter's
  flag.
 */
module GeoAnchorControllerModel {
  import opened ArTypes
  import opened AnchorHistory
  import opened AnchorList
  import opened TerrainPoller
  import opened Localization
  import opened GeoAnchorSpec
  import EmitObjectModel

  class GeoAnchorController {
    var inARView: bool
    var isReturning: bool
    var isLocalizing: bool
    var enablingGeospatial: bool
    var prepareTime: real
    var passedTime: real
    var shouldResolveHistory: bool
    var isAddingAnchors: bool
    var geospatialMode: GeospatialMode
    var anchors: seq<AnchorObject>
    var pollers: seq<Poller>
    var quitRequested: bool
    var quitsScheduled: nat
    const componentsMissing: bool
    /** `m_EmitObject`, found on the session origin in `Awake`. */
    const emitter: EmitObjectModel.Emitter

    /** The fields as one value. */
    ghost function Snapshot(): Geo
      reads this
    {
      Geo(inARView, isReturning, isLocalizing, enablingGeospatial, prepareTime, passedTime, shouldResolveHistory,
          isAddingAnchors, geospatialMode, anchors, pollers, quitRequested, quitsScheduled, componentsMissing)
    }

    /** The field initialisers and `Awake`. */
    constructor (mode: GeospatialMode, missing: bool, emit: EmitObjectModel.Emitter)
      ensures emitter == emit
      ensures Snapshot() == Initial(mode, missing)
    {
      inARView := false;
      isReturning := false;
      isLocalizing := false;
      enablingGeospatial := false;
      prepareTime := 0.0;
      passedTime := 0.0;
      shouldResolveHistory := false;
      isAddingAnchors := false;
      geospatialMode := mode;
      anchors := [];
      pollers := [];
      quitRequested := false;
      quitsScheduled := 0;
      componentsMissing := missing;
      emitter := emit;
    }

    method ReturnWithReason(reason: Reason)
      modifies this
      ensures Snapshot() == GeoAnchorSpec.ReturnWithReason(old(Snapshot()), reason)
    {
      if reason == NoReason {
        return;
      }
      isReturning := true;
      quitsScheduled := quitsScheduled + 1;
    }

    method LifeCycleUpdate(f: Frame)
      modifies this
      ensures Snapshot() == GeoAnchorSpec.LifeCycleUpdate(old(Snapshot()), f)
    {
      if f.escapeUp {
        quitRequested := true;
      }
      ReturnWithReason(LifecycleReason(f.sessionState, f.locationStatus, componentsMissing));
    }

    /** The effect of one coroutine resumption on the fields. */
    method ApplyPoll(id: AnchorId, e: Effect)
      modifies this
      ensures Snapshot() == GeoAnchorSpec.ApplyPoll(old(Snapshot()), id, e)
    {
      if e.Finished? {
        anchors := SetActive(anchors, id, e.active);
      }
    }

    method StartCheckTerrainAnchorState(id: AnchorId, state: TerrainAnchorState)
      modifies this
      ensures Snapshot() == GeoAnchorSpec.StartPoller(old(Snapshot()), id, state)
    {
      var r := Step(TerrainPoller.Start(id), state, anchors, isLocalizing, false);
      pollers := pollers + [r.poller];
      ApplyPoll(id, r.effect);
    }

    method ResumeCheckTerrainAnchorState(k: nat, state: TerrainAnchorState, frameEnded: bool) returns (o: Outcome)
      requires k < |pollers|
      modifies this
      ensures Snapshot() == GeoAnchorSpec.ResumePoller(old(Snapshot()), k, state, frameEnded).state
      ensures o == GeoAnchorSpec.ResumePoller(old(Snapshot()), k, state, frameEnded).outcome
    {
      var p := pollers[k];
      var r := Step(p, state, anchors, isLocalizing, frameEnded);
      pollers := pollers[k := r.poller];
      ApplyPoll(p.anchor, r.effect);
      o := PollOutcome(r.effect);
    }

    method PlaceGeospatialAnchor(rec: StoredRecord, f: Frame) returns (placed: bool)
      modifies this
      ensures placed == f.resolve(rec).Some?
      ensures Snapshot() == GeoAnchorSpec.PlaceGeospatialAnchor(old(Snapshot()), rec, f)
    {
      var resolved := f.resolve(rec);
      match resolved
      case None =>
        placed := false;
      case Some(id) =>
        anchors := anchors + [AnchorObject(id, true)];
        StartCheckTerrainAnchorState(id, f.terrain(id));
        placed := true;
    }

    method PlaceAnchorByScreenTap(f: Frame) returns (o: Outcome)
      modifies this
      ensures Snapshot() == GeoAnchorSpec.PlaceByScreenTap(old(Snapshot()), f).state
      ensures o == GeoAnchorSpec.PlaceByScreenTap(old(Snapshot()), f).outcome
    {
      if f.tapHit.None? {
        return Completed;
      }
      var hit := f.tapHit.value;
      var rec := NewRecordNow(f.now, hit.latitude, hit.longitude, hit.altitude, hit.eunRotation);
      var placed := PlaceGeospatialAnchor(rec, f);
      o := if placed then Faulted(NullHistoryCollection) else Completed;
    }

    method ResolveHistory() returns (o: Outcome)
      modifies this
      ensures Snapshot() == GeoAnchorSpec.ResolveHistory(old(Snapshot())).state
      ensures o == GeoAnchorSpec.ResolveHistory(old(Snapshot())).outcome
    {
      if !shouldResolveHistory {
        return Completed;
      }
      shouldResolveHistory := false;
      o := Faulted(NullHistoryCollection);
    }

    /** Entering localization: restart the clock and hide every anchor. */
    method StartLocalizing()
      modifies this
      ensures Snapshot() == old(Snapshot()).(isLocalizing := true, passedTime := 0.0, anchors := Deactivated(old(anchors)))
    {
      isLocalizing := true;
      passedTime := 0.0;
      anchors := DeactivateAll(anchors);
    }

    method LoseLocalization(f: Frame)
      modifies this
      ensures Snapshot() == LostStep(old(Snapshot()), f)
    {
      if !isLocalizing {
        StartLocalizing();
      }
      passedTime := passedTime + f.dt;
      if passedTime > TimeoutSeconds {
        ReturnWithReason(LocalizationTimeout);
      }
    }

    /** The regain loop over the anchor objects. */
    method ReactivateAnchors(f: Frame)
      modifies this
      ensures Snapshot() == old(Snapshot()).(anchors := Reactivated(old(anchors), f.terrain))
    {
      anchors := ReactivateSettled(anchors, f.terrain);
    }

    method FinishLocalization(f: Frame) returns (o: Outcome)
      modifies this
      ensures Snapshot() == RegainStep(old(Snapshot()), f).state
      ensures o == RegainStep(old(Snapshot()), f).outcome
    {
      ReactivateAnchors(f);
      isLocalizing := false;
      passedTime := 0.0;
      o := ResolveHistory();
    }

    /** `Update` from the earth-state check on. */
    method EarthAndLocalization(f: Frame) returns (o: Outcome)
      modifies this
      ensures Snapshot() == EarthStep(old(Snapshot()), f).state
      ensures o == EarthStep(old(Snapshot()), f).outcome
    {
      o := Completed;
      if f.earthState != EarthState.Enabled {
        return;
      }
      if ToleranceLost(f, GeoAnchorThresholds) {
        LoseLocalization(f);
      } else if isLocalizing {
        o := FinishLocalization(f);
      } else if f.tapBegan && !f.tapOverUi {
        o := PlaceAnchorByScreenTap(f);
      }
    }

    /** The countdown of the configuration wait; `waiting` is whether it ends the frame. */
    method CountDownPrepare(f: Frame) returns (waiting: bool)
      modifies this
      ensures waiting == StillPreparing(old(enablingGeospatial), old(prepareTime), f.dt)
      ensures waiting ==> Snapshot() == old(Snapshot()).(prepareTime := old(prepareTime) - f.dt)
      ensures !waiting ==> Snapshot() == PastWait(old(Snapshot()), f)
    {
      waiting := false;
      if enablingGeospatial {
        prepareTime := prepareTime - f.dt;
        if prepareTime < 0.0 {
          enablingGeospatial := false;
        } else {
          waiting := true;
        }
      }
    }

    /** The wait for the new configuration, then the earth-state check. */
    method PrepareAndEarth(f: Frame) returns (o: Outcome)
      modifies this
      ensures Snapshot() == PrepareStep(old(Snapshot()), f).state
      ensures o == PrepareStep(old(Snapshot()), f).outcome
    {
      var waiting := CountDownPrepare(f);
      if waiting {
        return Completed;
      }
      o := EarthAndLocalization(f);
    }

    /** `IsFeatureSupported` and what follows it. */
    method FeatureAndRest(f: Frame) returns (o: Outcome)
      modifies this
      ensures Snapshot() == FeatureStep(old(Snapshot()), f).state
      ensures o == FeatureStep(old(Snapshot()), f).outcome
    {
      match f.featureSupport {
        case Unknown =>
          return Completed;
        case Unsupported =>
          ReturnWithReason(GeospatialUnsupported);
          return Completed;
        case Supported =>
          if componentsMissing {
            return Faulted(NullCoreExtensions);
          }
          if geospatialMode == Disabled {
            geospatialMode := GeospatialMode.Enabled;
            prepareTime := PrepareSeconds;
            enablingGeospatial := true;
            return Completed;
          }
      }
      o := PrepareAndEarth(f);
    }

    /** Unity's `Update`, with `m_IsReturning` tested again after the lifecycle check. */
    method Update(f: Frame) returns (o: Outcome)
      modifies this
      ensures Snapshot() == Tick(old(Snapshot()), f).state
      ensures o == Tick(old(Snapshot()), f).outcome
    {
      o := Completed;
      if !inARView || isReturning {
        return;
      }
      LifeCycleUpdate(f);
      if isReturning || !PassesSessionGuard(f.sessionState) {
        return;
      }
      o := FeatureAndRest(f);
    }

    /** Unity's `Update` as written: `m_IsReturning` is tested only before `LifeCycleUpdate`. */
    method UpdateAsWritten(f: Frame) returns (o: Outcome)
      modifies this
      ensures Snapshot() == TickAsWritten(old(Snapshot()), f).state
      ensures o == TickAsWritten(old(Snapshot()), f).outcome
    {
      o := Completed;
      if !inARView || isReturning {
        return;
      }
      LifeCycleUpdate(f);
      if !PassesSessionGuard(f.sessionState) {
        return;
      }
      o := FeatureAndRest(f);
    }

    method OnEnable()
      modifies this
      ensures Snapshot() == GeoAnchorSpec.OnEnable(old(Snapshot()))
    {
      isReturning := false;
      enablingGeospatial := false;
      isLocalizing := true;
      inARView := true;
    }

    method OnClearAnchorsClicked()
      modifies this
      ensures Snapshot() == OnClearAnchors(old(Snapshot()))
    {
      anchors := [];
      pollers := DestroyAnchors(pollers);
    }

    method OnAddAnchorsClicked()
      modifies this, emitter
      ensures Snapshot() == OnAddAnchors(Pair(old(Snapshot()), old(emitter.Snapshot()))).geo
      ensures emitter.Snapshot() == OnAddAnchors(Pair(old(Snapshot()), old(emitter.Snapshot()))).emitter
    {
      isAddingAnchors := !isAddingAnchors;
      emitter.isEmittingEnabled := !isAddingAnchors;
    }
  }
}
