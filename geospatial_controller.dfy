/**
  `GeospatialController` as an object whose callbacks update its fields in
  place. Every method is proved to move the fields exactly as the matching
  function of `GeospatialSpec` says, so the properties proved there are
  properties of these methods.
 */
module GeospatialControllerModel {
  import opened ArTypes
  import opened AnchorHistory
  import opened HistoryStore
  import opened AnchorList
  import opened TerrainPoller
  import opened Localization
  import opened GeospatialSpec

  class GeospatialController {
    var isReturning: bool
    var isLocalizing: bool
    var enablingGeospatial: bool
    var shouldResolveHistory: bool
    var passedTime: real
    var prepareTime: real
    var geospatialMode: GeospatialMode
    var battleEnabled: bool
    var anchors: seq<AnchorObject>
    var pollers: seq<Poller>
    var history: seq<StoredRecord>
    var store: Option<seq<StoredRecord>>
    var snackBar: Message
    var quitRequested: bool
    var quitsScheduled: nat
    const componentsMissing: bool

    /** The fields as one value. */
    ghost function Snapshot(): Session
      reads this
    {
      Session(isReturning, isLocalizing, enablingGeospatial, shouldResolveHistory, passedTime, prepareTime,
              geospatialMode, battleEnabled, anchors, pollers, history, store, snackBar, quitRequested,
              quitsScheduled, componentsMissing)
    }

    /** The field initialisers; the Geospatial mode and the persisted key come from outside the controller. */
    constructor (mode: GeospatialMode, persisted: Option<seq<StoredRecord>>, missing: bool)
      ensures Snapshot() == Session(false, false, false, false, 0.0, PrepareSeconds, mode, false, [], [], [],
                                    persisted, NoMessage, false, 0, missing)
    {
      isReturning := false;
      isLocalizing := false;
      enablingGeospatial := false;
      shouldResolveHistory := false;
      passedTime := 0.0;
      prepareTime := PrepareSeconds;
      geospatialMode := mode;
      battleEnabled := false;
      anchors := [];
      pollers := [];
      history := [];
      store := persisted;
      snackBar := NoMessage;
      quitRequested := false;
      quitsScheduled := 0;
      componentsMissing := missing;
    }

    method ReturnWithReason(reason: Reason)
      modifies this
      ensures Snapshot() == GeospatialSpec.ReturnWithReason(old(Snapshot()), reason)
    {
      if reason == NoReason {
        return;
      }
      snackBar := ReasonText(reason);
      isReturning := true;
      quitsScheduled := quitsScheduled + 1;
    }

    method LifecycleUpdate(f: Frame)
      modifies this
      ensures Snapshot() == GeospatialSpec.LifecycleUpdate(old(Snapshot()), f)
    {
      if f.escapeUp {
        quitRequested := true;
      }
      if isReturning {
        return;
      }
      ReturnWithReason(LifecycleReason(f.sessionState, f.locationStatus, componentsMissing));
    }

    method SaveGeospatialAnchorHistory()
      modifies this
      ensures Snapshot() == GeospatialSpec.Save(old(Snapshot()))
    {
      history := SortNewestFirst(history, Created);
      if |history| > StorageLimit {
        history := history[..StorageLimit];
      }
      store := Option.Some(history);
    }

    method LoadGeospatialAnchorHistory(now: Ticks)
      modifies this
      ensures Snapshot() == GeospatialSpec.Load(old(Snapshot()), now)
    {
      if store.Some? {
        history := Pruned(store.value, now);
        store := Option.Some(history);
      } else {
        history := [];
      }
    }

    /** The effect of one coroutine resumption on the fields. */
    method ApplyPoll(id: AnchorId, state: TerrainAnchorState, e: Effect)
      modifies this
      ensures Snapshot() == GeospatialSpec.ApplyPoll(old(Snapshot()), id, state, e)
    {
      match e {
        case Idle =>
        case Cancelled =>
        case Dangling =>
        case Waiting(advise) =>
          if advise {
            snackBar := ResolvingTimeout;
          }
        case Finished(active, last) =>
          anchors := SetActive(anchors, id, active);
          if last == IsLastAnchor {
            snackBar := TerrainStateText(state);
          }
      }
    }

    /** `StartCoroutine(CheckTerrainAnchorState(anchor))`, which runs up to the coroutine's first wait. */
    method StartCheckTerrainAnchorState(id: AnchorId, state: TerrainAnchorState)
      modifies this
      ensures Snapshot() == GeospatialSpec.StartPoller(old(Snapshot()), id, state)
    {
      var r := Step(Start(id), state, anchors, isLocalizing, false);
      pollers := pollers + [r.poller];
      ApplyPoll(id, state, r.effect);
    }

    /** A later resumption of the `k`-th coroutine; `Faulted` where it throws. */
    method ResumeCheckTerrainAnchorState(k: nat, state: TerrainAnchorState, frameEnded: bool) returns (o: Outcome)
      requires k < |pollers|
      modifies this
      ensures Snapshot() == GeospatialSpec.ResumePoller(old(Snapshot()), k, state, frameEnded).session
      ensures o == GeospatialSpec.ResumePoller(old(Snapshot()), k, state, frameEnded).outcome
    {
      var p := pollers[k];
      var r := Step(p, state, anchors, isLocalizing, frameEnded);
      pollers := pollers[k := r.poller];
      ApplyPoll(p.anchor, state, r.effect);
      o := PollOutcome(r.effect);
    }

    method PlaceGeospatialAnchor(rec: StoredRecord, f: Frame) returns (placed: bool)
      modifies this
      ensures placed == f.resolve(rec).Some?
      ensures Snapshot() == GeospatialSpec.PlaceGeospatialAnchor(old(Snapshot()), rec, f)
    {
      match f.resolve(rec)
      case None =>
        snackBar := AnchorSetFailed;
        placed := false;
      case Some(id) =>
        AddAnchorObject(id);
        StartCheckTerrainAnchorState(id, f.terrain(id));
        snackBar := AnchorsSet(|anchors|);
        placed := true;
    }

    /** `_anchorObjects.Add` of a newly placed, active anchor. */
    method AddAnchorObject(id: AnchorId)
      modifies this
      ensures Snapshot() == old(Snapshot()).(anchors := old(anchors) + [AnchorObject(id, true)])
    {
      anchors := anchors + [AnchorObject(id, true)];
    }

    /** The `foreach` of `ResolveHistory`: place each record in turn. */
    method PlaceRecords(records: seq<StoredRecord>, f: Frame)
      modifies this
      ensures Snapshot() == PlaceAll(old(Snapshot()), records, f)
    {
      ghost var start := Snapshot();
      var i := 0;
      while i < |records|
        invariant 0 <= i <= |records|
        invariant Snapshot() == PlaceAll(start, records[..i], f)
      {
        var _ := PlaceGeospatialAnchor(records[i], f);
        assert records[..i + 1][..i] == records[..i];
        i := i + 1;
      }
      assert records[..|records|] == records;
    }

    method ResolveHistory(f: Frame)
      modifies this
      ensures Snapshot() == GeospatialSpec.ResolveHistory(old(Snapshot()), f)
    {
      if !shouldResolveHistory {
        return;
      }
      ghost var s0 := Snapshot();
      shouldResolveHistory := false;
      ghost var s1 := Snapshot();
      assert s1 == s0.(shouldResolveHistory := false);
      PlaceRecords(history, f);
      ghost var placed := Snapshot();
      assert placed == PlaceAll(s1, s0.history, f);
      snackBar := AnchorsFromHistory(|anchors|);
      assert Snapshot() == placed.(snackBar := AnchorsFromHistory(|placed.anchors|));
    }

    /** `_historyCollection.Collection.Add`. */
    method AddRecord(rec: StoredRecord)
      modifies this
      ensures Snapshot() == old(Snapshot()).(history := old(history) + [rec])
    {
      history := history + [rec];
    }

    /** Shared by the screen tap and the "Set Anchor" button. */
    method PlaceAndRecord(pose: GeospatialPose, f: Frame)
      modifies this
      ensures Snapshot() == GeospatialSpec.PlaceAndRecord(old(Snapshot()), pose, f)
    {
      var rec := NewRecordNow(f.now, pose.latitude, pose.longitude, pose.altitude, pose.eunRotation);
      var placed := PlaceGeospatialAnchor(rec, f);
      if placed {
        AddRecord(rec);
      }
      SaveGeospatialAnchorHistory();
    }

    method PlaceAnchorByScreenTap(f: Frame)
      modifies this
      ensures Snapshot() == PlaceByScreenTap(old(Snapshot()), f)
    {
      if f.tapHit.None? {
        return;
      }
      PlaceAndRecord(f.tapHit.value, f);
    }

    /** Entering localization: restart the clock and hide every anchor. */
    method StartLocalizing()
      modifies this
      ensures Snapshot() == old(Snapshot()).(isLocalizing := true, passedTime := 0.0, anchors := Deactivated(old(anchors)))
    {
      isLocalizing := true;
      passedTime := 0.0;
      anchors := DeactivateAll(anchors);
    }

    method LoseLocalization(f: Frame)
      modifies this
      ensures Snapshot() == LostStep(old(Snapshot()), f)
    {
      if !isLocalizing {
        StartLocalizing();
      }
      if passedTime > TimeoutSeconds {
        ReturnWithReason(LocalizationTimeout);
      } else {
        passedTime := passedTime + f.dt;
        snackBar := LocalizationInstruction;
      }
    }

    /** The first part of the regained-localization branch: stop localizing and show the settled anchors. */
    method ShowSettled(f: Frame)
      modifies this
      ensures Snapshot() == old(Snapshot()).(isLocalizing := false, passedTime := 0.0, snackBar := LocalizationSuccess,
                                             anchors := Reactivated(old(anchors), f.terrain))
    {
      ReactivateAnchors(f);
      isLocalizing := false;
      passedTime := 0.0;
      snackBar := LocalizationSuccess;
    }

    /** The regain loop over the anchor objects. */
    method ReactivateAnchors(f: Frame)
      modifies this
      ensures Snapshot() == old(Snapshot()).(anchors := Reactivated(old(anchors), f.terrain))
    {
      anchors := ReactivateSettled(anchors, f.terrain);
    }

    method FinishLocalization(f: Frame)
      modifies this
      ensures Snapshot() == RegainStep(old(Snapshot()), f)
    {
      ShowSettled(f);
      ResolveHistory(f);
    }

    /** `Update` from the earth-state check on. */
    method EarthAndLocalization(f: Frame)
      modifies this
      ensures Snapshot() == EarthStep(old(Snapshot()), f)
    {
      if f.earthState == ErrorEarthNotReady {
        snackBar := LocalizationInitializing;
        return;
      } else if f.earthState != EarthState.Enabled {
        snackBar := EarthStateError(f.earthState);
        return;
      }
      if ToleranceLost(f, GeospatialThresholds) {
        LoseLocalization(f);
      } else if isLocalizing {
        FinishLocalization(f);
      } else if f.tapBegan && !f.tapOverUi {
        if !battleEnabled {
          PlaceAnchorByScreenTap(f);
        }
      }
    }

    /** The countdown of the configuration wait; `waiting` is whether it ends the frame. */
    method CountDownPrepare(f: Frame) returns (waiting: bool)
      modifies this
      ensures waiting == StillPreparing(old(enablingGeospatial), old(prepareTime), f.dt)
      ensures waiting ==> Snapshot() == old(Snapshot()).(prepareTime := old(prepareTime) - f.dt)
      ensures !waiting ==> Snapshot() == PastWait(old(Snapshot()), f)
    {
      waiting := false;
      if enablingGeospatial {
        prepareTime := prepareTime - f.dt;
        if prepareTime < 0.0 {
          enablingGeospatial := false;
        } else {
          waiting := true;
        }
      }
    }

    /** The wait for a new configuration to take effect, then the earth-state check. */
    method PrepareAndEarth(f: Frame)
      modifies this
      ensures Snapshot() == PrepareStep(old(Snapshot()), f)
    {
      var waiting := CountDownPrepare(f);
      if waiting {
        return;
      }
      EarthAndLocalization(f);
    }

    /** The feature-support switch and what follows it. */
    method FeatureAndRest(f: Frame)
      modifies this
      ensures Snapshot() == FeatureStep(old(Snapshot()), f)
    {
      match f.featureSupport {
        case Unknown =>
          return;
        case Unsupported =>
          ReturnWithReason(GeospatialUnsupported);
          return;
        case Supported =>
          if geospatialMode == Disabled {
            geospatialMode := GeospatialMode.Enabled;
            prepareTime := PrepareSeconds;
            enablingGeospatial := true;
            return;
          }
      }
      PrepareAndEarth(f);
    }

    /** Unity's `Update`, with the corrected session guard. */
    method Update(f: Frame)
      modifies this
      ensures Snapshot() == Tick(old(Snapshot()), f)
    {
      LifecycleUpdate(f);
      if isReturning || !PassesSessionGuard(f.sessionState) {
        return;
      }
      FeatureAndRest(f);
    }

    /** Unity's `Update` as written: it goes on only when `_IsSessionInitialised` holds. */
    method UpdateAsWritten(f: Frame)
      modifies this
      ensures Snapshot() == TickAsWritten(old(Snapshot()), f)
    {
      LifecycleUpdate(f);
      if isReturning || !SessionInitialisedAsWritten(f.sessionState) {
        return;
      }
      FeatureAndRest(f);
    }

    /** The first part of `OnEnable`: clear the latches and start localizing. */
    method ResetForLocalizing()
      modifies this
      ensures Snapshot() == old(Snapshot()).(isReturning := false, enablingGeospatial := false, battleEnabled := false,
                                             passedTime := 0.0, isLocalizing := true, snackBar := Localizing)
    {
      ClearLatches();
      passedTime := 0.0;
      isLocalizing := true;
      snackBar := Localizing;
    }

    /** The return, configuration and battle latches all cleared. */
    method ClearLatches()
      modifies this
      ensures Snapshot() == old(Snapshot()).(isReturning := false, enablingGeospatial := false, battleEnabled := false)
    {
      isReturning := false;
      enablingGeospatial := false;
      battleEnabled := false;
    }

    method OnEnable(now: Ticks)
      modifies this
      ensures Snapshot() == GeospatialSpec.OnEnable(old(Snapshot()), now)
    {
      ResetForLocalizing();
      LoadGeospatialAnchorHistory(now);
      shouldResolveHistory := |history| > 0;
    }

    method OnDisable()
      modifies this
      ensures Snapshot() == GeospatialSpec.OnDisable(old(Snapshot()))
    {
      anchors := [];
      pollers := DestroyAnchors(pollers);
      SaveGeospatialAnchorHistory();
    }

    method OnClearAllClicked()
      modifies this
      ensures Snapshot() == OnClearAll(old(Snapshot()))
    {
      anchors := [];
      pollers := DestroyAnchors(pollers);
      history := [];
      snackBar := AnchorsCleared;
      SaveGeospatialAnchorHistory();
    }

    method OnSetAnchorClicked(f: Frame)
      modifies this
      ensures Snapshot() == OnSetAnchor(old(Snapshot()), f)
    {
      PlaceAndRecord(f.cameraPose, f);
    }

    method OnBattleModeClicked()
      modifies this
      ensures Snapshot() == OnBattleMode(old(Snapshot()))
    {
      if |anchors| != 1 {
        return;
      }
      battleEnabled := true;
    }
  }
}
