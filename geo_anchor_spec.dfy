/**
  The state of `GeoAnchorController` and what each of its Unity callbacks
  does to it. A callback may end in an exception (the history collection is
  never assigned; the core extensions may be missing), so each step yields
  the new state together with an `Outcome`. The class in
  `GeoAnchorControllerModel` carries the same fields and follows these
  functions.
 */
module GeoAnchorSpec {
  import opened ArTypes
  import opened AnchorHistory
  import opened AnchorList
  import opened TerrainPoller
  import opened Localization
  import EmitSpec

  /** The fields of `GeoAnchorController` the core reads and writes. */
  datatype Geo = Geo(
    inARView: bool,                           // m_IsInARView
    isReturning: bool,                        // m_IsReturning
    isLocalizing: bool,                       // m_isLocalizing
    enablingGeospatial: bool,                 // m_EnablingGeospatial
    prepareTime: real,                        // m_configurePrepareTime
    passedTime: real,                         // _localizationPassedTime
    shouldResolveHistory: bool,               // _shouldResolvingHistory
    isAddingAnchors: bool,                    // m_isAddingAnchors
    geospatialMode: GeospatialMode,           // ARCoreExtensionsConfig.GeospatialMode
    anchors: seq<AnchorObject>,               // m_anchorObjects
    pollers: seq<Poller>,                     // the started Co_CheckTerrainAnchorState coroutines
    quitRequested: bool,                      // Application.Quit has been called
    quitsScheduled: nat,                      // Invoke(QuitApplication, 3 s) calls made
    componentsMissing: bool)                  // m_coreExtensions == null

  /** A state after a callback, and whether the callback ran to its end. */
  datatype Stepped = Stepped(state: Geo, outcome: Outcome)

  /** The field initialisers; the Geospatial mode and the component lookup come from outside the controller. */
  function Initial(mode: GeospatialMode, missing: bool): (g: Geo)
    ensures !g.inARView && !g.isReturning && !g.isLocalizing && !g.enablingGeospatial && !g.shouldResolveHistory
    ensures g.anchors == [] && g.pollers == [] && g.quitsScheduled == 0 && g.passedTime == 0.0
  {
    Geo(false, false, false, false, 0.0, 0.0, false, false, mode, [], [], false, 0, missing)
  }

  /** `ReturnWithReason`: an empty reason does nothing; otherwise latch `m_IsReturning` and schedule the quit. */
  function ReturnWithReason(s: Geo, reason: Reason): (t: Geo)
    ensures reason == NoReason ==> t == s
    ensures reason != NoReason ==> t == s.(isReturning := true, quitsScheduled := s.quitsScheduled + 1)
  {
    if reason == NoReason then s else s.(isReturning := true, quitsScheduled := s.quitsScheduled + 1)
  }

  /** `LifeCycleUpdate`: the escape key quits at once; then return with the lifecycle reason, if any. */
  function LifeCycleUpdate(s: Geo, f: Frame): Geo {
    var s1 := if f.escapeUp then s.(quitRequested := true) else s;
    ReturnWithReason(s1, LifecycleReason(f.sessionState, f.locationStatus, s.componentsMissing))
  }

  // ---------------------------------------------------------------------------
  // Anchors and the terrain poller

  /** How one resumption of `Co_CheckTerrainAnchorState` acts on the controller: its messages are commented out. */
  function ApplyPoll(s: Geo, id: AnchorId, e: Effect): Geo {
    s.(anchors := PolledAnchors(s.anchors, id, e))
  }

  /** `StartCoroutine(Co_CheckTerrainAnchorState(anchor))`: the first resumption runs at once. */
  function StartPoller(s: Geo, id: AnchorId, state: TerrainAnchorState): Geo {
    var r := Step(Start(id), state, s.anchors, s.isLocalizing, false);
    ApplyPoll(s.(pollers := s.pollers + [r.poller]), id, r.effect)
  }

  /** A later resumption of the `k`-th coroutine; `Last()` throws on an empty list. */
  function ResumePoller(s: Geo, k: nat, state: TerrainAnchorState, frameEnded: bool): Stepped
    requires k < |s.pollers|
  {
    var r := Step(s.pollers[k], state, s.anchors, s.isLocalizing, frameEnded);
    Stepped(ApplyPoll(s.(pollers := s.pollers[k := r.poller]), s.pollers[k].anchor, r.effect), PollOutcome(r.effect))
  }

  /** `PlaceGeospatialAnchor`: a resolved anchor is listed (active) and its coroutine started; otherwise nothing. */
  function PlaceGeospatialAnchor(s: Geo, rec: StoredRecord, f: Frame): Geo {
    match f.resolve(rec)
    case None => s
    case Some(id) => StartPoller(s.(anchors := s.anchors + [AnchorObject(id, true)]), id, f.terrain(id))
  }

  /**
    `PlaceAnchorByScreenTap`: place an anchor where the raycast hit; a resolved
    anchor is then added to `m_historyCollection`, which is never assigned, so
    the call throws after the anchor has been placed.
   */
  function PlaceByScreenTap(s: Geo, f: Frame): Stepped {
    match f.tapHit
    case None => Stepped(s, Completed)
    case Some(hit) =>
      var rec := NewRecordNow(f.now, hit.latitude, hit.longitude, hit.altitude, hit.eunRotation);
      var s1 := PlaceGeospatialAnchor(s, rec, f);
      if f.resolve(rec).Some? then Stepped(s1, Faulted(NullHistoryCollection)) else Stepped(s1, Completed)
  }

  /**
    `ResolveHistory`: with the flag set, clear it and walk
    `m_historyCollection.Collection`, which throws because the collection is
    never assigned. Nothing ever sets the flag.
   */
  function ResolveHistory(s: Geo): Stepped {
    if !s.shouldResolveHistory then Stepped(s, Completed)
    else Stepped(s.(shouldResolveHistory := false), Faulted(NullHistoryCollection))
  }

  // ---------------------------------------------------------------------------
  // Update

  /** The lost-localization branch: count this frame first, then test the timeout. */
  function LostStep(s: Geo, f: Frame): Geo {
    var s1 := if !s.isLocalizing then s.(isLocalizing := true, passedTime := 0.0, anchors := Deactivated(s.anchors)) else s;
    var s2 := s1.(passedTime := s1.passedTime + f.dt);
    if s2.passedTime > TimeoutSeconds then ReturnWithReason(s2, LocalizationTimeout) else s2
  }

  /** The regained-localization branch. */
  function RegainStep(s: Geo, f: Frame): Stepped {
    ResolveHistory(s.(isLocalizing := false, passedTime := 0.0, anchors := Reactivated(s.anchors, f.terrain)))
  }

  /** The localization branch of `Update`, with the 25 m horizontal bound. */
  function LocalizationStep(s: Geo, f: Frame): Stepped {
    if ToleranceLost(f, GeoAnchorThresholds) then Stepped(LostStep(s, f), Completed)
    else if s.isLocalizing then RegainStep(s, f)
    else if f.tapBegan && !f.tapOverUi then PlaceByScreenTap(s, f)
    else Stepped(s, Completed)
  }

  /** `IsEarthEnabled`: any Earth state other than `Enabled` ends the frame (it is only logged). */
  function EarthStep(s: Geo, f: Frame): Stepped {
    if f.earthState != EarthState.Enabled then Stepped(s, Completed) else LocalizationStep(s, f)
  }

  /**
    The state a frame goes on with past the wait: the countdown run out and
    cleared, or no wait at all. The wait itself is `Localization.StillPreparing`;
    this is its update on this controller's own record.
   */
  function PastWait(s: Geo, f: Frame): (t: Geo)
    requires !StillPreparing(s.enablingGeospatial, s.prepareTime, f.dt)
    ensures !t.enablingGeospatial
    ensures s.enablingGeospatial ==> t == s.(prepareTime := s.prepareTime - f.dt, enablingGeospatial := false)
    ensures !s.enablingGeospatial ==> t == s
  {
    if s.enablingGeospatial then s.(prepareTime := s.prepareTime - f.dt, enablingGeospatial := false) else s
  }

  /** The wait for a new configuration: the frame goes on only once the countdown is below zero. */
  function PrepareStep(s: Geo, f: Frame): Stepped {
    if StillPreparing(s.enablingGeospatial, s.prepareTime, f.dt) then Stepped(s.(prepareTime := s.prepareTime - f.dt), Completed)
    else EarthStep(PastWait(s, f), f)
  }

  /**
    `IsFeatureSupported` and what follows it. `Supported` reads
    `m_coreExtensions.ARCoreExtensionsConfig`, which throws when the
    component is missing.
   */
  function FeatureStep(s: Geo, f: Frame): Stepped {
    match f.featureSupport
    case Unknown => Stepped(s, Completed)
    case Unsupported => Stepped(ReturnWithReason(s, GeospatialUnsupported), Completed)
    case Supported =>
      if s.componentsMissing then Stepped(s, Faulted(NullCoreExtensions))
      else if s.geospatialMode == Disabled then
        Stepped(s.(geospatialMode := GeospatialMode.Enabled, prepareTime := PrepareSeconds, enablingGeospatial := true), Completed)
      else PrepareStep(s, f)
  }

  /**
    `Update` as written: `m_IsReturning` is tested before `LifeCycleUpdate`,
    so a frame on which the lifecycle check latches it still goes on.
   */
  function TickAsWritten(s: Geo, f: Frame): Stepped {
    if !s.inARView || s.isReturning then Stepped(s, Completed)
    else
      var s1 := LifeCycleUpdate(s, f);
      if !PassesSessionGuard(f.sessionState) then Stepped(s1, Completed) else FeatureStep(s1, f)
  }

  /** `Update` with the test of `m_IsReturning` also made after `LifeCycleUpdate`, as `GeospatialController` does. */
  function Tick(s: Geo, f: Frame): Stepped {
    if !s.inARView || s.isReturning then Stepped(s, Completed)
    else
      var s1 := LifeCycleUpdate(s, f);
      if s1.isReturning || !PassesSessionGuard(f.sessionState) then Stepped(s1, Completed) else FeatureStep(s1, f)
  }

  // ---------------------------------------------------------------------------
  // UI and enable events

  /** `OnEnable`: clear the return latch and the configuration wait, start localizing, enter the AR view. */
  function OnEnable(s: Geo): Geo {
    s.(isReturning := false, enablingGeospatial := false, isLocalizing := true, inARView := true)
  }

  /** `OnClearAnchors_Clicked`: destroy and forget every anchor object; the coroutines go on. */
  function OnClearAnchors(s: Geo): Geo {
    s.(anchors := [], pollers := DestroyAnchors(s.pollers))
  }

  /** The controller and the `EmitObject` next to it. */
  datatype Pair = Pair(geo: Geo, emitter: EmitSpec.Emit)

  /** `OnAddAnchors_Clicked`: toggle build mode, and let the emitter fire exactly when not building. */
  function OnAddAnchors(p: Pair): Pair {
    var adding := !p.geo.isAddingAnchors;
    Pair(p.geo.(isAddingAnchors := adding), p.emitter.(isEmittingEnabled := !adding))
  }

  // ---------------------------------------------------------------------------
  // Properties

  /** The frame gets past the lifecycle check, the session guard and the feature check without stopping. */
  predicate Clear(s: Geo, f: Frame) {
    && s.inARView
    && !s.isReturning
    && LifecycleReason(f.sessionState, f.locationStatus, s.componentsMissing) == NoReason
    && PassesSessionGuard(f.sessionState)
    && f.featureSupport == Supported
    && s.geospatialMode == GeospatialMode.Enabled
  }

  /** The frame reaches the localization branch. */
  predicate ReachesLocalization(s: Geo, f: Frame) {
    Clear(s, f) && !s.enablingGeospatial && f.earthState == EarthState.Enabled
  }

  /** What the lifecycle check leaves on a frame without a reason to return. */
  function Escaped(s: Geo, f: Frame): Geo {
    if f.escapeUp then s.(quitRequested := true) else s
  }

  lemma TickReaches(s: Geo, f: Frame)
    requires ReachesLocalization(s, f)
    ensures Tick(s, f) == LocalizationStep(Escaped(s, f), f)
  {
  }

  /** A lifecycle check that finds no reason to return leaves the latch and the scheduled quits as they were. */
  lemma EmptyReasonDoesNotReturn(s: Geo, f: Frame)
    requires LifecycleReason(f.sessionState, f.locationStatus, s.componentsMissing) == NoReason
    ensures LifeCycleUpdate(s, f) == Escaped(s, f)
    ensures LifeCycleUpdate(s, f).isReturning == s.isReturning && LifeCycleUpdate(s, f).quitsScheduled == s.quitsScheduled
  {
  }

  /** Out of the AR view, or once returning, `Update` does nothing at all (the escape key is not even read). */
  lemma IdleWhenReturningOrHidden(s: Geo, f: Frame)
    requires !s.inARView || s.isReturning
    ensures Tick(s, f) == Stepped(s, Completed)
    ensures TickAsWritten(s, f) == Stepped(s, Completed)
  {
  }

  /** The corrected tick ends as soon as the lifecycle check latches, having scheduled one quit. */
  lemma LatchEndsTick(s: Geo, f: Frame)
    requires s.inARView && !s.isReturning
    requires LifecycleReason(f.sessionState, f.locationStatus, s.componentsMissing) != NoReason
    ensures Tick(s, f) == Stepped(Escaped(s, f).(isReturning := true, quitsScheduled := s.quitsScheduled + 1), Completed)
  {
  }

  /** Both ticks agree on every frame whose lifecycle check finds no reason to return. */
  lemma TicksAgreeWithoutReason(s: Geo, f: Frame)
    requires LifecycleReason(f.sessionState, f.locationStatus, s.componentsMissing) == NoReason
    ensures TickAsWritten(s, f) == Tick(s, f)
  {
  }

  /**
    As written, a missing `ARCoreExtensions` component makes the first tracking
    frame with Geospatial support throw: the lifecycle check latches the return,
    and the frame goes on to read the missing component's configuration.
   */
  lemma AsWrittenMissingExtensionsThrows(s: Geo, f: Frame)
    requires s.inARView && !s.isReturning && s.componentsMissing
    requires f.sessionState == SessionTracking && f.locationStatus == Running && f.featureSupport == Supported
    ensures TickAsWritten(s, f).outcome == Faulted(NullCoreExtensions)
    ensures TickAsWritten(s, f).state.isReturning
    ensures Tick(s, f).outcome == Completed
  {
  }

  /** As written, a failed location service on an unsupported device schedules two quits in the same frame. */
  lemma AsWrittenSchedulesTwoQuits(s: Geo, f: Frame)
    requires s.inARView && !s.isReturning
    requires f.sessionState == SessionTracking && f.locationStatus == Failed && f.featureSupport == FeatureSupported.Unsupported
    ensures TickAsWritten(s, f).state.quitsScheduled == s.quitsScheduled + 2
    ensures Tick(s, f).state.quitsScheduled == s.quitsScheduled + 1
  {
  }

  /** The feature check, case by case, on a frame that reaches it. */
  lemma FeatureCases(s: Geo, f: Frame)
    requires s.inARView && !s.isReturning && PassesSessionGuard(f.sessionState)
    requires LifecycleReason(f.sessionState, f.locationStatus, s.componentsMissing) == NoReason
    ensures f.featureSupport == Unknown ==> Tick(s, f) == Stepped(Escaped(s, f), Completed)
    ensures f.featureSupport == FeatureSupported.Unsupported ==>
              Tick(s, f) == Stepped(Escaped(s, f).(isReturning := true, quitsScheduled := s.quitsScheduled + 1), Completed)
    ensures f.featureSupport == Supported && s.geospatialMode == Disabled ==>
              Tick(s, f) == Stepped(Escaped(s, f).(geospatialMode := GeospatialMode.Enabled, prepareTime := PrepareSeconds,
                                                  enablingGeospatial := true), Completed)
    ensures f.featureSupport == Supported && s.geospatialMode != Disabled ==> Tick(s, f) == PrepareStep(Escaped(s, f), f)
  {
  }

  /** While the configuration countdown stays at or above zero the frame ends after counting it down. */
  lemma PrepareHolds(s: Geo, f: Frame)
    requires Clear(s, f) && s.enablingGeospatial && s.prepareTime - f.dt >= 0.0
    ensures Tick(s, f) == Stepped(Escaped(s, f).(prepareTime := s.prepareTime - f.dt), Completed)
  {
  }

  /** The frame on which the countdown drops below zero clears the wait and goes on to the Earth check. */
  lemma PrepareReleases(s: Geo, f: Frame)
    requires Clear(s, f) && s.enablingGeospatial && s.prepareTime - f.dt < 0.0
    ensures Tick(s, f) == EarthStep(Escaped(s, f).(prepareTime := s.prepareTime - f.dt, enablingGeospatial := false), f)
  {
    EmptyReasonDoesNotReturn(s, f);
    assert Tick(s, f) == PrepareStep(Escaped(s, f), f);
  }

  /** `run` is a trace of consecutive ticks with the same frame `f`. */
  predicate IsRun(run: seq<Geo>, f: Frame) {
    forall i :: 0 <= i < |run| - 1 ==> run[i + 1] == Tick(run[i], f).state
  }

  /** Starting the countdown at three seconds, frame `k` still waits with `3 - k * dt` left while that is not negative. */
  lemma {:induction false} PrepareCountsDown(run: seq<Geo>, f: Frame, k: nat)
    requires IsRun(run, f) && k < |run|
    requires Clear(run[0], f) && run[0].enablingGeospatial && run[0].prepareTime == PrepareSeconds
    requires k as real * f.dt <= PrepareSeconds
    ensures Clear(run[k], f) && run[k].enablingGeospatial && run[k].prepareTime == PrepareSeconds - k as real * f.dt
    decreases k
  {
    if k > 0 {
      assert (k - 1) as real * f.dt <= k as real * f.dt;
      PrepareCountsDown(run, f, k - 1);
      PrepareHolds(run[k - 1], f);
      assert PrepareSeconds - (k - 1) as real * f.dt - f.dt == PrepareSeconds - k as real * f.dt;
    }
  }

  /** With one-second frames the wait lasts four frames: the fourth clears it (the test is strictly below zero). */
  lemma PrepareTakesFourSecondFrames(run: seq<Geo>, f: Frame)
    requires IsRun(run, f) && |run| > 4 && f.dt == 1.0
    requires Clear(run[0], f) && run[0].enablingGeospatial && run[0].prepareTime == PrepareSeconds
    ensures run[3].enablingGeospatial && run[3].prepareTime == 0.0
    ensures !run[4].enablingGeospatial
  {
    PrepareCountsDown(run, f, 3);
    PrepareReleases(run[3], f);
    var s := Escaped(run[3], f).(prepareTime := -1.0, enablingGeospatial := false);
    if f.earthState == EarthState.Enabled {
      LocalizationStepKeepsConfiguration(s, f);
    }
  }

  /** The localization branch never touches the configuration wait. */
  lemma LocalizationStepKeepsConfiguration(s: Geo, f: Frame)
    ensures LocalizationStep(s, f).state.enablingGeospatial == s.enablingGeospatial
    ensures LocalizationStep(s, f).state.geospatialMode == s.geospatialMode
  {
    if ToleranceLost(f, GeoAnchorThresholds) {
      assert LocalizationStep(s, f).state == LostStep(s, f);
    } else if s.isLocalizing {
      assert LocalizationStep(s, f) == RegainStep(s, f);
    } else if f.tapBegan && !f.tapOverUi {
      TapKeepsConfiguration(s, f);
    }
  }

  /** A screen tap changes neither the configuration wait, nor the Geospatial mode, nor the replay flag. */
  lemma TapKeepsConfiguration(s: Geo, f: Frame)
    ensures PlaceByScreenTap(s, f).state.enablingGeospatial == s.enablingGeospatial
    ensures PlaceByScreenTap(s, f).state.geospatialMode == s.geospatialMode
    ensures PlaceByScreenTap(s, f).state.shouldResolveHistory == s.shouldResolveHistory
  {
    if f.tapHit.Some? {
      var hit := f.tapHit.value;
      PlaceKeeps(s, NewRecordNow(f.now, hit.latitude, hit.longitude, hit.altitude, hit.eunRotation), f);
    }
  }

  /** A resumption changes only the list's flags. */
  lemma ApplyPollKeeps(s: Geo, id: AnchorId, e: Effect)
    ensures var t := ApplyPoll(s, id, e);
            t == s.(anchors := t.anchors) && Ids(t.anchors) == Ids(s.anchors)
  {
  }

  /** Starting a coroutine changes only the list's flags and the coroutines. */
  lemma StartPollerKeeps(s: Geo, id: AnchorId, state: TerrainAnchorState)
    ensures var t := StartPoller(s, id, state);
            t == s.(anchors := t.anchors, pollers := t.pollers) && Ids(t.anchors) == Ids(s.anchors)
            && |t.pollers| == |s.pollers| + 1 && t.pollers[|s.pollers|].anchor == id
  {
    var r := Step(Start(id), state, s.anchors, s.isLocalizing, false);
    ApplyPollKeeps(s.(pollers := s.pollers + [r.poller]), id, r.effect);
  }

  /** A placement appends the resolved anchor, and a coroutine watching it, and changes nothing else. */
  lemma PlaceKeeps(s: Geo, rec: StoredRecord, f: Frame)
    ensures var t := PlaceGeospatialAnchor(s, rec, f);
            t == s.(anchors := t.anchors, pollers := t.pollers)
            && match f.resolve(rec)
               case None => t == s
               case Some(id) => Ids(t.anchors) == Ids(s.anchors) + [id]
                                && |t.pollers| == |s.pollers| + 1 && t.pollers[|s.pollers|].anchor == id
  {
    match f.resolve(rec)
    case None =>
    case Some(id) =>
      StartPollerKeeps(s.(anchors := s.anchors + [AnchorObject(id, true)]), id, f.terrain(id));
      IdsAppend(s.anchors, AnchorObject(id, true));
  }

  /**
    A tap on the scene while localized places an anchor at the hit; when it
    resolves, the anchor is listed and then the tap throws on the missing
    history collection.
   */
  lemma TapPlacesThenThrows(s: Geo, f: Frame)
    requires ReachesLocalization(s, f) && !ToleranceLost(f, GeoAnchorThresholds) && !s.isLocalizing
    requires f.tapBegan && !f.tapOverUi && f.tapHit.Some?
    ensures var hit := f.tapHit.value;
            var rec := NewRecordNow(f.now, hit.latitude, hit.longitude, hit.altitude, hit.eunRotation);
            var r := Tick(s, f);
            (r.outcome == Faulted(NullHistoryCollection) <==> f.resolve(rec).Some?)
            && (r.outcome == Completed <==> f.resolve(rec).None?)
            && Ids(r.state.anchors) == Ids(s.anchors) + (match f.resolve(rec) case None => [] case Some(id) => [id])
  {
    var hit := f.tapHit.value;
    TickReaches(s, f);
    PlaceKeeps(Escaped(s, f), NewRecordNow(f.now, hit.latitude, hit.longitude, hit.altitude, hit.eunRotation), f);
  }

  /** Losing tolerance while localized: start localizing, hide every anchor, and count this frame from zero. */
  lemma LostWhileLocalized(s: Geo, f: Frame)
    requires ReachesLocalization(s, f) && ToleranceLost(f, GeoAnchorThresholds) && !s.isLocalizing
    ensures var t := Tick(s, f).state;
            t.isLocalizing && t.passedTime == f.dt && t.anchors == Deactivated(s.anchors)
            && (t.isReturning <==> f.dt > TimeoutSeconds)
  {
    TickReaches(s, f);
  }

  /** Regaining tolerance: stop localizing, reset the timer, show the settled anchors; with no replay armed it completes. */
  lemma RegainShowsSettled(s: Geo, f: Frame)
    requires ReachesLocalization(s, f) && !ToleranceLost(f, GeoAnchorThresholds) && s.isLocalizing
    ensures var r := Tick(s, f);
            !r.state.isLocalizing && r.state.passedTime == 0.0 && r.state.anchors == Reactivated(s.anchors, f.terrain)
            && !r.state.shouldResolveHistory
            && (r.outcome == Completed <==> !s.shouldResolveHistory)
  {
    TickReaches(s, f);
  }

  /** The lost-localization frames of a run: the tick reaches the branch and the tolerance stays lost. */
  predicate LostRun(s: Geo, f: Frame) {
    ReachesLocalization(s, f) && ToleranceLost(f, GeoAnchorThresholds) && s.isLocalizing
  }

  /** One lost frame while localizing adds its delta, and returns exactly when that passes the timeout. */
  lemma LostTick(s: Geo, f: Frame)
    requires LostRun(s, f)
    ensures var t := Tick(s, f).state;
            t.passedTime == s.passedTime + f.dt && t.isLocalizing
            && t == Escaped(s, f).(passedTime := t.passedTime, isReturning := t.isReturning, quitsScheduled := t.quitsScheduled)
            && (t.isReturning <==> s.passedTime + f.dt > TimeoutSeconds)
  {
    TickReaches(s, f);
  }

  /** From a fresh count, frame `k` of a lost run has counted `k * dt`, and returns exactly when that exceeds the timeout. */
  lemma {:induction false} LostFramesAccumulate(run: seq<Geo>, f: Frame, k: nat)
    requires IsRun(run, f) && k < |run|
    requires LostRun(run[0], f) && run[0].passedTime == 0.0
    requires k > 0 ==> (k - 1) as real * f.dt <= TimeoutSeconds
    ensures run[k].passedTime == k as real * f.dt && run[k].isLocalizing
    ensures run[k].isReturning <==> k as real * f.dt > TimeoutSeconds
    ensures k as real * f.dt <= TimeoutSeconds ==> LostRun(run[k], f)
    decreases k
  {
    if k > 0 {
      if k > 1 {
        assert (k - 2) as real * f.dt <= (k - 1) as real * f.dt;
      }
      LostFramesAccumulate(run, f, k - 1);
      LostTick(run[k - 1], f);
      assert (k - 1) as real * f.dt + f.dt == k as real * f.dt;
    }
  }

  /** With one-second frames the controller returns on the 181st lost frame, one frame earlier than `GeospatialController`. */
  lemma TimeoutAtOneSecondFrames(run: seq<Geo>, f: Frame)
    requires IsRun(run, f) && |run| > 181 && f.dt == 1.0
    requires LostRun(run[0], f) && run[0].passedTime == 0.0
    ensures !run[180].isReturning
    ensures run[181].isReturning
  {
    LostFramesAccumulate(run, f, 180);
    LostFramesAccumulate(run, f, 181);
  }

  /** A tick never arms the history replay. */
  lemma TickNeverArmsReplay(s: Geo, f: Frame)
    requires !s.shouldResolveHistory
    ensures !Tick(s, f).state.shouldResolveHistory
    ensures !TickAsWritten(s, f).state.shouldResolveHistory
  {
    if s.inARView && !s.isReturning {
      var s1 := LifeCycleUpdate(s, f);
      assert Tick(s, f) == (if s1.isReturning || !PassesSessionGuard(f.sessionState) then Stepped(s1, Completed) else FeatureStep(s1, f));
      FeatureStepKeepsReplayOff(s1, f);
    }
  }

  /** Nor does the feature check and what follows it. */
  lemma FeatureStepKeepsReplayOff(s: Geo, f: Frame)
    requires !s.shouldResolveHistory
    ensures !FeatureStep(s, f).state.shouldResolveHistory
  {
    if f.featureSupport == Supported && !s.componentsMissing && s.geospatialMode == GeospatialMode.Enabled {
      assert FeatureStep(s, f) == PrepareStep(s, f);
      if !StillPreparing(s.enablingGeospatial, s.prepareTime, f.dt) {
        EarthStepKeepsReplayOff(PastWait(s, f), f);
      }
    }
  }

  /** Nor does the earth-state check and what follows it. */
  lemma EarthStepKeepsReplayOff(s: Geo, f: Frame)
    requires !s.shouldResolveHistory
    ensures !EarthStep(s, f).state.shouldResolveHistory
  {
    if f.earthState == EarthState.Enabled {
      assert EarthStep(s, f) == LocalizationStep(s, f);
      LocalizationStepKeepsReplayOff(s, f);
    }
  }

  lemma LocalizationStepKeepsReplayOff(s: Geo, f: Frame)
    requires !s.shouldResolveHistory
    ensures !LocalizationStep(s, f).state.shouldResolveHistory
  {
    if ToleranceLost(f, GeoAnchorThresholds) {
      assert LocalizationStep(s, f).state == LostStep(s, f);
    } else if s.isLocalizing {
      assert LocalizationStep(s, f) == RegainStep(s, f);
    } else if f.tapBegan && !f.tapOverUi {
      TapKeepsConfiguration(s, f);
    }
  }

  /**
    Nothing sets `_shouldResolvingHistory`, so from the initial state a run of
    ticks never replays the history and regaining localization never throws
    on the missing collection.
   */
  lemma {:induction false} ReplayNeverArmed(run: seq<Geo>, f: Frame, k: nat)
    requires IsRun(run, f) && k < |run| && !run[0].shouldResolveHistory
    ensures !run[k].shouldResolveHistory
    ensures ResolveHistory(run[k]) == Stepped(run[k], Completed)
    decreases k
  {
    if k > 0 {
      ReplayNeverArmed(run, f, k - 1);
      TickNeverArmsReplay(run[k - 1], f);
    }
  }

  /** `OnEnable` keeps the replay off and does not reset the localization timer. */
  lemma EnableKeepsTimer(s: Geo)
    ensures var t := OnEnable(s);
            t.inARView && t.isLocalizing && !t.isReturning && !t.enablingGeospatial
            && t.passedTime == s.passedTime && t.shouldResolveHistory == s.shouldResolveHistory
  {
  }

  /** After a re-enable the first lost frame goes on from the old count rather than from zero. */
  lemma LostAfterEnableKeepsCount(s: Geo, f: Frame)
    requires ReachesLocalization(OnEnable(s), f) && ToleranceLost(f, GeoAnchorThresholds)
    ensures Tick(OnEnable(s), f).state.passedTime == s.passedTime + f.dt
  {
    LostTick(OnEnable(s), f);
  }

  /**
    After the anchors are cleared, a running coroutine whose anchor has
    finished resolving throws: at `anchor.gameObject` of the destroyed anchor
    once the frame has ended, or at `Last()` of the empty list within it. One
    whose anchor is still resolving quietly ends on the empty list.
   */
  lemma ClearedListBreaksPollers(s: Geo, k: nat, state: TerrainAnchorState, frameEnded: bool)
    requires k < |s.pollers| && s.pollers[k].running
    ensures var r := ResumePoller(OnClearAnchors(s), k, state, frameEnded);
            (r.outcome.Faulted? <==> state != TaskInProgress)
            && (r.outcome.Faulted? ==> r.outcome.fault == if frameEnded then DestroyedAnchor else EmptyAnchorList)
            && r.state.anchors == []
  {
  }

  /**
    After `OnClearAnchors_Clicked` a coroutine that was running throws at its
    first resumption past the frame once another anchor is listed, even while
    its own anchor still resolves.
   */
  lemma StaleCoroutineThrows(s: Geo, k: nat, rec: StoredRecord, f: Frame, state: TerrainAnchorState)
    requires k < |s.pollers| && s.pollers[k].running && f.resolve(rec).Some?
    ensures var t := PlaceGeospatialAnchor(OnClearAnchors(s), rec, f);
            k < |t.pollers| && ResumePoller(t, k, state, true).outcome == Faulted(DestroyedAnchor)
  {
    var c := OnClearAnchors(s);
    var id := f.resolve(rec).value;
    StartPollerKeeps(c.(anchors := c.anchors + [AnchorObject(id, true)]), id, f.terrain(id));
    var t := PlaceGeospatialAnchor(c, rec, f);
    assert t.pollers[k] == s.pollers[k].(destroyed := true);
    assert t.anchors != [] by {
      PlaceKeeps(c, rec, f);
      assert |Ids(t.anchors)| == |Ids(c.anchors)| + 1;
    }
  }

  /**
    A running coroutine's resumption throws exactly where it reads
    `anchor.gameObject` of a destroyed anchor, or where `Last()` meets an
    empty list; it changes nothing but the coroutine and the anchors' flags.
   */
  lemma ResumeFaultCases(s: Geo, k: nat, state: TerrainAnchorState, frameEnded: bool)
    requires k < |s.pollers| && s.pollers[k].running
    ensures var p := s.pollers[k];
            ResumePoller(s, k, state, frameEnded).outcome
            == if Gone(p, frameEnded) && (state != TaskInProgress || s.anchors != []) then Faulted(DestroyedAnchor)
               else if !Gone(p, frameEnded) && state != TaskInProgress && s.anchors == [] then Faulted(EmptyAnchorList)
               else Completed
    ensures ResumePoller(s, k, state, frameEnded).state
            == s.(pollers := ResumePoller(s, k, state, frameEnded).state.pollers,
                  anchors := ResumePoller(s, k, state, frameEnded).state.anchors)
  {
  }

  /** After a click the emitter fires exactly when the controller is not in build mode; two clicks restore the mode. */
  lemma AddAnchorsToggles(p: Pair)
    ensures OnAddAnchors(p).emitter.isEmittingEnabled == !OnAddAnchors(p).geo.isAddingAnchors
    ensures OnAddAnchors(p).geo == p.geo.(isAddingAnchors := !p.geo.isAddingAnchors)
    ensures OnAddAnchors(p).emitter == p.emitter.(isEmittingEnabled := p.geo.isAddingAnchors)
    ensures OnAddAnchors(OnAddAnchors(p)).geo == p.geo
  {
  }
}
