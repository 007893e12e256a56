/**
  The pieces of the per-frame localization check that both AR controllers
  (`GeospatialController` and `GeoAnchorController`) share: the accuracy
  thresholds, the session guards, the choice of the reason to quit, and the
  frame of platform readings that drives a tick.
 */
module Localization {
  import opened ArTypes
  import opened AnchorHistory

  /** `_TIMEOUT_SECONDS` / `_timeoutSeconds`. */
  const TimeoutSeconds: real := 180.0

  /** The value `_configurePrepareTime` is set to when the Geospatial mode is switched on. */
  const PrepareSeconds: real := 3.0

  /**
    Whether the wait for a new configuration ends the frame, over the two
    fields both controllers keep for it (`_enablingGeospatial` and
    `_configurePrepareTime`): it does while the countdown stays at or above zero.
   */
  predicate StillPreparing(enabling: bool, prepareTime: real, dt: real) {
    enabling && prepareTime - dt >= 0.0
  }

  /** `_ERROR_DISPLAY_SECONDS`: the delay of the scheduled quit. */
  const ErrorDisplaySeconds: real := 3.0

  /** Largest yaw accuracy (degrees) and horizontal accuracy (metres) still treated as localized. */
  datatype Thresholds = Thresholds(yaw: real, horizontal: real)

  /** `GeospatialController`: 25 degrees, 20 metres. */
  const GeospatialThresholds := Thresholds(25.0, 20.0)

  /** `GeoAnchorController`: 25 degrees, 25 metres. */
  const GeoAnchorThresholds := Thresholds(25.0, 25.0)

  /** `IsOverThreshold`: either accuracy is strictly worse than its threshold. */
  predicate IsOverThreshold(pose: GeospatialPose, t: Thresholds) {
    pose.orientationYawAccuracy > t.yaw || pose.horizontalAccuracy > t.horizontal
  }

  /** A pose exactly at both thresholds is within tolerance; anything beyond either is not. */
  lemma ThresholdIsInclusive(pose: GeospatialPose, t: Thresholds)
    ensures !IsOverThreshold(pose, t) <==>
            pose.orientationYawAccuracy <= t.yaw && pose.horizontalAccuracy <= t.horizontal
    ensures pose.orientationYawAccuracy == t.yaw && pose.horizontalAccuracy == t.horizontal
            ==> !IsOverThreshold(pose, t)
  {
  }

  /**
    The two controllers differ only in the horizontal bound: a pose over the
    `GeoAnchorController` bounds is over the `GeospatialController` ones, and
    the two disagree exactly on poses with a horizontal accuracy above 20 and
    up to 25 metres and an acceptable yaw.
   */
  lemma ThresholdsDiffer(pose: GeospatialPose)
    ensures IsOverThreshold(pose, GeoAnchorThresholds) ==> IsOverThreshold(pose, GeospatialThresholds)
    ensures IsOverThreshold(pose, GeospatialThresholds) != IsOverThreshold(pose, GeoAnchorThresholds)
            <==> pose.orientationYawAccuracy <= 25.0 && 20.0 < pose.horizontalAccuracy <= 25.0
  {
  }

  /** `_IsSessionReady`: the AR session is tracking and location services run. */
  predicate SessionReady(state: ARSessionState, location: LocationServiceStatus) {
    state == SessionTracking && location == Running
  }

  /** `_IsSessionInitialised` of `GeospatialController`, as written. */
  predicate SessionInitialisedAsWritten(state: ARSessionState) {
    state != SessionInitializing && state != SessionTracking
  }

  /**
    `GeospatialController.Update` goes on past `if (!_IsSessionInitialised) return;`
    only in states where the session is never ready, so as written the
    localization branch always takes the lost path.
   */
  lemma AsWrittenGuardNeverReady(state: ARSessionState, location: LocationServiceStatus)
    requires SessionInitialisedAsWritten(state)
    ensures !SessionReady(state, location)
  {
  }

  /** A tracking session with running location services is ready, yet the guard as written stops it. */
  lemma AsWrittenGuardStopsTrackingSession()
    ensures SessionReady(SessionTracking, Running)
    ensures !SessionInitialisedAsWritten(SessionTracking)
  {
  }

  /**
    The guard both controllers evidently intend (and `GeoAnchorController`'s
    `if (m_SessionState) return;` implements): go on while the session is
    initializing or tracking.
   */
  predicate PassesSessionGuard(state: ARSessionState) {
    state == SessionInitializing || state == SessionTracking
  }

  /** The corrected guard lets every ready session through, and is the negation of the one as written. */
  lemma CorrectedGuardAdmitsReady(state: ARSessionState, location: LocationServiceStatus)
    ensures SessionReady(state, location) ==> PassesSessionGuard(state)
    ensures PassesSessionGuard(state) <==> !SessionInitialisedAsWritten(state)
  {
  }

  /** The session states `LifecycleUpdate` treats as errors. */
  predicate IsSessionErrorState(state: ARSessionState) {
    state != CheckingAvailability && state != Ready && state != SessionInitializing && state != SessionTracking
  }

  /**
    The reason `LifecycleUpdate` hands to `ReturnWithReason`: a session error
    first, then failed location services, then missing AR components; the
    empty string when none applies.
   */
  function LifecycleReason(state: ARSessionState, location: LocationServiceStatus, componentsMissing: bool): (r: Reason)
    ensures r == NoReason <==> !IsSessionErrorState(state) && location != Failed && !componentsMissing
  {
    if IsSessionErrorState(state) then SessionErrorState(state)
    else if location == Failed then LocationServiceFailed
    else if componentsMissing then MissingComponents
    else NoReason
  }

  /** States the lifecycle check tolerates are exactly those a guarded tick may go on in, plus the two waiting states. */
  lemma GuardedStatesAreNotErrors(state: ARSessionState)
    ensures PassesSessionGuard(state) ==> !IsSessionErrorState(state)
    ensures !IsSessionErrorState(state) <==> PassesSessionGuard(state) || state == CheckingAvailability || state == Ready
  {
  }

  /** What one call of a controller's `Update` reads from the platform. */
  datatype Frame = Frame(
    escapeUp: bool,                                   // Input.GetKeyUp(KeyCode.Escape)
    sessionState: ARSessionState,                     // ARSession.state
    locationStatus: LocationServiceStatus,            // Input.location.status
    featureSupport: FeatureSupported,                 // IsGeospatialModeSupported(Enabled)
    earthState: EarthState,                           // EarthState
    earthTracking: bool,                              // EarthTrackingState == Tracking
    cameraPose: GeospatialPose,                       // CameraGeospatialPose
    dt: Delta,                                        // Time.deltaTime
    now: Ticks,                                       // DateTime.Now
    terrain: AnchorId -> TerrainAnchorState,          // each anchor's terrainAnchorState
    resolve: StoredRecord -> Option<AnchorId>,        // ResolveAnchorOnTerrain for a record (None: null)
    tapBegan: bool,                                   // a touch began this frame
    tapOverUi: bool,                                  // ... over a UI element
    tapHit: Option<GeospatialPose>)                   // the raycast's first hit, converted

  /** The pose the tolerance test reads: the camera pose while the Earth tracks, else `new GeospatialPose()`. */
  function PoseFor(f: Frame): GeospatialPose {
    if f.earthTracking then f.cameraPose else DefaultPose
  }

  /** The lost-localization condition of both `Update`s. */
  predicate ToleranceLost(f: Frame, t: Thresholds) {
    !SessionReady(f.sessionState, f.locationStatus) || !f.earthTracking || IsOverThreshold(PoseFor(f), t)
  }

  /** Localization holds exactly when the session is ready, the Earth tracks and the camera pose is within both bounds. */
  lemma ToleranceHeldIff(f: Frame, t: Thresholds)
    ensures !ToleranceLost(f, t) <==>
            f.sessionState == SessionTracking && f.locationStatus == Running && f.earthTracking
            && f.cameraPose.orientationYawAccuracy <= t.yaw && f.cameraPose.horizontalAccuracy <= t.horizontal
  {
  }
}
