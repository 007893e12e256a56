/**
  Values the geospatial core receives from the AR platform each frame, and the
  small value types the controllers share. None of these are computed by the
  core: ARFoundation / ARCore Extensions report them, and the model takes them
  as inputs.
 */
module ArTypes {

  datatype Option<T> = None | Some(value: T)

  /** A frame's `Time.deltaTime`: a duration in seconds, never negative. */
  type Delta = r: real | r >= 0.0

  /** `System.DateTime` as its tick count (100-nanosecond units since year 1). */
  type Ticks = nat

  /** Identity of an anchor's `GameObject`. */
  type AnchorId = nat

  datatype Quaternion = Quaternion(x: real, y: real, z: real, w: real)

  /** ARCore's `GeospatialPose` snapshot (degrees, metres). */
  datatype GeospatialPose = GeospatialPose(
    latitude: real,
    longitude: real,
    altitude: real,
    horizontalAccuracy: real,
    verticalAccuracy: real,
    orientationYawAccuracy: real,
    eunRotation: Quaternion)

  /** `new GeospatialPose()`: every field zero. */
  const DefaultPose := GeospatialPose(0.0, 0.0, 0.0, 0.0, 0.0, 0.0, Quaternion(0.0, 0.0, 0.0, 0.0))

  datatype ARSessionState =
    | None
    | Unsupported
    | CheckingAvailability
    | NeedsInstall
    | Installing
    | Ready
    | SessionInitializing
    | SessionTracking

  datatype LocationServiceStatus = Stopped | Initializing | Running | Failed

  datatype FeatureSupported = Unknown | Unsupported | Supported

  datatype GeospatialMode = Disabled | Enabled

  datatype EarthState =
    | Enabled
    | ErrorInternal
    | ErrorGeospatialModeDisabled
    | ErrorNotAuthorized
    | ErrorResourcesExhausted
    | ErrorPackageTooOld
    | ErrorEarthNotReady
    | ErrorSessionNotReady

  datatype TerrainAnchorState =
    | None
    | Success
    | TaskInProgress
    | ErrorInternal
    | ErrorNotAuthorized
    | ErrorUnsupportedLocation

  /** An anchor object in a controller's `_anchorObjects` list, with its `activeSelf` flag. */
  datatype AnchorObject = AnchorObject(id: AnchorId, active: bool)

  /** Why a controller returns (quits); `NoReason` is the empty string. */
  datatype Reason =
    | NoReason
    | SessionErrorState(state: ARSessionState)
    | LocationServiceFailed
    | MissingComponents
    | GeospatialUnsupported
    | LocalizationTimeout

  /** The text a controller writes to its snack bar or to the HUD's anchor message. */
  datatype Message =
    | NoMessage
    | Localizing
    | LocalizationInitializing
    | LocalizationInstruction
    | LocalizationSuccess
    | ResolvingTimeout
    | TerrainStateText(state: TerrainAnchorState)
    | EarthStateError(earth: EarthState)
    | AnchorsSet(count: nat)
    | AnchorSetFailed
    | AnchorsFromHistory(count: nat)
    | AnchorsCleared
    | ReasonText(reason: Reason)

  /** An exception that escapes a Unity callback; Unity logs it and the frame's remaining work is skipped. */
  datatype Fault =
    | NullHistoryCollection
    | NullCoreExtensions
    | EmptyAnchorList
    | DestroyedAnchor
    | NoInactiveProjectile

  datatype Outcome = Completed | Faulted(fault: Fault)
}
