# LazAR-Tag geospatial core in Dafny

LazAR-Tag is a Unity AR "laser tag" prototype. It is built on ARFoundation and
ARCore Extensions Geospatial. The core modelled here is the part that places
terrain anchors at geographic poses and keeps them alive. It consists of:

- `GeospatialController`:
  - a per-frame `Update` that checks the session lifecycle, switches on the Geospatial mode, and tracks localization against accuracy thresholds with a 180-second timeout;
  - the anchor history persisted in `PlayerPrefs`, pruned of records a day old on load, sorted newest first and capped at five on save;
  - screen-tap placement and the UI buttons.
- `GeoAnchorController`: a second controller with the same structure, a 25 m horizontal bound and a build-mode toggle.
- `EmitObject`: the touch-driven emitter, with a finger-hold timer and timed visuals swept each frame.
- The `CheckTerrainAnchorState` coroutine that every controller starts per anchor.
- `GeospatialAnchorHistory`: a record holding its creation time as a string.
- `ProjectilePooler` and `Projectile`: a growing object pool and a projectile's lifetime.

How the model is built:

- The pure logic is written as functions over datatypes (`AnchorHistory`, `HistoryStore`, `Localization`, `AnchorList`, `TerrainPoller`).
- Each controller has two parts.
  - A spec module (`GeospatialSpec`, `GeoAnchorSpec`, `EmitSpec`) writes every Unity callback as a function from the state before, and the frame's readings, to the state after.
  - A class with the same fields (`GeospatialControllerModel`, `GeoAnchorControllerModel`, `EmitObjectModel`) has methods that update the fields in place. Each method is proved to follow its spec function.
- The properties are lemmas about the spec functions.
- A coroutine is a `Poller` value. Each resumption is one `Step`, which reports an effect that the controller applies. `StartCoroutine` runs the first resumption at once.
- A clear and `GeospatialController.OnDisable` call `Destroy` on every listed anchor, and the coroutines keep running. Each `Poller` records that its anchor was destroyed. Unity carries out `Destroy` at the end of the frame, so each later resumption is told whether that frame has ended (`frameEnded`). A resumption that reads `anchor.gameObject` of an anchor already gone throws (`Faulted(DestroyedAnchor)`).
- An exception that a callback throws is an `Outcome` of `Faulted`. The state keeps what the callback did before the throw.

Inputs that come from outside the core are fields of a `Frame` value:

- the AR session state, the location service status, the feature support, the Earth state and tracking, and the camera pose;
- `Time.deltaTime`, `DateTime.Now`, and whether a touch began, and where it hit;
- the anchor resolver (`ResolveAnchorOnTerrain`) and each anchor's terrain state.

Floating-point values are modelled as `real`.

The emitter's `_testObjects` is a `Dictionary<GameObject, float>` that the sweep walks with `ElementAt(i)` while removing from it. Its order therefore matters, so it is modelled as `Dictionary` keeps its entries: an array of slots and a free list.

- `Remove` empties the slot and pushes it on the free list.
- `Add` fills the most recently freed slot, or appends a slot when none is free.
- Enumeration visits the used slots in slot order.

A visual added after a removal is therefore enumerated where the removed one was, not last.

## Model

| member | source | states |
|---|---|---|
| AnchorHistory.DecimalRoundTrip | Assets/_Core/Scripts/GeospatialAnchorHistory.cs:61-91 | reading back the decimal digits written for a number gives that number |
| AnchorHistory.FormatParseRoundTrip | Assets/_Core/Scripts/GeospatialAnchorHistory.cs:61-91 | `Convert.ToDateTime(time.ToString())` succeeds and gives the time truncated to the whole second |
| AnchorHistory.NewRecord | Assets/_Core/Scripts/GeospatialAnchorHistory.cs:58-67 | the timestamped constructor copies latitude, longitude, altitude and rotation, and sets heading 0 |
| AnchorHistory.NewRecordCreatedTime | Assets/_Core/Scripts/GeospatialAnchorHistory.cs:58-91 | the created time read back from a timestamped record is its time to the second |
| AnchorHistory.NowConstructorIsTimestamped | Assets/_Core/Scripts/GeospatialAnchorHistory.cs:82-91 | the four-argument constructor stamps `DateTime.Now`: its created time lies within the second before `now` |
| AnchorHistory.NewCollection | Assets/_Core/Scripts/GeospatialAnchorHistory.cs:107-113 | a new collection holds no records |
| HistoryStore.ExpiredIffADayOld | Assets/_Core/Scripts/GeospatialController.cs:766-767 | the load drops a record exactly when it is at least 24 hours older than the load time |
| HistoryStore.FutureRecordIsKept | Assets/_Core/Scripts/GeospatialController.cs:766-767 | a record dated after the load time is never dropped |
| HistoryStore.Pruned | Assets/_Core/Scripts/GeospatialController.cs:766-767 | `RemoveAll` never lengthens the collection |
| HistoryStore.PrunedKeepsLive | Assets/_Core/Scripts/GeospatialController.cs:766-767 | `RemoveAll` keeps each non-expired record with its multiplicity and removes every expired one |
| HistoryStore.PrunedPreservesOrder | Assets/_Core/Scripts/GeospatialController.cs:766-767 | pruning distributes over concatenation, so survivors keep their stored order |
| HistoryStore.PrunedFreshIsIdentity | Assets/_Core/Scripts/GeospatialController.cs:757-776 | a store with nothing a day old loads unchanged |
| HistoryStore.SortNewestFirst | Assets/_Core/Scripts/GeospatialController.cs:781-782 | the sort keeps the number of records |
| HistoryStore.Insert | Assets/_Core/Scripts/GeospatialController.cs:781-782 | placing one record into a list adds exactly one entry |
| HistoryStore.InsertAddsOne | Assets/_Core/Scripts/GeospatialController.cs:781-782 | insertion adds the record to the multiset of the list and nothing else |
| HistoryStore.InsertStaysBelow | Assets/_Core/Scripts/GeospatialController.cs:781-782 | insertion introduces no created time above a bound that the record and the list respect |
| HistoryStore.InsertKeepsOrder | Assets/_Core/Scripts/GeospatialController.cs:781-782 | inserting into a list ordered newest first keeps it ordered |
| HistoryStore.SortPermutesAndOrders | Assets/_Core/Scripts/GeospatialController.cs:781-782 | the sort yields a permutation of its input ordered by descending created time |
| HistoryStore.SortedIsFixpoint | Assets/_Core/Scripts/GeospatialController.cs:781-782 | sorting an already ordered list leaves it as it is |
| HistoryStore.Saved | Assets/_Core/Scripts/GeospatialController.cs:778-794 | a save keeps min(n, 5) records |
| HistoryStore.SavedIsNewestFirst | Assets/_Core/Scripts/GeospatialController.cs:778-794 | the saved records are ordered newest first and drawn from the input |
| HistoryStore.PrefixDominates | Assets/_Core/Scripts/GeospatialController.cs:781-789 | in a list ordered newest first, nothing after a cut is newer than anything before it |
| HistoryStore.SavedSplitsSorted | Assets/_Core/Scripts/GeospatialController.cs:781-789 | the saved records are the first min(n, 5) of the sorted input, and the dropped ones are the rest |
| HistoryStore.SavedKeepsNewest | Assets/_Core/Scripts/GeospatialController.cs:781-789 | no record the save drops is newer than one it keeps |
| HistoryStore.SaveIdempotent | Assets/_Core/Scripts/GeospatialController.cs:778-794 | saving twice is the same as saving once |
| Localization.ThresholdIsInclusive | Assets/_Core/Scripts/GeospatialController.cs:858-860 | a pose exactly at both thresholds is in tolerance, and one beyond either is not |
| Localization.ThresholdsDiffer | Assets/_Core/Scripts/GeospatialController.cs:182-193 | a pose over the `GeoAnchorController` bounds (25 m, GeoAnchorController.cs:44-45) is over the `GeospatialController` ones (20 m), and the two disagree exactly when the yaw is acceptable and the horizontal accuracy lies in (20 m, 25 m] |
| Localization.AsWrittenGuardNeverReady | Assets/_Core/Scripts/GeospatialController.cs:197-206 | every state that passes `_IsSessionInitialised` as written fails `_IsSessionReady` |
| Localization.AsWrittenGuardStopsTrackingSession | Assets/_Core/Scripts/GeospatialController.cs:200-202 | a tracking session with running location services is ready, yet the guard as written stops it |
| Localization.CorrectedGuardAdmitsReady | Assets/_Core/Scripts/GeoAnchorController.cs:94-104 | the corrected guard admits every ready session and is the negation of the one as written |
| Localization.LifecycleReason | Assets/_Core/Scripts/GeospatialController.cs:798-838 | there is a reason to return exactly on an error session state, a failed location service or missing components |
| Localization.GuardedStatesAreNotErrors | Assets/_Core/Scripts/GeospatialController.cs:816-819 | a state the guard admits is no lifecycle error; the non-error states are the admitted ones plus `CheckingAvailability` and `Ready` |
| Localization.ToleranceHeldIff | Assets/_Core/Scripts/GeospatialController.cs:430-431 | localization holds exactly when the session tracks, location runs, the Earth tracks and both accuracies are within their bounds |
| AnchorList.Ids | Assets/_Core/Scripts/GeospatialController.cs:219 | the listed identities, one per game object and in list order |
| AnchorList.LastIsContained | Assets/_Core/Scripts/GeospatialController.cs:567-576 | the last listed object is in the list |
| AnchorList.SetActive | Assets/_Core/Scripts/GeospatialController.cs:574-575 | `SetActive` changes only the flag of the named object, and every other entry is unchanged |
| AnchorList.Deactivated | Assets/_Core/Scripts/GeospatialController.cs:441-442 | every entry is kept in place with its flag cleared |
| AnchorList.Reactivated | Assets/_Core/Scripts/GeospatialController.cs:464-476 | an entry is switched on exactly when its terrain state is `None` or `Success`, and the rest are unchanged |
| AnchorList.DeactivatedHidesAll | Assets/_Core/Scripts/GeospatialController.cs:441-442 | deactivation keeps every object in order and leaves none active |
| AnchorList.DeactivatedIdempotent | Assets/_Core/Scripts/GeospatialController.cs:441-442 | deactivating twice is deactivating once |
| AnchorList.ReactivatedShowsSettled | Assets/_Core/Scripts/GeospatialController.cs:464-476 | after the regain loop an object is active exactly when it was, or its terrain state is settled |
| AnchorList.SetActiveKeepsIds | Assets/_Core/Scripts/GeospatialController.cs:574-575 | setting a flag keeps every object's identity in place |
| AnchorList.IdsAppend | Assets/_Core/Scripts/GeospatialController.cs:726 | appending an object appends its identity |
| AnchorList.DeactivateAll | Assets/_Core/Scripts/GeospatialController.cs:441-442 | the `foreach` loop computes `Deactivated` |
| AnchorList.ReactivateSettled | Assets/_Core/Scripts/GeospatialController.cs:464-476 | the `foreach` loop computes `Reactivated` |
| TerrainPoller.Start | Assets/_Core/Scripts/GeospatialController.cs:551-556 | a started coroutine watches its anchor, with `retry` 0 |
| TerrainPoller.Step | Assets/_Core/Scripts/GeospatialController.cs:551-580 | one resumption, while the anchor resolves, exits on an empty list or an unlisted anchor, and otherwise waits, raising `retry` up to 100 and advising exactly at 100 on the last anchor. Once resolution is over it sets the anchor active iff not localizing and `Success`. Whenever it reads `anchor.gameObject` (the `Contains` test or `SetActive`) of an anchor already destroyed, it throws and ends instead |
| TerrainPoller.PollOutcome | Assets/_Core/Scripts/GeospatialController.cs:559-576 | a resumption throws exactly when it touches a destroyed anchor (`MissingReferenceException`) or reaches `Last()` on an empty list |
| TerrainPoller.PolledAnchors | Assets/_Core/Scripts/GeospatialController.cs:574-575 | a finished resumption sets its anchor's flag, any other leaves the list as it was; the identities never change |
| TerrainPoller.PolledMessage | Assets/_Core/Scripts/GeospatialController.cs:567-577 | the text changes only to the resolving-timeout advice, or to the final terrain state when the anchor is the last listed one |
| TerrainPoller.StartOnListedAnchorCompletes | Assets/_Core/Scripts/GeospatialController.cs:726-729 | the first resumption, right after the anchor was listed, cannot throw |
| TerrainPoller.Effects | Assets/_Core/Scripts/GeospatialController.cs:557-580 | a run of resumptions has one effect per resumption |
| TerrainPoller.RetryStaysCapped | Assets/_Core/Scripts/GeospatialController.cs:571 | `retry` never exceeds 100 |
| TerrainPoller.RetrySaturates | Assets/_Core/Scripts/GeospatialController.cs:557-571 | while the anchor stays listed and resolving, each resumption adds one to `retry` up to 100 |
| TerrainPoller.AdvisesAtCap | Assets/_Core/Scripts/GeospatialController.cs:567-568 | at the cap, each further resolving resumption shows the timeout message exactly when the anchor is last |
| TerrainPoller.AdvisesAfterHundredPolls | Assets/_Core/Scripts/GeospatialController.cs:557-571 | after a hundred resolving resumptions the message is shown on each one where the anchor is last |
| TerrainPoller.EndedStaysIdle | Assets/_Core/Scripts/GeospatialController.cs:564-579 | an ended coroutine does nothing more |
| TerrainPoller.CancelledIsFinal | Assets/_Core/Scripts/GeospatialController.cs:559-565 | an empty list, or a list without the resolving anchor, ends its coroutine for good |
| TerrainPoller.DestroyAnchors | Assets/_Core/Scripts/GeospatialController.cs:500-503 | the clear marks every coroutine as watching a destroyed anchor and changes nothing else about it |
| TerrainPoller.DestroyedAnchorThrows | Assets/_Core/Scripts/GeospatialController.cs:557-576 | past the frame of the `Destroy`, a running coroutine of a destroyed anchor throws unless the list is empty while the anchor resolves; either way it ends and does nothing more |
| TerrainPoller.LocalizingAlwaysHides | Assets/_Core/Scripts/GeospatialController.cs:574-575 | a coroutine that ends while its controller is localizing hides its anchor |
| GeospatialSpec.ReturnWithReason | Assets/_Core/Scripts/GeospatialController.cs:842-854 | an empty reason changes nothing; otherwise the reason is shown, `_isReturning` latched and one quit scheduled |
| GeospatialSpec.PastWait | Assets/_Core/Scripts/GeospatialController.cs:404-412 | past the wait the configuration flag is clear: a running countdown is lowered by the frame time and cleared, and without one nothing changes |
| GeospatialSpec.Save | Assets/_Core/Scripts/GeospatialController.cs:778-794 | the collection and the store both become `Saved` of the collection |
| GeospatialSpec.Load | Assets/_Core/Scripts/GeospatialController.cs:757-776 | with a stored key, the collection and the store become the pruned records; without one, the collection is empty |
| GeospatialSpec.ReturningIsFinal | Assets/_Core/Scripts/GeospatialController.cs:373-375 | once `_isReturning` is latched, a tick can only register the escape key |
| GeospatialSpec.TickReaches | Assets/_Core/Scripts/GeospatialController.cs:367-431 | a tick that reaches the localization branch is that branch applied after the escape key |
| GeospatialSpec.EmptyReasonDoesNotReturn | Assets/_Core/Scripts/GeospatialController.cs:842-846 | a lifecycle check without a reason leaves `_isReturning` as it was |
| GeospatialSpec.LostWhileLocalized | Assets/_Core/Scripts/GeospatialController.cs:431-454 | losing tolerance while localized starts localizing, resets the timer, hides every anchor, and counts this frame |
| GeospatialSpec.LostWhileLocalizing | Assets/_Core/Scripts/GeospatialController.cs:434-454 | losing tolerance while already localizing leaves the anchors as they are |
| GeospatialSpec.LostTickAddsDelta | Assets/_Core/Scripts/GeospatialController.cs:445-454 | one lost frame inside the timeout changes only the time, the message and the escape flag |
| GeospatialSpec.LostFramesAccumulate | Assets/_Core/Scripts/GeospatialController.cs:445-454 | from a fresh localization, each lost frame adds its delta while the timeout has not passed |
| GeospatialSpec.TimeoutFiresAfterExceeding | Assets/_Core/Scripts/GeospatialController.cs:445-454 | the return comes on the frame after the time first exceeds 180 s, and adds no time |
| GeospatialSpec.TimeoutAtOneSecondFrames | Assets/_Core/Scripts/GeospatialController.cs:445-454 | with one-second frames the controller returns on the 182nd lost frame |
| GeospatialSpec.PlaceAllKeeps | Assets/_Core/Scripts/GeospatialController.cs:748-749 | re-placing the history changes only the list, the coroutines and the snack bar, and lists the resolved anchors in order |
| GeospatialSpec.PlaceKeeps | Assets/_Core/Scripts/GeospatialController.cs:704-738 | one placement appends the resolved anchor and its coroutine and changes nothing else beyond the snack bar |
| GeospatialSpec.PlaceIds | Assets/_Core/Scripts/GeospatialController.cs:724-731 | one placement appends the identity of the resolved anchor, or nothing |
| GeospatialSpec.PlaceAllIds | Assets/_Core/Scripts/GeospatialController.cs:748-749 | re-placing the history appends the resolved anchors' identities in record order |
| GeospatialSpec.StartPollerKeeps | Assets/_Core/Scripts/GeospatialController.cs:551-580 | starting a coroutine changes only the list's flags, the coroutines and the snack bar |
| GeospatialSpec.ApplyPollKeeps | Assets/_Core/Scripts/GeospatialController.cs:574-577 | a resumption changes only the list's flags and the snack bar |
| GeospatialSpec.RegainWhileLocalizing | Assets/_Core/Scripts/GeospatialController.cs:456-479 | regaining tolerance stops localizing, resets the timer, shows the settled anchors and replays the history once |
| GeospatialSpec.LocalizationStepKeepsReplayOff | Assets/_Core/Scripts/GeospatialController.cs:430-486 | the localization branch never arms the replay |
| GeospatialSpec.EarthStepKeepsReplayOff | Assets/_Core/Scripts/GeospatialController.cs:414-486 | the earth-state check and what follows it never arm the replay |
| GeospatialSpec.PrepareStepKeepsReplayOff | Assets/_Core/Scripts/GeospatialController.cs:404-486 | the configuration wait and what follows it never arm the replay |
| GeospatialSpec.FeatureStepKeepsReplayOff | Assets/_Core/Scripts/GeospatialController.cs:380-486 | the feature switch and what follows it never arm the replay |
| GeospatialSpec.TickNeverArmsReplay | Assets/_Core/Scripts/GeospatialController.cs:367-489 | a tick never arms the replay, so history is replayed at most once per enable |
| GeospatialSpec.NoReplayWithoutHistory | Assets/_Core/Scripts/GeospatialController.cs:367-489 | over any run of ticks, a clear replay flag stays clear |
| GeospatialSpec.EnableArmsReplayIffHistory | Assets/_Core/Scripts/GeospatialController.cs:311-332 | `OnEnable` arms the replay exactly when the loaded history is non-empty |
| GeospatialSpec.ClearEmptiesStore | Assets/_Core/Scripts/GeospatialController.cs:498-509 | clearing empties the anchors, the collection and the store |
| GeospatialSpec.SaveBoundsStore | Assets/_Core/Scripts/GeospatialController.cs:778-794 | after any save the store holds at most five records, newest first |
| GeospatialSpec.PlaceAndRecordSaves | Assets/_Core/Scripts/GeospatialController.cs:676-702 | a placement adds its record to the history only when it resolved, then saves |
| GeospatialSpec.ResumeFaultCases | Assets/_Core/Scripts/GeospatialController.cs:551-580 | a running coroutine's resumption throws exactly when it reads `anchor.gameObject` of an anchor already destroyed, or reaches `Last()` on an empty list; one that exits or touches a destroyed anchor changes only its coroutine |
| GeospatialSpec.StaleCoroutineThrows | Assets/_Core/Scripts/GeospatialController.cs:498-509 | after "Clear All", a coroutine still running throws at its first resumption past the frame once another anchor is placed, even while its own anchor resolves |
| GeospatialSpec.AsWrittenNeverRegains | Assets/_Core/Scripts/GeospatialController.cs:377-378 | as written, a localizing controller never stops localizing |
| GeospatialSpec.LostEarthStepKeepsLocalizing | Assets/_Core/Scripts/GeospatialController.cs:414-455 | on a frame out of tolerance, a localizing controller is still localizing after the earth-state check |
| GeospatialSpec.LostFeatureStepKeepsLocalizing | Assets/_Core/Scripts/GeospatialController.cs:380-455 | on a frame out of tolerance, a localizing controller is still localizing after the feature switch |
| GeospatialSpec.CorrectedGuardRegains | Assets/_Core/Scripts/GeospatialController.cs:456-479 | with the corrected guard, a tracking, accurate frame ends localization |
| GeospatialControllerModel.GeospatialController.constructor | Assets/_Core/Scripts/GeospatialController.cs:211-219 | the fields start as the initialisers set them |
| GeospatialControllerModel.GeospatialController.ReturnWithReason | Assets/_Core/Scripts/GeospatialController.cs:842-854 | the fields move as `GeospatialSpec.ReturnWithReason` says |
| GeospatialControllerModel.GeospatialController.LifecycleUpdate | Assets/_Core/Scripts/GeospatialController.cs:798-838 | the fields move as `GeospatialSpec.LifecycleUpdate` says |
| GeospatialControllerModel.GeospatialController.SaveGeospatialAnchorHistory | Assets/_Core/Scripts/GeospatialController.cs:778-794 | sorts and truncates the collection in place and writes it to the store, as `GeospatialSpec.Save` |
| GeospatialControllerModel.GeospatialController.LoadGeospatialAnchorHistory | Assets/_Core/Scripts/GeospatialController.cs:757-776 | as `GeospatialSpec.Load` |
| GeospatialControllerModel.GeospatialController.ApplyPoll | Assets/_Core/Scripts/GeospatialController.cs:566-577 | applies one resumption's effect, as `GeospatialSpec.ApplyPoll` |
| GeospatialControllerModel.GeospatialController.StartCheckTerrainAnchorState | Assets/_Core/Scripts/GeospatialController.cs:551-580 | as `GeospatialSpec.StartPoller` |
| GeospatialControllerModel.GeospatialController.ResumeCheckTerrainAnchorState | Assets/_Core/Scripts/GeospatialController.cs:551-580 | as `GeospatialSpec.ResumePoller`, with its outcome, including the throw on an anchor destroyed by "Clear All" or `OnDisable` |
| GeospatialControllerModel.GeospatialController.PlaceGeospatialAnchor | Assets/_Core/Scripts/GeospatialController.cs:704-738 | reports whether the anchor resolved, and moves the fields as `GeospatialSpec.PlaceGeospatialAnchor` |
| GeospatialControllerModel.GeospatialController.AddAnchorObject | Assets/_Core/Scripts/GeospatialController.cs:726 | the new anchor object is appended, active, and nothing else changes |
| GeospatialControllerModel.GeospatialController.PlaceRecords | Assets/_Core/Scripts/GeospatialController.cs:748-749 | the `foreach` loop computes `GeospatialSpec.PlaceAll` |
| GeospatialControllerModel.GeospatialController.ResolveHistory | Assets/_Core/Scripts/GeospatialController.cs:742-754 | as `GeospatialSpec.ResolveHistory` |
| GeospatialControllerModel.GeospatialController.PlaceAndRecord | Assets/_Core/Scripts/GeospatialController.cs:688-701 | as `GeospatialSpec.PlaceAndRecord` |
| GeospatialControllerModel.GeospatialController.AddRecord | Assets/_Core/Scripts/GeospatialController.cs:696-697 | the record is appended to the collection and nothing else changes |
| GeospatialControllerModel.GeospatialController.PlaceAnchorByScreenTap | Assets/_Core/Scripts/GeospatialController.cs:676-702 | as `GeospatialSpec.PlaceByScreenTap` |
| GeospatialControllerModel.GeospatialController.StartLocalizing | Assets/_Core/Scripts/GeospatialController.cs:434-443 | entering localization sets the flag, zeroes the time and hides every anchor, and nothing else changes |
| GeospatialControllerModel.GeospatialController.LoseLocalization | Assets/_Core/Scripts/GeospatialController.cs:430-455 | as `GeospatialSpec.LostStep` |
| GeospatialControllerModel.GeospatialController.ReactivateAnchors | Assets/_Core/Scripts/GeospatialController.cs:464-476 | the regain loop leaves the list as `Reactivated` of it and changes nothing else |
| GeospatialControllerModel.GeospatialController.ShowSettled | Assets/_Core/Scripts/GeospatialController.cs:459-476 | stops localizing, zeroes the time, shows the success message and the settled anchors, and changes nothing else |
| GeospatialControllerModel.GeospatialController.FinishLocalization | Assets/_Core/Scripts/GeospatialController.cs:456-479 | as `GeospatialSpec.RegainStep` |
| GeospatialControllerModel.GeospatialController.EarthAndLocalization | Assets/_Core/Scripts/GeospatialController.cs:415-486 | as `GeospatialSpec.EarthStep` |
| GeospatialControllerModel.GeospatialController.CountDownPrepare | Assets/_Core/Scripts/GeospatialController.cs:404-412 | reports whether the wait ends the frame, exactly as `Localization.StillPreparing`, and moves the fields as the countdown or `GeospatialSpec.PastWait` |
| GeospatialControllerModel.GeospatialController.PrepareAndEarth | Assets/_Core/Scripts/GeospatialController.cs:404-486 | as `GeospatialSpec.PrepareStep` |
| GeospatialControllerModel.GeospatialController.FeatureAndRest | Assets/_Core/Scripts/GeospatialController.cs:380-486 | as `GeospatialSpec.FeatureStep` |
| GeospatialControllerModel.GeospatialController.Update | Assets/_Core/Scripts/GeospatialController.cs:367-489 | one frame moves the fields as `GeospatialSpec.Tick`, whose session guard is the corrected one of "## Findings", not the source's |
| GeospatialControllerModel.GeospatialController.UpdateAsWritten | Assets/_Core/Scripts/GeospatialController.cs:367-489 | one frame moves the fields as `GeospatialSpec.TickAsWritten`, with the `_IsSessionInitialised` guard as written |
| GeospatialControllerModel.GeospatialController.ClearLatches | Assets/_Core/Scripts/GeospatialController.cs:316-318 | the return, configuration and battle latches are cleared and nothing else changes |
| GeospatialControllerModel.GeospatialController.ResetForLocalizing | Assets/_Core/Scripts/GeospatialController.cs:316-326 | clears the latches, zeroes the time, starts localizing with its message, and changes nothing else |
| GeospatialControllerModel.GeospatialController.OnEnable | Assets/_Core/Scripts/GeospatialController.cs:311-332 | as `GeospatialSpec.OnEnable` |
| GeospatialControllerModel.GeospatialController.OnDisable | Assets/_Core/Scripts/GeospatialController.cs:337-351 | as `GeospatialSpec.OnDisable`: the list is emptied, every coroutine's anchor is destroyed, the history is saved |
| GeospatialControllerModel.GeospatialController.OnClearAllClicked | Assets/_Core/Scripts/GeospatialController.cs:498-509 | as `GeospatialSpec.OnClearAll`: the list and the history are emptied, every coroutine's anchor is destroyed, and the empty history is saved |
| GeospatialControllerModel.GeospatialController.OnSetAnchorClicked | Assets/_Core/Scripts/GeospatialController.cs:514-534 | as `GeospatialSpec.OnSetAnchor` |
| GeospatialControllerModel.GeospatialController.OnBattleModeClicked | Assets/_Core/Scripts/GeospatialController.cs:536-545 | as `GeospatialSpec.OnBattleMode` |
| GeoAnchorSpec.Initial | Assets/_Core/Scripts/GeoAnchorController.cs:48-92 | a new controller is out of the AR view, not returning, not localizing, with no anchors, coroutines or scheduled quits |
| GeoAnchorSpec.ReturnWithReason | Assets/_Core/Scripts/GeoAnchorController.cs:467-482 | an empty reason changes nothing; otherwise `m_IsReturning` is latched and one more quit scheduled |
| GeoAnchorSpec.EmptyReasonDoesNotReturn | Assets/_Core/Scripts/GeoAnchorController.cs:467-472 | a lifecycle check without a reason leaves the latch and the scheduled quits as they were |
| GeoAnchorSpec.IdleWhenReturningOrHidden | Assets/_Core/Scripts/GeoAnchorController.cs:167-173 | out of the AR view or once returning, `Update` changes nothing |
| GeoAnchorSpec.LatchEndsTick | Assets/_Core/Scripts/GeoAnchorController.cs:170-176 | the corrected tick ends as soon as the lifecycle check latches, having scheduled one quit |
| GeoAnchorSpec.TickReaches | Assets/_Core/Scripts/GeoAnchorController.cs:165-197 | a tick that reaches the localization branch is that branch applied after the escape key |
| GeoAnchorSpec.TicksAgreeWithoutReason | Assets/_Core/Scripts/GeoAnchorController.cs:165-251 | the as-written and corrected ticks agree on every frame whose lifecycle check finds no reason |
| GeoAnchorSpec.AsWrittenMissingExtensionsThrows | Assets/_Core/Scripts/GeoAnchorController.cs:170-179 | as written, a missing `ARCoreExtensions` component makes a tracking, supported frame throw after the return was latched |
| GeoAnchorSpec.AsWrittenSchedulesTwoQuits | Assets/_Core/Scripts/GeoAnchorController.cs:170-179 | as written, a failed location service on an unsupported device schedules two quits in one frame |
| GeoAnchorSpec.FeatureCases | Assets/_Core/Scripts/GeoAnchorController.cs:523-551 | on a frame that passes the lifecycle check, the feature check ends the frame on `Unknown`, returns on `Unsupported`, switches the mode on once when it is off, and once it is on goes on to the configuration wait (`PrepareStep`); the throw on missing components cannot happen here, since missing components already fail the lifecycle check (see `AsWrittenMissingExtensionsThrows`) |
| GeoAnchorSpec.PrepareHolds | Assets/_Core/Scripts/GeoAnchorController.cs:182-189 | while the countdown stays at or above zero the frame ends after counting down |
| GeoAnchorSpec.PrepareReleases | Assets/_Core/Scripts/GeoAnchorController.cs:182-189 | the frame on which the countdown drops below zero clears the wait and goes on |
| GeoAnchorSpec.PastWait | Assets/_Core/Scripts/GeoAnchorController.cs:182-189 | past the wait the configuration flag is clear: a running countdown is lowered by the frame time and cleared, and without one nothing changes |
| GeoAnchorSpec.PrepareCountsDown | Assets/_Core/Scripts/GeoAnchorController.cs:182-189 | from three seconds, frame `k` still waits with `3 - k*dt` left while that is not negative |
| GeoAnchorSpec.PrepareTakesFourSecondFrames | Assets/_Core/Scripts/GeoAnchorController.cs:182-189 | with one-second frames the wait lasts four frames, since the test is strictly below zero |
| GeoAnchorSpec.LocalizationStepKeepsConfiguration | Assets/_Core/Scripts/GeoAnchorController.cs:197-250 | the localization branch never touches the configuration wait or the mode |
| GeoAnchorSpec.TapKeepsConfiguration | Assets/_Core/Scripts/GeoAnchorController.cs:592-614 | a screen tap never touches the configuration wait, the mode or the replay flag |
| GeoAnchorSpec.ApplyPollKeeps | Assets/_Core/Scripts/GeoAnchorController.cs:374-379 | a resumption changes only the list's flags |
| GeoAnchorSpec.StartPollerKeeps | Assets/_Core/Scripts/GeoAnchorController.cs:348-382 | starting a coroutine changes only the list's flags and the coroutines |
| GeoAnchorSpec.PlaceKeeps | Assets/_Core/Scripts/GeoAnchorController.cs:616-646 | a placement appends the resolved anchor and a coroutine watching it, and changes nothing else |
| GeoAnchorSpec.TapPlacesThenThrows | Assets/_Core/Scripts/GeoAnchorController.cs:592-614 | a tap while localized places an anchor at the hit; when it resolves, adding to the null history throws after the placement |
| GeoAnchorSpec.LostWhileLocalized | Assets/_Core/Scripts/GeoAnchorController.cs:197-219 | losing tolerance while localized starts localizing, hides every anchor and counts this frame from zero |
| GeoAnchorSpec.RegainShowsSettled | Assets/_Core/Scripts/GeoAnchorController.cs:220-243 | regaining tolerance stops localizing, resets the timer and shows the settled anchors; with no replay armed it completes |
| GeoAnchorSpec.LostTick | Assets/_Core/Scripts/GeoAnchorController.cs:213-218 | one lost frame while localizing adds its delta, and returns exactly when that passes 180 s |
| GeoAnchorSpec.LostFramesAccumulate | Assets/_Core/Scripts/GeoAnchorController.cs:213-218 | from a fresh count, lost frame `k` has counted `k*dt`, and returns exactly when that exceeds the timeout |
| GeoAnchorSpec.TimeoutAtOneSecondFrames | Assets/_Core/Scripts/GeoAnchorController.cs:213-218 | with one-second frames the controller returns on the 181st lost frame |
| GeoAnchorSpec.TickNeverArmsReplay | Assets/_Core/Scripts/GeoAnchorController.cs:165-251 | a tick never arms the history replay |
| GeoAnchorSpec.LocalizationStepKeepsReplayOff | Assets/_Core/Scripts/GeoAnchorController.cs:197-250 | the localization branch never arms the replay |
| GeoAnchorSpec.EarthStepKeepsReplayOff | Assets/_Core/Scripts/GeoAnchorController.cs:191-250 | the earth-state check and what follows it never arm the replay |
| GeoAnchorSpec.FeatureStepKeepsReplayOff | Assets/_Core/Scripts/GeoAnchorController.cs:178-250 | the feature check and what follows it never arm the replay |
| GeoAnchorSpec.ReplayNeverArmed | Assets/_Core/Scripts/GeoAnchorController.cs:574-590 | nothing sets `_shouldResolvingHistory`, so from the initial state no run of ticks replays the history |
| GeoAnchorSpec.EnableKeepsTimer | Assets/_Core/Scripts/GeoAnchorController.cs:109-119 | `OnEnable` keeps the replay off and does not reset the localization timer |
| GeoAnchorSpec.LostAfterEnableKeepsCount | Assets/_Core/Scripts/GeoAnchorController.cs:109-119 | after a re-enable the first lost frame goes on from the old count rather than from zero |
| GeoAnchorSpec.ClearedListBreaksPollers | Assets/_Core/Scripts/GeoAnchorController.cs:394-403 | after the anchors are cleared, a coroutine whose anchor has finished resolving throws: at `anchor.gameObject` of the destroyed anchor once the frame has ended, at `Last()` of the empty list within it. One still resolving ends quietly |
| GeoAnchorSpec.ResumeFaultCases | Assets/_Core/Scripts/GeoAnchorController.cs:348-382 | a running coroutine's resumption throws exactly when it reads `anchor.gameObject` of an anchor already destroyed, or reaches `Last()` on an empty list, and changes nothing but the coroutines and the anchors' flags |
| GeoAnchorSpec.StaleCoroutineThrows | Assets/_Core/Scripts/GeoAnchorController.cs:394-403 | after the anchors are cleared, a coroutine still running throws at its first resumption past the frame once another anchor is placed, even while its own anchor resolves |
| GeoAnchorSpec.AddAnchorsToggles | Assets/_Core/Scripts/GeoAnchorController.cs:388-392 | after a click the emitter fires exactly when the controller is not in build mode; two clicks restore the mode |
| GeoAnchorControllerModel.GeoAnchorController.constructor | Assets/_Core/Scripts/GeoAnchorController.cs:128-146 | the fields start as `GeoAnchorSpec.Initial` |
| GeoAnchorControllerModel.GeoAnchorController.ReturnWithReason | Assets/_Core/Scripts/GeoAnchorController.cs:467-482 | as `GeoAnchorSpec.ReturnWithReason` |
| GeoAnchorControllerModel.GeoAnchorController.LifeCycleUpdate | Assets/_Core/Scripts/GeoAnchorController.cs:429-465 | as `GeoAnchorSpec.LifeCycleUpdate` |
| GeoAnchorControllerModel.GeoAnchorController.ApplyPoll | Assets/_Core/Scripts/GeoAnchorController.cs:374-379 | as `GeoAnchorSpec.ApplyPoll` |
| GeoAnchorControllerModel.GeoAnchorController.StartCheckTerrainAnchorState | Assets/_Core/Scripts/GeoAnchorController.cs:348-382 | as `GeoAnchorSpec.StartPoller` |
| GeoAnchorControllerModel.GeoAnchorController.ResumeCheckTerrainAnchorState | Assets/_Core/Scripts/GeoAnchorController.cs:348-382 | as `GeoAnchorSpec.ResumePoller`, with its outcome, including the throw on an anchor destroyed by `OnClearAnchors_Clicked` |
| GeoAnchorControllerModel.GeoAnchorController.PlaceGeospatialAnchor | Assets/_Core/Scripts/GeoAnchorController.cs:616-646 | reports whether the anchor resolved, and moves the fields as `GeoAnchorSpec.PlaceGeospatialAnchor` |
| GeoAnchorControllerModel.GeoAnchorController.PlaceAnchorByScreenTap | Assets/_Core/Scripts/GeoAnchorController.cs:592-614 | as `GeoAnchorSpec.PlaceByScreenTap`, with its outcome |
| GeoAnchorControllerModel.GeoAnchorController.ResolveHistory | Assets/_Core/Scripts/GeoAnchorController.cs:574-590 | as `GeoAnchorSpec.ResolveHistory`, with its outcome |
| GeoAnchorControllerModel.GeoAnchorController.StartLocalizing | Assets/_Core/Scripts/GeoAnchorController.cs:202-211 | entering localization sets the flag, zeroes the time and hides every anchor, and nothing else changes |
| GeoAnchorControllerModel.GeoAnchorController.LoseLocalization | Assets/_Core/Scripts/GeoAnchorController.cs:197-219 | as `GeoAnchorSpec.LostStep` |
| GeoAnchorControllerModel.GeoAnchorController.ReactivateAnchors | Assets/_Core/Scripts/GeoAnchorController.cs:226-240 | the regain loop leaves the list as `Reactivated` of it and changes nothing else |
| GeoAnchorControllerModel.GeoAnchorController.FinishLocalization | Assets/_Core/Scripts/GeoAnchorController.cs:220-243 | as `GeoAnchorSpec.RegainStep` |
| GeoAnchorControllerModel.GeoAnchorController.EarthAndLocalization | Assets/_Core/Scripts/GeoAnchorController.cs:191-250 | as `GeoAnchorSpec.EarthStep` |
| GeoAnchorControllerModel.GeoAnchorController.CountDownPrepare | Assets/_Core/Scripts/GeoAnchorController.cs:182-189 | reports whether the wait ends the frame, exactly as `Localization.StillPreparing`, and moves the fields as the countdown or `GeoAnchorSpec.PastWait` |
| GeoAnchorControllerModel.GeoAnchorController.PrepareAndEarth | Assets/_Core/Scripts/GeoAnchorController.cs:182-250 | as `GeoAnchorSpec.PrepareStep`, with its outcome |
| GeoAnchorControllerModel.GeoAnchorController.FeatureAndRest | Assets/_Core/Scripts/GeoAnchorController.cs:178-250 | as `GeoAnchorSpec.FeatureStep`, with its outcome |
| GeoAnchorControllerModel.GeoAnchorController.Update | Assets/_Core/Scripts/GeoAnchorController.cs:165-251 | one frame moves the fields as `GeoAnchorSpec.Tick`, which ends the frame once `LifeCycleUpdate` latches the return (the correction of "## Findings"), unlike the source |
| GeoAnchorControllerModel.GeoAnchorController.UpdateAsWritten | Assets/_Core/Scripts/GeoAnchorController.cs:165-251 | one frame moves the fields as `GeoAnchorSpec.TickAsWritten`, testing `m_IsReturning` only before `LifeCycleUpdate` |
| GeoAnchorControllerModel.GeoAnchorController.OnEnable | Assets/_Core/Scripts/GeoAnchorController.cs:109-119 | as `GeoAnchorSpec.OnEnable` |
| GeoAnchorControllerModel.GeoAnchorController.OnClearAnchorsClicked | Assets/_Core/Scripts/GeoAnchorController.cs:394-403 | as `GeoAnchorSpec.OnClearAnchors`: the list is emptied and every coroutine's anchor is destroyed |
| GeoAnchorControllerModel.GeoAnchorController.OnAddAnchorsClicked | Assets/_Core/Scripts/GeoAnchorController.cs:388-392 | the controller and the emitter move together as `GeoAnchorSpec.OnAddAnchors` |
| EmitSpec.Pass | Assets/_Core/Scripts/EmitObject.cs:296-307 | the sweep, seen on a list, is no longer than its input |
| EmitSpec.PassThins | Assets/_Core/Scripts/EmitObject.cs:296-307 | the sweep only removes entries that expired, never raises a lifetime, and keeps the order |
| EmitSpec.PassKeepsLifetimesPositive | Assets/_Core/Scripts/EmitObject.cs:296-307 | if every visual had a positive lifetime, every remaining one still does |
| EmitSpec.PassWithoutExpiry | Assets/_Core/Scripts/EmitObject.cs:296-307 | when no entry expires, every entry is lowered by exactly `dt` |
| EmitSpec.SweepStep | Assets/_Core/Scripts/EmitObject.cs:298-305 | one loop iteration, removing or lowering entry `i`, keeps the prefix plus `Pass` of the rest equal to the same of the list before |
| EmitSpec.Entries | Assets/_Core/Scripts/EmitObject.cs:296-299 | enumerating the dictionary yields at most one entry per slot |
| EmitSpec.SlotOf | Assets/_Core/Scripts/EmitObject.cs:298 | `ElementAt(i)` reaches a used slot holding the `i`-th enumerated entry |
| EmitSpec.Visit | Assets/_Core/Scripts/EmitObject.cs:298-305 | a loop turn keeps the number of slots |
| EmitSpec.EntriesConcat | Assets/_Core/Scripts/EmitObject.cs:296-299 | enumeration distributes over a split of the slot array |
| EmitSpec.Regroup | Assets/_Core/Scripts/EmitObject.cs:296-299 | regrouping of enumerated parts, used to rebuild the enumeration around a slot |
| EmitSpec.EntriesAround | Assets/_Core/Scripts/EmitObject.cs:296-299 | the enumeration is the part before slot `k`, what slot `k` holds, and the part after it |
| EmitSpec.EntriesUpdate | Assets/_Core/Scripts/EmitObject.cs:300-305 | writing slot `k` replaces only that slot's part of the enumeration |
| EmitSpec.UpdateSplit | Assets/_Core/Scripts/EmitObject.cs:300 | an entry update splits its list into the part before, the new entry and the part after |
| EmitSpec.EntriesUpdateTail | Assets/_Core/Scripts/EmitObject.cs:300-305 | writing a slot after the first leaves the first slot's part in front |
| EmitSpec.ReplaceBehind | Assets/_Core/Scripts/EmitObject.cs:300-305 | replacing an entry behind a prefix is replacing the matching entry of the whole enumeration |
| EmitSpec.SlotEntries | Assets/_Core/Scripts/EmitObject.cs:298-305 | writing or emptying the slot `ElementAt(i)` reaches replaces or drops exactly entry `i` of the enumeration |
| EmitSpec.VisitSetsSlot | Assets/_Core/Scripts/EmitObject.cs:298-305 | a loop turn stores the lowered lifetime in entry `i`'s slot, or, once it is used up, empties the slot and pushes it on the free list |
| EmitSpec.VisitEntries | Assets/_Core/Scripts/EmitObject.cs:298-305 | on the enumeration a loop turn lowers entry `i`, or removes it once it is used up |
| EmitSpec.SweepFromIsPass | Assets/_Core/Scripts/EmitObject.cs:296-307 | the loop from index `i` leaves the enumeration as the first `i` entries followed by `Pass` of the rest |
| EmitSpec.SweepIsPass | Assets/_Core/Scripts/EmitObject.cs:296-307 | the whole loop does to the enumeration what `Pass` does to a list |
| EmitSpec.AddAppends | Assets/_Core/Scripts/EmitObject.cs:365 | with no slot free, `Add` appends the entry to the enumeration |
| EmitSpec.AddRefills | Assets/_Core/Scripts/EmitObject.cs:365 | with a slot free, `Add` puts the entry where the most recently removed one was, ahead of every entry in a later slot |
| EmitSpec.AddEntryContents | Assets/_Core/Scripts/EmitObject.cs:365 | `Add` introduces no entry but the new one |
| EmitSpec.AddRefillsRemovedSlot | Assets/_Core/Scripts/EmitObject.cs:296-307 | an entry the sweep removes at index `i` is replaced, by the next `Add`, with the new entry at the same index `i` |
| EmitSpec.AddKeepsValid | Assets/_Core/Scripts/EmitObject.cs:365 | `Add` keeps the free list equal to the set of empty slots, each listed once |
| EmitSpec.StoreKeepsValid | Assets/_Core/Scripts/EmitObject.cs:300 | storing a lifetime in a used slot keeps the free list in step |
| EmitSpec.RemoveKeepsValid | Assets/_Core/Scripts/EmitObject.cs:302-305 | removing a used slot's entry keeps the free list in step |
| EmitSpec.VisitKeepsValid | Assets/_Core/Scripts/EmitObject.cs:298-305 | a loop turn keeps the free list in step |
| EmitSpec.SweepFromKeepsValid | Assets/_Core/Scripts/EmitObject.cs:296-307 | the sweep keeps the free list in step |
| EmitSpec.ThreeEntries | Assets/_Core/Scripts/EmitObject.cs:296-299 | the enumeration of three slots is what each of them holds, in slot order |
| EmitSpec.FirstOfThreeExpires | Assets/_Core/Scripts/EmitObject.cs:296-307 | when only the first of three entries expires, it is removed and its slot freed, the second is passed over and the third lowered |
| EmitSpec.ReusedSlotIsEnumeratedFirst | Assets/_Core/Scripts/EmitObject.cs:296-307 | `a` expires and is removed, `d` added next takes its slot and comes first in the enumeration, and when `d` expires the sweep passes over `b` again |
| EmitSpec.UpdateKeepsValid | Assets/_Core/Scripts/EmitObject.cs:267-315 | an `Update` keeps `_testObjects`' free list in step with its empty slots |
| EmitObjectModel.VisitEntry | Assets/_Core/Scripts/EmitObject.cs:298-305 | one turn of the loop is `EmitSpec.Visit`: entry `i` is lowered, or removed once used up |
| EmitObjectModel.SweepLoop | Assets/_Core/Scripts/EmitObject.cs:296-307 | the loop is `EmitSpec.SweepFrom` from index 0, acts on the enumeration as `Pass`, and keeps the free list in step |
| EmitSpec.SweepSkipsAfterRemoval | Assets/_Core/Scripts/EmitObject.cs:298-305 | whenever an entry expires, the next one is passed over with its lifetime unchanged and the pass resumes after it |
| EmitSpec.SweepSkipsAt | Assets/_Core/Scripts/EmitObject.cs:298-305 | an expiry at position `i` (with none before it) leaves the entry at `i + 1` unchanged at position `i`, and every earlier entry lowered by `dt` |
| EmitSpec.HoldAccumulates | Assets/_Core/Scripts/EmitObject.cs:277-294 | with the finger down the delay grows by the frame time and the trigger is set once it exceeds the maximum |
| EmitSpec.ReleaseResets | Assets/_Core/Scripts/EmitObject.cs:277-294 | with the finger up the delay is reset and the trigger cleared |
| EmitSpec.HoldTriggersAfterMax | Assets/_Core/Scripts/EmitObject.cs:277-294 | holding for `k` equal frames gives a delay of `k*dt`, and the trigger is set exactly once that exceeds the maximum |
| EmitSpec.ApplyPollKeeps | Assets/_Core/Scripts/EmitObject.cs:377-407 | a resumption changes only the anchors' flags and the message |
| EmitSpec.StartPollerKeeps | Assets/_Core/Scripts/EmitObject.cs:377-407 | starting a coroutine adds it and otherwise changes only the anchors' flags and the message |
| EmitSpec.PlaceRegistersVisual | Assets/_Core/Scripts/EmitObject.cs:339-375 | a resolved anchor is listed last and its visual registered for 10 s; an unresolved one only sets the failure message |
| EmitSpec.TapFaultsWhenResolved | Assets/_Core/Scripts/EmitObject.cs:317-337 | a tap that resolves an anchor throws once the anchor is placed; one that does not completes |
| EmitSpec.LocalizingPollHides | Assets/_Core/Scripts/EmitObject.cs:377-407 | while localizing, which the emitter always is once enabled, a finished resumption hides its anchor |
| EmitSpec.TapKeeps | Assets/_Core/Scripts/EmitObject.cs:317-337 | a tap keeps `_isLocalizing` and registers at most one new visual |
| EmitSpec.FingerStepKeeps | Assets/_Core/Scripts/EmitObject.cs:277-294 | a timer step changes the timer fields, and a placement may add one visual |
| EmitSpec.LocalizingIsNeverCleared | Assets/_Core/Scripts/EmitObject.cs:157-169 | nothing the emitter does clears `_isLocalizing` once `OnEnable` has set it |
| EmitSpec.UpdateKeepsLifetimesPositive | Assets/_Core/Scripts/EmitObject.cs:267-315 | positive lifetimes of all enumerated visuals are kept by an `Update` |
| EmitSpec.FingerStepKeepsLifetimesPositive | Assets/_Core/Scripts/EmitObject.cs:277-294 | the finger timer, which adds at most one visual with the full lifetime, keeps all lifetimes positive |
| EmitObjectModel.Emitter.constructor | Assets/_Core/Scripts/EmitObject.cs:134-155 | the fields start as the initialisers and `Awake` set them |
| EmitObjectModel.Emitter.Start | Assets/_Core/Scripts/EmitObject.cs:248-265 | the pool is filled with one batch of new, inactive projectiles, each with the prefab's `_maxLifeTime` |
| EmitObjectModel.Emitter.OnEnable | Assets/_Core/Scripts/EmitObject.cs:157-169 | as `EmitSpec.OnEnable` |
| EmitObjectModel.Emitter.OnFingerDown | Assets/_Core/Scripts/EmitObject.cs:181-236 | nothing while emitting is off; otherwise the finger is down and, for finger 0, the first inactive pooled projectile (after growing the pool if need be) is taken and restarted with its full lifetime, or the pool's exception is reported; the pooled projectiles keep their places, those added are new instances of the prefab and, apart from the one taken, inactive, and no other pooled projectile changes |
| EmitObjectModel.Emitter.OnFingerUp | Assets/_Core/Scripts/EmitObject.cs:238 | as `EmitSpec.FingerUp` |
| EmitObjectModel.Emitter.ApplyPoll | Assets/_Core/Scripts/EmitObject.cs:400-404 | as `EmitSpec.ApplyPoll` |
| EmitObjectModel.Emitter.StartCheckTerrainAnchorState | Assets/_Core/Scripts/EmitObject.cs:377-407 | as `EmitSpec.StartPoller` |
| EmitObjectModel.Emitter.ResumeCheckTerrainAnchorState | Assets/_Core/Scripts/EmitObject.cs:377-407 | as `EmitSpec.ResumePoller`, with its outcome |
| EmitObjectModel.Emitter.RegisterAnchor | Assets/_Core/Scripts/EmitObject.cs:357-365 | appends the anchor, active, and `Add`s its visual to `_testObjects` with a 10 s lifetime |
| EmitObjectModel.Emitter.PlaceGeospatialAnchor | Assets/_Core/Scripts/EmitObject.cs:339-375 | reports whether the anchor resolved, and moves the fields as `EmitSpec.PlaceGeospatialAnchor` |
| EmitObjectModel.Emitter.PlaceAnchorByScreenTap | Assets/_Core/Scripts/EmitObject.cs:317-337 | as `EmitSpec.PlaceByScreenTap`, with its outcome |
| EmitObjectModel.Emitter.FingerTimer | Assets/_Core/Scripts/EmitObject.cs:277-294 | as `EmitSpec.FingerStep`, with its outcome |
| EmitObjectModel.Emitter.HoldTimer | Assets/_Core/Scripts/EmitObject.cs:278-289 | the finger-down branch moves the fields as `EmitSpec.HoldStep`, with its outcome |
| EmitObjectModel.Emitter.ShowFingerDown | Assets/_Core/Scripts/EmitObject.cs:277 | the HUD's finger flag takes `_bIsFingerDown` and nothing else changes |
| EmitObjectModel.Emitter.AccumulateHold | Assets/_Core/Scripts/EmitObject.cs:280 | the delay grows by the frame time and nothing else changes |
| EmitObjectModel.Emitter.ResetHold | Assets/_Core/Scripts/EmitObject.cs:292-293 | the delay is reset and the trigger cleared, and nothing else changes |
| EmitObjectModel.Emitter.TriggerHold | Assets/_Core/Scripts/EmitObject.cs:281-288 | the trigger branch moves the fields as `EmitSpec.TriggerStep`, with its outcome |
| EmitObjectModel.Emitter.SweepTestObjects | Assets/_Core/Scripts/EmitObject.cs:296-307 | the loop leaves `_testObjects` as `EmitSpec.Sweep` says, whose enumeration is `EmitSpec.Pass` of the old one |
| EmitObjectModel.Emitter.Update | Assets/_Core/Scripts/EmitObject.cs:267-315 | one frame moves the fields as `EmitSpec.Update` |
| Projectiles.Aged | Assets/_Core/Scripts/Projectile.cs:24-31 | one `Update` lowers the lifetime by the frame time and leaves the projectile active only while some is left |
| Projectiles.Total | Assets/_Core/Scripts/Projectile.cs:24-31 | the time of a run of frames is never negative |
| Projectiles.LifetimeIsBudget | Assets/_Core/Scripts/Projectile.cs:13-31 | after any frames the lifetime is the start value less their total time, and it is active exactly while that stays positive (only the frames while it is active have a source counterpart) |
| Projectiles.InactiveStaysInactive | Assets/_Core/Scripts/Projectile.cs:28-30 | a deactivated projectile is never switched on again by `Update` |
| Projectiles.Projectile.constructor | Assets/_Core/Scripts/ProjectilePooler.cs:16-20 | a pool instance copies the prefab's maximum lifetime and starts inactive |
| Projectiles.Projectile.Init | Assets/_Core/Scripts/Projectile.cs:13-22 | `Init` restores the full lifetime and activates the projectile |
| Projectiles.Projectile.Update | Assets/_Core/Scripts/Projectile.cs:24-31 | as `Projectiles.Aged` |
| Pooling.FirstInactive | Assets/_Core/Scripts/ProjectilePooler.cs:23-25 | the position of the first inactive instance: every earlier one is active |
| Pooling.BatchSize | Assets/_Core/Scripts/ProjectilePooler.cs:36-37 | the `for` loop adds `_batchAmount` instances, or none when that is not positive |
| Pooling.ProjectilePooler.constructor | Assets/_Core/Scripts/ProjectilePooler.cs:11-14 | an empty pool with the configured batch size |
| Pooling.ProjectilePooler.IncreasePool | Assets/_Core/Scripts/ProjectilePooler.cs:34-38 | appends one batch of fresh inactive instances and keeps the old ones in place |
| Pooling.ProjectilePooler.Init | Assets/_Core/Scripts/ProjectilePooler.cs:40-50 | the pool becomes one batch of fresh inactive instances of the prefab |
| Pooling.ProjectilePooler.SearchInactive | Assets/_Core/Scripts/ProjectilePooler.cs:23-25 | the loop finds the first inactive instance |
| Pooling.ProjectilePooler.GetGameObject | Assets/_Core/Scripts/ProjectilePooler.cs:22-32 | returns the first inactive instance with the pool unchanged; otherwise grows the pool once and returns the first new one; throws when the retry also finds none |
| Pooling.ProjectilePooler.OnDestroy | Assets/_Core/Scripts/ProjectilePooler.cs:52-60 | the pool is emptied |

## Left out

- AR platform calls: `ARSession.state`, `Input.location`, `IsGeospatialModeSupported`, `EarthState`, `EarthTrackingState`, `CameraGeospatialPose`, raycasts and `ResolveAnchorOnTerrain` are inputs in `Frame`. The resolver is given the whole record, so the altitude of 0 passed to `ResolveAnchorOnTerrain` sits inside that input.
- Coroutine scheduling: `WaitForSeconds` and the 0.1 s spacing are not modelled. A resumption is a `Step` applied whenever the caller chooses, and each one reads the anchor's terrain state afresh.
- `Invoke(QuitApplication, …)` and `Application.Quit`: time-based and process-ending, so they are recorded as a schedule counter (`quitsScheduled`) and a flag (`quitRequested`).
- `AvailabilityCheck`, `StartLocationService`, the Android permission request, the privacy prompt and `GPSLocation`: platform set-up coroutines with no state of the core beyond what `Frame` supplies.
- `PlayerPrefs` and `JsonUtility`: the persisted key is a value (`Option<seq<StoredRecord>>`), not a JSON string.
- `DateTime.ToString` and `Convert.ToDateTime`: modelled as the decimal number of whole seconds, not the culture-dependent date format.
- A stored `SerializedTime` that does not parse, which makes `Convert.ToDateTime` throw, is excluded by the `StoredRecord` subset type.
- HistoryStore.SortNewestFirst: `List.Sort` is unstable, while the model sorts stably, so ties between equal created times keep their input order.
- The heading fallback of `PlaceGeospatialAnchor` (a quaternion from the heading when the rotation is the identity) is inside the resolver input. Quaternion arithmetic is left out.
- Projectile movement (`transform.Translate`, speed, the parent transform) and every UI element: HUD text, button visibility, snack-bar text other than the message kinds, and `Screen.sleepTimeout`.
- `Debug.Log` calls have no effect on the state.
- Floating point: `float` and `double` are modelled as `real`, so rounding of `Time.deltaTime` sums is not captured.
- Anchor objects: `Instantiate` is modelled as appending a list entry, and `Destroy` as removing it and marking the coroutines (see above). `nextVisual` stands in for a fresh identity.
- The resolver (`Frame.resolve`) is a function of the record, so the model does not make each resolved anchor's identity new. Two equal records replayed by one `ResolveHistory` get one identity, where the source creates two anchors. Coroutines track destruction by their own `destroyed` flag, so this does not affect which resumptions throw, but `Contains` and `Last()` compare identities.
- `GeospatialController.OnDisable` stops the coroutines too when it is caused by deactivating the `GameObject`. A resumption is an input of the model, so a stopped coroutine is one that is never resumed.
- `GeoAnchorController.Start`, which creates the prefabs, and `OnDisable`, which stops the location service, have no effect on the modelled state.
- `componentsMissing` means that `ARCoreExtensions` is missing from a present session origin. Only in `GeospatialController` does it also cover a null `_SessionOrigin`, which its `LifecycleUpdate` tests and its `UpdateDebugInfo` survives.
- `GeoAnchorController` with a null `m_sessionOrigin`: `Awake` quits and then throws (`m_sessionOrigin.GetComponent<EmitObject>()`), leaving `m_EmitObject`, `m_AddButtonText` and the managers null, so every later frame and every button click throws. The model covers only a present session origin: the constructor takes the emitter and the managers' answers come from frames.
- The `m_IsAddingAnchors` and `m_AnchorObjects` property bodies only update UI text beyond the field write.
- `Co_CheckTerrainAnchorState`: its messages are commented out in the source, so its effects on `GeoAnchorController` are the active flag and the exception only.
- `EmitObject.OnDisable` only unsubscribes touch handlers.
- The raycast `foreach` at the top of `OnFingerDown` has no lasting effect.
- `PlaceObjectEvent` is never subscribed in the repository, so whether anything listens is the `placeSubscribed` parameter.
- Touch input (`Input.GetTouch`, `EnhancedTouch`) is the frame's tap fields.
- `Shooter`, `GeoShooter`, `BodyTracking`, `InfoHUD` and `SafeUIAreaScaler` are not part of this model.
- EmitObjectModel.Emitter.SweepTestObjects: the loop runs on the dictionary's value and the result is stored back into the field. `Dictionary` is a value here, so aliasing of it is not captured.
- EmitSpec.AddEntry: when the head of the free list is out of range, which `Valid` rules out, `Add` appends. `Dictionary` keys, hashing, buckets and resizing are not modelled, since only slot order and the free list decide the enumeration.
- Pooling.ProjectilePooler.GetGameObject: `_pool` being null before `Init`, and the container transform of `CreatePrefabInstance`, are not modelled.

## Findings

| source | as written | input that shows it | evidently intended | confidence | as-written member | corrected member |
|---|---|---|---|---|---|---|
| Assets/_Core/Scripts/GeospatialController.cs:377-378 | `_IsSessionInitialised` (lines 200-202) is true only for states that are neither initializing nor tracking, and `Update` returns unless it holds, so `_IsSessionReady` (which needs tracking) is false on every frame that reaches the localization branch | `ARSessionState.SessionTracking` with location services `Running` and an accurate pose: the frame returns at the guard, and a localizing controller stays localizing for ever | go on while the session is initializing or tracking, as `GeoAnchorController.cs:97-99,175-176` does | not executed | Localization.AsWrittenGuardStopsTrackingSession, GeospatialSpec.AsWrittenNeverRegains, GeospatialControllerModel.GeospatialController.UpdateAsWritten | Localization.CorrectedGuardAdmitsReady, GeospatialSpec.CorrectedGuardRegains, GeospatialControllerModel.GeospatialController.Update |
| Assets/_Core/Scripts/GeoAnchorController.cs:170-179 | `m_IsReturning` is tested before `LifeCycleUpdate`, so a frame on which the lifecycle check latches the return goes on into `IsFeatureSupported`, which reads `m_coreExtensions` at line 538 | `m_coreExtensions` null (so `LifeCycleUpdate` latches the return), the session tracking, location running and the mode `Supported`: the same frame dereferences the missing component and throws | stop the frame once the lifecycle check has latched the return, as `GeospatialController.cs:373-375` does through its `_isReturning` test | not executed | GeoAnchorSpec.AsWrittenMissingExtensionsThrows, GeoAnchorSpec.AsWrittenSchedulesTwoQuits, GeoAnchorControllerModel.GeoAnchorController.UpdateAsWritten | GeoAnchorSpec.LatchEndsTick, GeoAnchorSpec.TicksAgreeWithoutReason, GeoAnchorControllerModel.GeoAnchorController.Update |
