# RockServer protocol models

Machine-checked models of RockServer's stateful protocols, written in Dafny 4.11. Each module models one component and
proves the properties that its documentation and tests rely on, over every input or every run.

| modules | component |
|---|---|
| `PersonalSync`, `PersonalStore`, `PersonalReplica`, `PersonalMerge`, `PersonalGuarantees`, `PersonalRollback`, `PersonalDivergence`, `PersonalContents` | the last-writer-wins personal-data store, its delta cursor, its sweeps, and a client that follows the cursor |
| `CommandProtocol`, `CommandSafety`, `CommandOutcome`, `CommandDispatch`, `CommandCapacity`, `CommandStranding`, `CommandSecrecy`, `CommandCauses`, `CommandCourses` | the device-command router over the durable command table, as a state machine whose steps interleave freely |
| `DirectoryStream` | one control session's directory: subscribe, watermark, snapshot, then re-reads driven by a lossy channel |
| `ManifestProjection` | the manifest transaction and the tables that index it |
| `PresenceRegistry` | active connection generations and bounded presence history, refined from a log of transitions |
| `IcyTitle`, `IcyRelay` | reading a title out of a metadata block, and the streaming ICY demultiplexer, its chunked reader and its bounded title cache |
| `CatalogGraph` | validation of the tombstone replacement graph and the redirects over it |
| `RateLimiter` | the sliding-window request limiter |
| `DeviceModel`, `DeviceRules`, `TargetValidation` | commands and manifests, and the router's checks |
| `IntentResolver`, `IntentRules`, `ResolverAgreement` | the intent resolver, what each of its answers means, and its agreement with the router |
| `CommandCodec`, `CommandReading` | the wire form of a command body: round trips, and what is read from objects of every form |
| `Common` | options, results and finite-set helpers |

Conventions: instants are integers (nanoseconds); a string's length stands for its length in bytes where the source
counts bytes; clocks, network peers and the success of a store call or channel push are parameters or events (a commit may also be reported as a failure); a mutex
section, a store call or a transaction is one atomic step; the SHA-256 fingerprint is injective. State marked `ghost`, and the
fields described as bookkeeping in `PersonalReplica`, `CommandProtocol` and `DirectoryStream`, are never read by a branch of the
model.

Results that differ from what the source's documentation says, or that it does not mention:

- The personal-data store is documented to apply a batch and its limits in one transaction, but a push that exceeds a limit
  stays merged: two runs of the model (`PersonalRollback.FavouriteLimitErrorIsReached`, `PersonalRollback.HistoryLimitErrorIsReached`),
  the exact condition under which a call, and a rejected call, changes nothing (`PersonalRollback.CallChangesNothingIff`,
  `PersonalRollback.RejectionIsAtomicIff`), and how long the
  account stays rejected (`PersonalRollback.OverLimitPushSticks`).
- A delete on a tombstone is a no-op, so arrival order can decide even liveness (`PersonalMerge.OrderIndependenceIsExact` gives the
  exact condition).
- A live history row past both retention periods is tombstoned and purged by one sweep, and a client that held it keeps it as live
  (`PersonalReplica.ExpiredAndPurgedTogetherIsLost`, `PersonalReplica.LostCopyIsReachable`). `PersonalDivergence.DivergenceIsExact`
  says by instants exactly which runs end with a client's live set differing from the server's.
- The in-flight limits of 8 and 16 are checked and applied in separate lock sections; 7 + K and 15 + K are reached with K overlapping
  submits (`CommandCapacity.CapacityBoundIsTight`).
- A now-playing view without a subtitle is written as `null` but read as a required string, and it is exactly what the resolver plans
  for that intent (`CommandCodec.BareNowPlayingIsRefused`, `ResolverAgreement.PlanOnTheWire`).
- The resolver accepts a station player without the catalog source, which the router refuses (`ResolverAgreement.RadioGapIsExact`,
  `ResolverAgreement.RadioGapIsReached`).
- The device selector of a sensor query is documented to narrow the search; only a known area does. A query that names one device
  and is answered with the sensor of another (`ResolverAgreement.QueryMissesItsDevice`), and the exact condition under which the
  narrowing holds (`ResolverAgreement.QueryNarrowsIff`).
- Revoking a device changes the connection registry and announces nothing, so a drained directory session keeps the old entry
  (`DirectoryStream.RevocationGoesUnseen`); `DirectoryStream.QuiescentDirectoryIsExact` gives the exact condition for every fact.
- A submit whose receipt cannot be queued leaves an in-flight entry that no timer covers. It stays, with its row reserved, until the
  target answers or goes away, and eight of them close the target to every submit (`CommandStranding.StrandedEntryStays`,
  `CommandStranding.TargetCanBeClosed`).

## Model

| member | source | states |
|---|---|---|
| PersonalSync.ApplyEvolves | src/personal_data/in_memory.rs:183-301 | one merge or tombstone keeps revisions distinct and at most the counter, every tombstone's deletion instant equal to its update instant, never drops a row, never lowers an update instant, and gives a changed row a fresh higher revision |
| PersonalSync.ApplyAllEvolves | src/personal_data/in_memory.rs:66-91 | the same for a whole batch of changes |
| PersonalSync.ExpireRowsEvolves | src/personal_data/in_memory.rs:317-323 | the same for expiring live rows, which are tombstoned at their own update instant |
| PersonalSync.ExpireOwnersEvolves | src/personal_data/in_memory.rs:130-147 | the same for the fleet-wide expiry |
| PersonalSync.ExpireOwnerExact | src/personal_data/in_memory.rs:303-323 | expiry touches exactly the account's live rows that started before the cutoff, and changes only their deletion instant and revision |
| PersonalSync.ExpireFleetExact | src/personal_data/in_memory.rs:130-147 | the sweep's expiry touches exactly the live history rows of every account past retention |
| PersonalStore.SortIsSorted | src/personal_data/in_memory.rs:348-349 | the reply is ordered by revision |
| PersonalStore.DeltaAndEchoIsExact | src/personal_data/in_memory.rs:331-351 | the reply holds each row past the cursor and each pushed row, once each and nothing else, sorted; the new cursor is the largest of the old one and every revision of the account |
| PersonalStore.CollectPage | src/personal_data/in_memory.rs:337-350 | the selection loop refines that specification |
| PersonalStore.MergeBatch | src/personal_data/in_memory.rs:66-71 | the loops over upserts and then deletes refine the fold of the change list |
| PersonalStore.PersonalDataStore.Synchronize | src/personal_data/in_memory.rs:49-124 | store and reply after a call equal the specification, including every error return and the state each leaves behind |
| PersonalContents.BatchSettles | src/personal_data/in_memory.rs:183-301 | a batch that names each record once decides every record by its own change and the row before the batch: the newer upsert's content, the delete that keeps the content, the delete of an unknown record, or nothing |
| PersonalContents.FavouriteUpsertIsStored | src/personal_data/in_memory.rs:190-212 | after any valid request, the row of each pushed favourite holds the station, addition and update instants pushed, live, unless the stored row is as new and then stays |
| PersonalContents.FavouriteDeleteIsStored | src/personal_data/in_memory.rs:214-239 | a delete that wins keeps station and addition instant, one of an unknown record stores no station and its own instant, any other leaves the row |
| PersonalContents.OtherFavouritesStay | src/personal_data/in_memory.rs:66-71 | a favourite that the request does not name is untouched |
| PersonalContents.PlayIsStored | src/personal_data/in_memory.rs:241-270 | after an accepted request, the row of each pushed play holds its station, start, last-played and end instants, duration and metadata, and is a tombstone exactly when it started over 90 days ago |
| PersonalContents.PlayDeleteIsStored | src/personal_data/in_memory.rs:272-301 | the same three outcomes for deleted plays, field by field |
| PersonalContents.OtherPlaysStay | src/personal_data/in_memory.rs:303-323 | a play that the request does not name is only ever expired, at its last update |
| PersonalContents.BatchSkipsNoRevision | src/personal_data/in_memory.rs:22-26 | every revision a batch issues stands on a row it changed, without a gap |
| PersonalContents.ExpirySkipsNoRevision | src/personal_data/in_memory.rs:303-323 | so does every revision that expiry issues |
| PersonalContents.ValidationIsExact | src/personal_data/domain.rs:276-389 | a request is valid exactly when its four lists have at most 300 entries, no record is named twice, station ids are plain, no instant is over five minutes ahead, and plays are ordered, at most 30 days long and with object metadata of at most 4096 bytes |
| PersonalContents.AnswerIsExact | src/personal_data/in_memory.rs:60-96 | each error is returned exactly when its condition on the request and the limit of 500 live records holds |
| PersonalContents.ReplyIsExact | src/personal_data/in_memory.rs:97-124 | an accepted reply lists a row exactly when it is stored for the account and past the cursor or named by the request |
| PersonalContents.CursorIsExact | src/personal_data/in_memory.rs:337-350 | the new cursor is the least that neither the old one nor any row of the account exceeds |
| PersonalStore.PersonalDataStore.ExpireHistory | src/personal_data/in_memory.rs:303-323 | the in-place expiry loop refines the specification whose effect on rows is proved exact |
| PersonalStore.PersonalDataStore.SweepRetention | src/personal_data/in_memory.rs:126-170 | expiry of every account and both purges, as the specification orders them; the first counter is the number of live plays past retention, the second the number of rows both collections lost |
| PersonalReplica.FoldOverwrites | src/personal_data/domain.rs:235-244 | folding a reply makes the client's copy equal the server's row for every record in it and leaves the others alone |
| PersonalReplica.ReadKeeps | src/personal_data/in_memory.rs:93-124 | after a read at the client's cursor its copy equals every stored row of the account in both collections |
| PersonalReplica.StepKeeps | src/personal_data/in_memory.rs:49-170 | every lock section of every account, whole or in pieces, and both sweeps keep the invariant: revisions distinct across both collections and at most the counter, and the client tracked up to its cursor |
| PersonalReplica.RunKeeps | src/personal_data/in_memory.rs:49-170 | the invariant holds in every reachable state |
| PersonalReplica.SynchronizationIsThreeSteps | src/personal_data/in_memory.rs:49-124 | an accepted request of the client is the favourites section, the history section and the read of the state machine, and the client folds exactly that reply |
| PersonalReplica.HistorySectionIsRowByRow | src/personal_data/in_memory.rs:79-91 | the history section is the merge of its batch followed by the expiry of one row at a time, so steps of the other collection may fall in between |
| PersonalReplica.ReplicaConverges | src/personal_data/in_memory.rs:49-170 | over every run ending in the client's read, its copy agrees with every row the server still stores, and the live sets agree exactly when no live copy was lost to a purge; which copies are lost is decided by PersonalDivergence.DivergenceIsExact |
| PersonalReplica.SeenPurgeLosesNothing | src/personal_data/in_memory.rs:148-166 | a sweep that purges only tombstones the client has read loses no copy |
| PersonalReplica.PunctualClientNeverDiverges | src/personal_data/in_memory.rs:126-170 | a client that reads between each tombstone's creation and its purge has the server's live set after every read |
| PersonalReplica.ExpiredAndPurgedTogetherIsLost | src/personal_data/in_memory.rs:130-154 | the exception: a row expired and purged by the same sweep stays live in the client's copy |
| PersonalReplica.LostCopyIsReachable | src/personal_data/in_memory.rs:130-154 | a run of one push, one read, one sweep and one read ends in that exception |
| PersonalDivergence.PurgeLossIsExact | src/personal_data/in_memory.rs:126-170 | a sweep or purge newly loses a copy exactly when the client shows the record as live, the row is stored, and its deletion instant, or for a play expired by this sweep its last update, is past tombstone retention |
| PersonalDivergence.CurrentCopyLossIsExact | src/personal_data/in_memory.rs:130-154 | for a client holding the stored row, a sweep loses the play exactly when it is live and its start and last update are both over 90 days old |
| PersonalDivergence.CurrentFavouriteIsNotLost | src/personal_data/in_memory.rs:155-166 | a favourite the client holds as stored is lost by no step |
| PersonalDivergence.ReadRecovers | src/personal_data/in_memory.rs:331-351 | a read recovers a lost copy exactly when the record is stored again |
| PersonalDivergence.DivergenceIsExact | src/personal_data/in_memory.rs:49-170 | over every run ending in a read the live sets differ exactly when some purge took a record the client showed as live, by those instants, and no later read met the record again |
| PersonalMerge.LatestWins | src/personal_data/in_memory.rs:183-239 | when the latest change is an upsert or the only delete, it decides liveness, instant and live content whatever the arrival order |
| PersonalMerge.OrderIndependenceIsExact | src/personal_data/in_memory.rs:183-239 | the outcome of distinct-instant changes is the same for every arrival order if and only if the latest is an upsert or the only delete |
| PersonalMerge.TwoDeletesAroundAnUpsertDisagree | src/personal_data/in_memory.rs:220-227 | the concrete pair of orders that ends live in one and deleted in the other |
| PersonalMerge.BatchIsAbsorbed | src/personal_data/in_memory.rs:66-71 | after a batch, applying any of its changes again would be a no-op |
| PersonalMerge.HistorySectionIdempotent | src/personal_data/in_memory.rs:79-91 | repeating the history section at one clock, expiry included, changes nothing |
| PersonalMerge.ReplayIsIdempotent | src/personal_data/in_memory.rs:49-124 | resending any request at the same clock changes no row, allocates no revision and gives the same outcome, errors included |
| PersonalGuarantees.EveryPushIsAnswered | src/personal_data/in_memory.rs:325-330 | an accepted request returns, for each change it carried, a row at least as new or the tombstone a delete left alone |
| PersonalGuarantees.AcceptedAccountIsWithinLimits | src/personal_data/domain.rs:391-395 | after an accepted request the account is within both limits and has no live play past retention |
| PersonalGuarantees.OtherAccountsAreUntouched | src/personal_data/domain.rs:391-403 | no request, accepted or rejected, changes a row of another account |
| PersonalGuarantees.SweepIsExact | src/personal_data/in_memory.rs:126-154 | a sweep removes exactly the history rows whose deletion instant is past tombstone retention, counting a play it expires as deleted at its last update, and keeps the others but for deletion instant and revision |
| PersonalGuarantees.FavouriteSweepIsExact | src/personal_data/in_memory.rs:155-166 | of favourites the sweep removes exactly the tombstones over 90 days old and changes none it keeps |
| PersonalRollback.CallChangesNothingIff | src/personal_data/in_memory.rs:49-124 | for every store and request, accepted or not, the store is unchanged if and only if the request is invalid, or its favourite changes are already absorbed and either the account is over its favourites limit or its plays are absorbed too and none is past retention |
| PersonalRollback.RejectionIsAtomicIff | src/personal_data/domain.rs:391-395 | for every store and request, a rejected call leaves the store unchanged if and only if the request is invalid, or every change merged before the error was already absorbed and, for the history limit, no live play of the account is past retention |
| PersonalRollback.FavouriteLimitErrorIsReached | src/personal_data/in_memory.rs:60-78 | from the empty store, 300 favourites, 200 more and one too many: the last call fails and changes the store |
| PersonalRollback.HistoryLimitErrorIsReached | src/personal_data/in_memory.rs:79-96 | the same with plays |
| PersonalRollback.OverLimitPushSticks | src/personal_data/in_memory.rs:72-78 | after a favourites limit error, whatever calls of any account and sweeps follow, every valid request of the account is rejected as long as it has sent no favourite delete |
| CommandSafety.MovesAreDisciplined | src/device_control_command/router.rs:157-326 | each step of a submit, timer or finisher, acknowledged or not, reserves, inserts, removes or completes only a reservation that its task holds |
| CommandSafety.StepKeepsHolder | src/device_control_command/router.rs:68-463 | every step keeps: a reservation without a result is held by its in-flight entry or by one task, never two |
| CommandSafety.RunKeepsHolder | src/device_control_command/router.rs:435-463 | in every reachable state each in-flight entry is reserved in the store under its own owner and target, with no second holder |
| CommandOutcome.StepKeepsResults | src/device_control_command/router.rs:436-463 | every step keeps: stored results match their rows, and frames and pending reports match stored results |
| CommandOutcome.StoredResultIsFinal | src/persistence/device_control_postgres.rs:285-315 | a stored terminal result is never replaced by a later finisher, timer or retry |
| CommandOutcome.StoredResultOutlastsEveryRun | src/device_control_command/router.rs:435-463 | over whole runs: once a result is stored for a reservation, no continuation changes it, gives its row another result or reports another one |
| CommandOutcome.ResultReportedOnce | src/device_control_command/router.rs:308-463 | in every interleaving a reservation gets at most one first-hand result frame, and every result frame equals the stored result |
| CommandCauses.StoredResultHasCause | src/device_control_command/router.rs:208-433 | over every run a stored result is the one the recorded owner, device and generation reported for an in-flight entry, restamped, or a failure with the code of its cause: a timer, a lost or unreachable target, a failed lookup with its own code and message, or a rejection for the limit |
| CommandCauses.ReportedResultHasCause | src/device_control_command/router.rs:436-512 | the same of every result a controller is told, first-hand or replayed |
| CommandCauses.SuccessWasReported | src/device_control_command/router.rs:364-397 | a stored success is word for word what a target reported for its in-flight entry |
| CommandCauses.CauseIsOfTheReservation | src/device_control_command/router.rs:435-463 | for a command id that was reserved once, the cause concerns the very reservation whose result is stored |
| CommandCauses.RejectedAtLimit | src/device_control_command/router.rs:192-219 | every submit being rejected for the limit was checked while eight commands to its target or sixteen of its connection were in flight |
| CommandCourses.SubmitIsTakenUp | src/device_control_command/router.rs:79-137 | a submit starts exactly when both ends are online generations of its owner and it names no resolved stream |
| CommandCourses.ReservationIsExact | src/persistence/device_control_postgres.rs:244-269 | from any state and for any reply: replay of a recent row of the same owner and command, a new row where none or a finished old one stands, nothing otherwise; a lost acknowledgement leaves the row alone behind |
| CommandCourses.FreshCommandIsDispatched | src/device_control_command/router.rs:157-328 | undisturbed, six steps take a vacant command below both limits between online ends to exactly one reserved row, one entry, the controller's receipt and the target's command, with its timer waiting |
| CommandCourses.StationIsResolvedAndDispatched | src/device_control_command/router.rs:244-307 | for a station seven steps, and the target is sent the catalog's stream and presentation |
| CommandCourses.UndeliverableReceiptStrands | src/device_control_command/router.rs:228-243 | a refused receipt or a controller gone ends the submit with entry and row left as they are |
| CommandCourses.RejectionIsRecorded | src/device_control_command/router.rs:192-219 | at the limit, three steps leave exactly a finished row with that code; neither end hears anything |
| CommandCourses.RepeatedCommandIsReplayed | src/device_control_command/router.rs:474-512 | a repeated command is answered with a duplicate receipt and, once there is one, the stored result, and changes nothing else |
| CommandCourses.FinisherSettles | src/device_control_command/router.rs:435-463 | a finisher that finds its entry and the row open leaves exactly the entry gone, the row with the result, and the controller told if it is still online |
| CommandCourses.FailedCompletionEnds | src/persistence/device_control_postgres.rs:285-315 | a completion that is refused, or meets another owner's, another target's or a finished row, changes nothing; one whose acknowledgement is lost keeps the result and tells nobody |
| CommandCourses.FailureIsSettled | src/device_control_command/router.rs:271-326 | a failed or refused lookup, an unreachable target and a timer each settle the command with their own code and message |
| CommandCourses.ReportsStartFinishers | src/device_control_command/router.rs:364-433 | a target's result or loss starts a finisher exactly when it comes from the recorded owner, device and generation; anything else changes nothing |
| CommandCourses.ReportIsSettled | src/device_control_command/router.rs:364-398 | three steps later the row holds that result as it stands and the controller has been told if it is online |
| CommandCourses.AcknowledgementIsForwarded | src/device_control_command/router.rs:330-361 | an acknowledgement reaches the controller exactly when it comes from the recorded generation and the controller is online |
| CommandCourses.PruningIsExact | src/persistence/device_control_postgres.rs:316-319 | only a finished row past 24 hours is ever removed; ageing changes nothing else |
| CommandDispatch.StepKeepsDispatch | src/device_control_command/router.rs:157-328 | every step keeps: one task per reservation, and dispatches only the client's body or the stream and presentation the catalog resolves its station to |
| CommandDispatch.DispatchedOnce | src/device_control_command/router.rs:289-307 | a reservation sends at most one device.command, to its recorded generation, with the client's body or the very stream and presentation the catalog resolves its station to |
| CommandDispatch.RetryIsExact | src/persistence/device_control_postgres.rs:244-269 | a known command id replays exactly when the row is recent and the same owner sent the same client-visible command, reserves anew exactly when the row is finished and older, and otherwise ends with nothing dispatched |
| CommandDispatch.StepKeepsCover | src/device_control_command/router.rs:220-326 | every step keeps each in-flight entry covered by a task that will still remove it, or marked as left by an undeliverable receipt |
| CommandDispatch.NoEntryLingers | src/device_control_command/router.rs:220-326 | every in-flight entry is still reserved, and is held by its submit, timer or finisher, or was left by a submit whose receipt could not be queued |
| CommandStranding.StrandedEntryStays | src/device_control_command/router.rs:228-243 | in every continuation in which the target neither answers the command nor goes away, an entry without finisher stays in flight and its row stays reserved without a result |
| CommandStranding.StrandedEntriesCloseTarget | src/device_control_command/router.rs:192-219 | eight such entries of one target make every later submit to it exceed the limit |
| CommandStranding.TargetCanBeClosed | src/device_control_command/router.rs:228-243 | a run of eight submits with undeliverable receipts after which that is so |
| CommandCapacity.CapacityBound | src/device_control_command/router.rs:192-231 | with at most K submits between check and insertion, at most 7 + K commands to a target and 15 + K of a connection are in flight |
| CommandCapacity.AtomicAdmissionMeetsLimit | src/device_control_command/router.rs:27-28 | with check and insertion not overlapping the limits of 8 and 16 hold |
| CommandCapacity.CapacityBoundIsTight | src/device_control_command/router.rs:192-231 | for every K at least 1 some run with at most K overlapping submits reaches exactly 7 + K, or 15 + K |
| CommandSecrecy.StepAlike | src/device_control_command/router.rs:244-307 | every step keeps two executions alike that differ only in what stations resolve to |
| CommandSecrecy.ResolutionDoesNotInterfere | src/device_control_command/router.rs:140-306 | two catalogs that fail alike give identical store, fingerprints, entries and controller frames; only device.command frames to targets differ |
| DirectoryStream.NewsSurvives | src/http/control.rs:301-318 | a re-read still owed for a fact stays owed until the session takes that device's event |
| DirectoryStream.RunStaysGapless | src/http/control.rs:252-318 | in every reachable state each fact a streaming client holds is as stored, or a re-read of its device is owed, or the session lags, or the copy predates a write that nobody announces |
| DirectoryStream.QuiescentDirectoryIsExact | src/http/directory.rs:88-171 | once events are drained and no publication is under way, an unlagged client's copy of a fact equals the store if and only if it is no older than the last unannounced write of that fact; without unannounced writes it always does |
| DirectoryStream.RevocationGoesUnseen | src/device_control_presence.rs:286-319 | a run in which a revocation, which changes the registry and announces nothing, leaves a drained client with a stale copy |
| DirectoryStream.RevisionIsWatermark | src/device_control_state.rs:49-141 | every write announced at or below the revision sent with a fact is reflected in the copy sent |
| DirectoryStream.LoadKeepsRevision | src/http/control.rs:301-318 | from the read of the cursor to the delivery nothing changes the revision of a load |
| DirectoryStream.DeliveredRevisionIsExact | src/http/directory.rs:167 | in every run each fact of a delivery carries the greater of 1 and the cursor at the read that began its load, with the version loaded |
| DirectoryStream.EarlierWritesAreCovered | src/device_control_state.rs:130-141 | every write announced before a read of the cursor is at or below the revision read |
| DirectoryStream.LoadsFill | src/http/directory.rs:88-171 | loading any facts in any order, repeated or not, fills the load with the stored version of exactly those in its scope |
| DirectoryStream.RereadRefreshes | src/http/control.rs:301-318 | an undisturbed re-read takes one event off the queue and leaves every fact of its device as stored and the others as they were |
| DirectoryStream.FirstLoadDeliversAll | src/http/control.rs:252-300 | an undisturbed first load leaves every fact as stored |
| DirectoryStream.AnnouncementIsQueued | src/device_control_state.rs:130-141 | an announcement reaches every listening session, and makes it lag exactly when 64 events are already waiting |
| DirectoryStream.ClosesOnlyForCause | src/http/control.rs:301-318 | a session ends only by a failed load or by a receive that finds it lagging |
| ManifestProjection.DeviceControlTables.ApplyManifest | src/persistence/device_control_postgres.rs:47-126 | tables and outcome after the call equal the specification; every early return leaves the tables untouched; the per-item rules enter as their verdict |
| ManifestProjection.ProjectItems | src/persistence/device_control_postgres.rs:393-408 | the projection loop refines the fold over the list and stops at the first refused item |
| ManifestProjection.ProjectAllExact | src/persistence/device_control_postgres.rs:393-408 | a list is projected exactly when no stored identifier changes payload, and then exactly its rows are live with the new revision |
| ManifestProjection.ProjectExact | src/persistence/device_control_postgres.rs:393-408 | the three lists together: success exactly when all payloads are kept, and then the live rows are exactly the manifest's items |
| ManifestProjection.AcceptanceIsExact | src/persistence/device_control_postgres.rs:339-358 | a manifest is accepted exactly when its items and limits are valid, it is owned, the successor revision if one is stored, and keeps every payload; anything else changes nothing |
| ManifestProjection.RefusedOutright | src/persistence/device_control_postgres.rs:47-58 | Invalid exactly when an item or one of the literal limits is violated, NotOwned exactly when the rest is valid and the device is another owner's |
| ManifestProjection.SuccessorAnswerIsExact | src/persistence/device_control_postgres.rs:339-358 | for a valid owned call and a stored manifest, all five outcomes decided by revision, equality and payload: Stale below, Replay for the stored manifest itself, Resync above the successor, Conflict for the same revision with another manifest or a successor that changes a payload, Accepted otherwise |
| ManifestProjection.FirstAnswerIsExact | src/persistence/device_control_postgres.rs:393-408 | a first manifest conflicts exactly when it changes a stored payload and is accepted otherwise |
| ManifestProjection.RevisionOrderIsExact | src/device_control/revision.rs:13-35 | each order of two revisions, with or without a required base, holds exactly under its condition |
| ManifestProjection.PayloadsArePermanent | src/persistence/device_control_postgres.rs:402-407 | no call drops a row, changes a payload or touches another device's rows |
| ManifestProjection.ProjectionAgrees | src/persistence/device_control_postgres.rs:47-126 | after any sequence of calls the live rows of every device are exactly the items of its stored manifest |
| PresenceRegistry.PushKeepsLast | src/device_control_presence.rs:350-356 | popping at capacity before pushing keeps the last min(128, n) events |
| PresenceRegistry.ConnectionRegistry.PushEvent | src/device_control_presence.rs:350-356 | every deque stays the tail of its user's events and the log stays faithful |
| PresenceRegistry.ConnectionRegistry.Register | src/device_control_presence.rs:140-177 | registration takes the device over, logs one online event, reports the holder that the log names and hands it one replacement notice |
| PresenceRegistry.ConnectionRegistry.Disconnect | src/device_control_presence.rs:250-284 | only the current generation goes offline, with one offline event carrying its last activity; a stale one changes nothing |
| PresenceRegistry.ConnectionRegistry.Revoke | src/device_control_presence.rs:287-319 | only the owner's revocation removes the device and notifies its connection; any other changes nothing |
| PresenceRegistry.NoticeStep | src/device_control_presence.rs:124-132 | with generations issued once no connection is ever handed a second notice, so its channel of capacity one never drops any |
| PresenceRegistry.ConnectionRegistry.Heartbeat | src/device_control_presence.rs:233-248 | only the current generation refreshes its activity; owners, generations and events are untouched |
| PresenceRegistry.ConnectionRegistry.UpdateManifest | src/device_control_presence.rs:194-213 | only the current generation replaces its manifest; nothing else changes |
| PresenceRegistry.ConnectionRegistry.SendTo | src/device_control_presence.rs:215-231 | a frame is handed over only if the log says that owner and generation hold the device |
| PresenceRegistry.ConnectionRegistry.EventsFor | src/device_control_presence.rs:321-330 | the caller gets exactly the last 128 of its own transitions, in order |
| PresenceRegistry.RetainedEventsDecidePresence | src/device_control_presence.rs:321-330 | for a device that stayed with one account the last retained event decides whether and under which generation it is online |
| PresenceRegistry.OfflineOnce | src/device_control_presence.rs:250-284 | a generation goes offline at most once, and never after a newer registration replaced it |
| IcyRelay.AudioSplits | src/http/relay.rs:303-313 | what is forwarded does not depend on where an audio run is cut |
| IcyRelay.IcyOutputIsPrefix | src/http/relay.rs:301-352 | with metadata the output is a byte-exact prefix missing at most one unfinished block |
| IcyRelay.SegmentDemuxes | src/http/relay.rs:315-351 | one audio run, its length byte and its block are forwarded whole or as audio alone |
| IcyRelay.DemuxInvertsInterleaving | src/http/relay.rs:293-353 | any well-formed interleaving demultiplexes to exactly its audio without metadata and to itself with metadata |
| IcyRelay.Reader.Take | src/http/relay/icy.rs:43-70 | returns a non-empty next piece of at most the limit while bytes are left before the end or a failure, whatever the chunks |
| IcyRelay.Reader.Exact | src/http/relay/icy.rs:73-82 | returns exactly the next bytes across chunks, or none when the stream ends or fails first |
| IcyRelay.TitleCache.Observe | src/http/relay.rs:328-344 | for any instants, at most 1024 titles; only a full cache that lacks the station evicts, and evicts a title with the least instant; the new title is announced once |
| IcyTitle.TitleRoundTripIsExact | src/http/relay/icy.rs:85-97 | a title framed and padded as a block is read back if and only if it is non-empty, at most 512 bytes, well-formed UTF-8 and free of control characters and closing marks |
| IcyTitle.TitleIsReadIff | src/http/relay/icy.rs:85-97 | for every title and every tail, `StreamTitle='` title `';` tail reads as that title if and only if the title is non-empty, at most 512 bytes and free of control characters and closing marks, and the whole block is well-formed |
| IcyTitle.TitleComesFromFrame | src/http/relay/icy.rs:85-97 | the converse: a title is read only from a block of that form |
| IcyTitle.Utf8IsExact | src/http/relay/icy.rs:85-97 | a byte sequence is taken as well-formed exactly when it encodes some scalar values by section 3 of RFC 3629 |
| IcyTitle.ControlIsExact | src/http/relay/icy.rs:85-97 | the encoding of a text is taken to hold a control character exactly when the text does |
| IcyRelay.RecordTitle | src/http/relay.rs:322-344 | a block announces its title, if it has one, for this station, and the cache then shows it |
| IcyRelay.PumpBlock | src/http/relay.rs:315-351 | one metadata step announces the title of the block, forwards or drops the block and leaves the rest of the input to be forwarded and announced |
| IcyRelay.Pump | src/http/relay.rs:293-353 | for every chunking the client gets a prefix of the demultiplexed input and listeners hear a prefix of the titles of its blocks, in order and once each, all of both unless the client went away |
| CatalogGraph.HasCycle | src/catalog/shared.rs:455-470 | the search over the shared path set gives the specified answer and restores the set |
| CatalogGraph.SearchIsSound | src/catalog/shared.rs:455-470 | a reported cycle yields a walk that meets the path or repeats a node |
| CatalogGraph.SearchIsComplete | src/catalog/shared.rs:455-470 | such a walk is always reported |
| CatalogGraph.CycleDetectionIsExact | src/catalog/shared.rs:455-470 | a cycle is reported from a node exactly when some walk from it repeats a node |
| CatalogGraph.IdentityTestIsExact | src/catalog/shared.rs:397-408 | comparing set and list sizes finds exactly the duplicate or still active identities |
| CatalogGraph.BuildGraph | src/catalog/shared.rs:409-445 | succeeds exactly when every tombstone has a valid shape and known, distinct, other replacements, and builds their graph |
| CatalogGraph.ValidateTombstones | src/catalog/shared.rs:397-453 | which error a document gets, each exactly: identities repeated or still active; some tombstone without the replacements its reason asks for (none, one, or two and more), or with a malformed, unknown, repeated or own one; or a succession of replacements that repeats an identity |
| CatalogGraph.ReplacementIsExact | src/catalog/shared.rs:108-119 | in a valid catalog the answer for a retired identity is given by its reason: nothing for removed, its one successor for merged, all of them for split |
| CatalogGraph.RedirectWalksAreShort | src/catalog/shared.rs:108-119 | in a validated catalog a chain of merge redirects is no longer than the number of tombstones |
| CatalogGraph.RedirectsEnd | src/catalog/shared.rs:108-119 | following redirects from a known identity ends at an active, removed or split identity |
| RateLimiter.RetainRecent | src/http/state.rs:117 | pruning the already pruned bucket gives what pruning the whole acceptance log would |
| RateLimiter.RecentIsSuffix | src/http/state.rs:117 | for a monotonic log the kept instants are its in-window suffix |
| RateLimiter.AdmitAgrees | src/http/state.rs:116-131 | one request keeps the bucket equal to the in-window suffix of the full log and keeps any burst + 1 acceptances a window apart |
| RateLimiter.RoomIsExact | src/http/state.rs:116-131 | on a monotonic log fewer than the burst are in the window exactly when the burst is positive and the acceptance a burst ago, if any, is at least 60 s old |
| RateLimiter.Limiter.Allow | src/http/state.rs:105-172 | admits exactly when the burst is positive and the acceptance a burst ago, if any, is at least 60 s old, and extends only that key's log |
| RateLimiter.EveryWindowIsBounded | src/http/state.rs:105-172 | over every run on a monotonic clock no window shorter than 60 s holds more than the burst of one key |
| DeviceModel.DeadlineWindowIsExact | src/device_control/command.rs:208-215 | the first of two deadline checks passes exactly from just under one second in the past to just under 31 seconds ahead |
| DeviceRules.CommandRule | src/device_control/command.rs:206-215 | target, deadline and body are checked in that order, with the instants of the window written out |
| DeviceRules.CardsRule | src/device_control/command.rs:95-130 | a list of cards is valid exactly when every label fits and no unavailable card is fresh; otherwise the first bad card names the field |
| DeviceRules.LessIsTheOrder | src/device_control_command/target_validation.rs:93-96 | the comparison of set points is the order of binary64, in which not-a-number compares with nothing |
| TargetValidation.PlayerAcceptanceIsExact | src/device_control_command/target_validation.rs:16-45 | a station, either kind of stream, a playback action or a volume command is accepted exactly when the manifest is a player's and declares that source, action or volume; the code of every refusal |
| TargetValidation.DisplayAcceptanceIsExact | src/device_control_command/target_validation.rs:46-70 | a view is accepted exactly when its target names a display surface of the manifest, which declares the role and a capability within whose limits the view is |
| TargetValidation.ActuatorAcceptanceIsExact | src/device_control_command/target_validation.rs:71-102 | an actuator command is accepted exactly when its target names a controllable entity, the action is declared and the set point is within the entity's range; which code the others get |
| TargetValidation.AdmittedDeadlineIsExact | src/device_control_command/router.rs:140-170 | after the range check and the check of the store, an otherwise valid command is reserved exactly when its requested deadline is after now and at most 30 s ahead, or absent; which error the others get |
| TargetValidation.InvalidSubmitIsExact | src/device_control_command/router.rs:87-90 | a submit is invalid exactly when it names two subtargets, its body is invalid, or its deadline lies a second or more back or 31 seconds or more ahead |
| CommandCodec.CardsRoundTrip | src/device_control/command.rs:84-92 | a list of sensor cards is read back as written |
| CommandCodec.StreamRoundTripIsExact | src/device_control/command.rs:289-315 | a stream body comes back exactly when its station echo and presentation fit its source |
| CommandCodec.PlaybackRoundTripIsExact | src/device_control/command.rs:434-436 | an action comes back exactly when it does not start with the prefix the reader strips repeatedly |
| CommandCodec.NowPlayingRoundTripIsExact | src/device_control/command.rs:338-344 | a now-playing view with a subtitle comes back, one without is refused |
| CommandCodec.ExtensionReadIsExact | src/device_control/command.rs:464-468 | a name is read as an opaque extension exactly when it is namespaced and no known command uses it, keeping the payload |
| CommandCodec.RoundTripIsExact | src/device_control/command.rs:283-472 | for every body, reading what was written gives it back if and only if the stated condition on the body holds |
| CommandCodec.ValidBodyRoundTrips | src/device_control/command.rs:206-472 | a body that passes validation comes back exactly when it is not a now-playing view without subtitle and, for an extension, its payload carries its own unreserved name |
| CommandCodec.AcceptedBodyRoundTrips | src/device_control/command.rs:354-472 | whatever was accepted from the wire is accepted again after re-writing, except a now-playing view without subtitle |
| CommandCodec.BareNowPlayingIsRefused | src/device_control/command.rs:419-431 | the accepted input whose re-encoding the reader refuses |
| CommandReading.ReadSetPoint | src/device_control/command.rs:460-463 | a set point written as an integer or with a fraction is read as that number, and nothing else is read |
| CommandReading.ReadDirectStream | src/device_control/command.rs:370-406 | a direct stream is read exactly from objects that name neither station id nor station and have a textual address |
| CommandReading.ReadCatalogStream | src/device_control/command.rs:370-406 | a catalog stream is read exactly from objects with textual id and address and, if a station is given, a readable presentation |
| CommandReading.ReadNowPlaying | src/device_control/command.rs:419-431 | a now-playing view is read exactly from textual id and title and a subtitle that is missing or text |
| CommandReading.ReadGrid | src/device_control/command.rs:413-418 | a grid is read exactly from a textual title and a list of readable cards |
| CommandReading.ReadCardObject | src/device_control/command.rs:84-92 | which objects are read as which card, other members ignored |
| CommandReading.ReadCardArray | src/device_control/command.rs:84-92 | which arrays are read as which card: six members by position |
| CommandReading.ReadPlayback | src/device_control/command.rs:434-436 | every name with the playback prefix is read as the action that follows all leading repetitions of the prefix |
| CommandReading.NamespacedIsDotted | src/device_control/validation.rs:7-16 | a name passes as namespaced exactly when it is two or more lower-case words joined by single dots |
| IntentResolver.UniqueDeviceIds | src/device_control_intent.rs:650-658 | the loop returns the distinct identifiers in order of first occurrence |
| IntentResolver.CollectReadings | src/device_control_intent.rs:167-177 | the nested loops collect exactly the readings of the specification, in order |
| IntentRules.GateIsExact | src/device_control_intent.rs:28-60 | what is refused before any device is looked at: an invalid intent with its field, a foreign directory or a missing scope |
| IntentRules.SuitsIsExact | src/device_control_intent.rs:582-627 | what each intent asks of a device, told by roles and declared capabilities |
| IntentRules.FitsIsMeant | src/device_control_intent.rs:334-397 | a device is eligible exactly when it suits and is the one meant: in the first area of that id, and by device id before surface before context |
| IntentRules.NothingFits | src/device_control_intent.rs:399-440 | the answer when no device is eligible: offline, unsupported or a question, by how the device was meant |
| IntentRules.SeveralFit | src/device_control_intent.rs:423-440 | when several are eligible the question lists exactly their identifiers, each once |
| IntentRules.PlayerPlanIsExact | src/device_control_intent/model.rs:188-212 | the one command of each radio and media plan, body by body |
| IntentRules.SurfaceSelectionIsExact | src/device_control_intent.rs:442-477 | a surface is selected exactly when it alone is a display with the view and, if one is asked for, the surface asked for |
| IntentRules.SurfaceFailureIsExact | src/device_control_intent.rs:463-476 | the error when no surface is usable, and the surfaces listed when several are |
| IntentRules.NowPlayingIsExact | src/device_control_intent.rs:210-266 | a now-playing plan shows the station a playing device reports, and any other state is unavailable |
| IntentRules.CardIsExact | src/device_control_intent.rs:512-543 | a card shows the reported value, unit, quality and freshness, or nothing for an unreported or unavailable sensor |
| IntentRules.SensorsAreExact | src/device_control_intent.rs:102-154 | a sensor plan shows one card for each readable sensor, in declaration order, on the selected surface |
| IntentRules.ActuatorAnswerIsExact | src/device_control_intent.rs:268-326 | the answer to an actuator intent by the first device and entity of those ids: forbidden, offline, unsupported, out of range, or the proposal |
| IntentRules.QueryAnswerIsExact | src/device_control_intent.rs:156-208 | a sensor query is answered from its one reading, and otherwise asks for a target or lists the devices that have readings |
| IntentRules.ReadingsAreExact | src/device_control_intent.rs:164-177 | which readings those are: readable sensors, of that id if one is given, of online devices in the area if it is known |
| ResolverAgreement.SelectionIsExact | src/device_control_intent.rs:334-440 | a device is selected exactly when the area is known and it alone is compatible with every selector in force |
| ResolverAgreement.PlanIsAccepted | src/device_control_intent.rs:28-154 | a plan for a sensor query has no command; any other has one, for an online device of the actor's own directory that alone fits, within the actor's scopes, passing both router checks but for the catalog source of a station; an explicit device id is its target |
| ResolverAgreement.MediaTestsAgree | src/device_control_intent.rs:582-597 | the separately written media test of the resolver equals the target check of the router on every manifest and body |
| ResolverAgreement.PresentationTestsAgree | src/device_control_intent.rs:608-616 | the separately written presentation test equals the display test of the router |
| ResolverAgreement.ActuatorAgreementIsExact | src/device_control_command/target_validation.rs:70-103 | a proposal is made exactly when the device is online, the router would accept the command, and the entity lists the action and is a safe switch or light |
| ResolverAgreement.MediaAgreementIsExact | src/device_control_command/target_validation.rs:32-45 | for media intents resolver and router agree on every device, in both directions |
| ResolverAgreement.RadioGapIsExact | src/device_control_command/target_validation.rs:17-24 | the router accepts a station on a device exactly when the resolver does and the device offers the catalog source |
| ResolverAgreement.RadioGapIsReached | src/device_control_command/target_validation.rs:17-24 | asked for radio with only a direct-stream player in the directory, the resolver plans a command that the router refuses |
| ResolverAgreement.ConfirmationIsAccepted | src/device_control_intent.rs:268-326 | a confirmed actuator proposal passes both router checks on an online device of the actor's own directory |
| ResolverAgreement.PlanOnTheWire | src/device_control_intent.rs:210-264 | a planned command can be read back from its encoding exactly when it is not a now-playing view |
| ResolverAgreement.ResolutionIgnoresOrder | src/device_control_intent.rs:334-477 | for every intent, permuting the directory never changes a plan, confirmation or error, and only reorders a question's candidates |
| ResolverAgreement.SensorQueryIgnoresSelectors | src/device_control_intent.rs:156-179 | a sensor query gives the same answer without its device and surface selectors, and without an area that is not known |
| ResolverAgreement.QueryMissesItsDevice | src/device_control_intent/model.rs:36-43 | a query that names device 1 is answered with the sensor of device 0, though the part of the directory that is device 1 has none |
| ResolverAgreement.QueryNarrowsIff | src/device_control_intent/model.rs:36-43 | a query that names a device gives the answer of that part of the directory if and only if every reading of the online devices in the area belongs to it |

## Left out

- SQL text, migrations, pools, HTTP, WebSocket and JSON byte handling: plumbing over libraries; tables are maps, transactions atomic steps, JSON a value.
- Passkeys, password hashing, token hashing, pairing and OAuth: cryptography and foreign services.
- Search, ranking, speech, icon import, catalog import loop, mobile export, telemetry pruning, voice slots: outside these protocols.
- Timestamp text form, and the field names in validation errors of the personal-data store: instants and one validation error stand for them.
- Deleted-account purging of the PostgreSQL personal-data store: the in-memory store does not do it.
- PersonalReplica.ReplicaConverges: the client folds a reply in the same step as the read; a fold concerns only the client's copy, so it commutes with every store step in between.
- PersonalStore.MergeBatch: the two loops over upserts and over deletes run as one loop over their concatenation; the fleet expiry runs account by account, which is the key order of the single pass.
- Wrap-around of the 64-bit revision counter: revisions are unbounded.
- CommandDispatch.RetryIsExact: the checks before the reservation (scope, deadline range, target manifest, missing store or catalog) are reduced to "both ends are live generations of one owner"; the scope and manifest checks themselves are in TargetValidation and ResolverAgreement.
- Command tables: device revocation between reservation and completion, which makes the store refuse a completion, is the failing outcome of that store call.
- `state_outcome` and `full_state_outcome`: the revision order is modelled for manifests only; merging of state deltas is not part of this model.
- CatalogGraph.ValidateTombstones: the checks on stations and streams are not modelled, only the identities they establish.
- Automatic redirect of a merged tombstone without replacement: in an unvalidated catalog the source would panic; the theorems are about validated ones.
- CommandCodec.RoundTripIsExact: JSON text, number formatting and rounding of integers read as binary64 are not modelled; numbers are integers or reals.
- CommandReading.ReadCardObject: which of several bad members a refused card or presentation is refused for is the library's wording and not stated.
- CommandCodec.ValidBodyRoundTrips: classification of stream destinations is a parameter, since it rests on standard-library address parsing.
- ResolverAgreement.PlanIsAccepted: capabilities that neither side consults are one constructor; the wording of a sensor reading is a parameter.
- DirectoryStream.QuiescentDirectoryIsExact: scope filters and accounts over the device cap are not modelled; a device without a manifest is one whose manifest has version 0, and what it hides is not tracked; a failed load closes the session; a session that ends between its write and its announcement is a publication still under way.
- ManifestProjection.AcceptanceIsExact: the rules for single items and for the display role are one verdict, since they leave no trace in the tables.
- PresenceRegistry.ConnectionRegistry.SendTo: whether the outbound channel takes a frame is a parameter.
- IcyRelay.Pump: without a metadata interval the input is shorter than 2^64 - 1 bytes; a client that leaves is a budget of successful sends; other relays observing titles in between are separate calls of Observe.
- CommandCauses.CauseIsOfTheReservation: assumes the id was reserved once, because the age of a row is an event without a clock and the model therefore lets a timer outlive its row by 24 hours; StoredResultHasCause makes no such assumption.
- CommandCourses.FreshCommandIsDispatched: speaks of a submit whose steps follow each other directly and all succeed; what any interleaving keeps is in CommandSafety, CommandOutcome, CommandDispatch and CommandCauses.
- CommandDispatch.DispatchedOnce: the catalog is one function for the whole run; a lookup may fail at any time but not change its answer.
