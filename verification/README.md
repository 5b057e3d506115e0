# Rusty Fleet: verified core

Rusty Fleet runs a Hub that keeps an accepted picture of many headsets, a Windows console that shows
it as a live table, and a Setup program that installs, rolls back and removes releases. This project
models the parts where state is changed in place, in several steps, or against a peer that may answer
anything, and proves what they keep.

* **Live table** (`FleetTable.dfy`, `FleetWorkspace.dfy`). One validated query result either reorders
  the row objects in place or refreshes them where they stand and queues the new order. The class
  works on row objects; the table functions say what it must leave, over every run of commands.
* **Kiosk catalogue refresh** (`KioskRefresh.dfy`, `KioskProtocol.dfy`, `KioskRuntime.dfy`). A locked
  capture, an unlocked provider read, a locked admission, a released permit, in every interleaving
  with other refreshes and with every other writer of the Hub.
* **Setup** (`ReleaseHistory.dfy`, `ShellTransaction.dfy`, `ShellIdentity.dfy`, `Uninstall.dfy`,
  `SetupRun.dfy`, `TreeWalk.dfy`, `Checksums.dfy`, `Paths.dfy`). The recorded release history against
  an unbounded move-to-front order, the undo log of the shell identity, a whole run of Setup with all
  its failures, the compensations of uninstall, the two tree walks, and the checksum list.
* **Search** (`SearchTerms.dfy`, `QueryScope.dfy`). The quote-aware tokenizer, the query it compiles
  to, and the editor that reads such a query back.
* **Ledgers** (`Ledger.dfy`, `PackageLedger.dfy`, `KioskLedger.dfy`, `PackageWorkflow.dfy`). The target
  state machines the console accepts, the counts and aggregates derived from them, and the package
  workflow over every Hub answer.
* **Watch cursor** (`WatchCursor.dfy`). Polling a log that is truncated, grows, and is restored from
  its last save when the Hub restarts.

What is outside (the Hub's answers, the file system's failures, the clock, the provider) comes in as
parameters: a response that may be a refusal, a fault that says which operation throws and what it
leaves behind, a step of another writer.

Some promises turned out not to hold as the code stands. Each is kept as the code has it, with the
input that breaks it and the exact condition under which it holds:

* The simple-scope reader tests its field pair the wrong way round: as written, created queries
  are read back only without search terms (`WrittenReadsBackIff`), and what is read back is exact
  without alternatives and loses rows exactly for the stated alternatives
  (`WrittenExactWithoutOr`, `WrittenPairLosesIff`). `CreatedRoundTrip` and `IntendedRoundTrip` are
  about the test it was meant to be.
* A query result may name one device under two revisions; flags and selection then part
  (`SelectAllExact`, `SetFlagAt`, `TwoRevisionsMakeHiddenNegative`).
* A package aggregate is `failed` while a target still waits for its cancellation
  (`PackageLedger.TerminalIff`, `FailedBeforeCancelled`).
* The durable write of a catalogue refresh can fail after its slot is published
  (`BothOrNeitherIff`, `PublishedWriteDiverges`).
* The recorded release is renamed into place before it is read back: a throw in between takes the
  shell identity back to the release before (`LateThrowIff`); the next clean run repairs it
  (`RepairedBy`).
* Undoing a shell removal brings back files, not empty directories (`DisposeRestoresRemoval`,
  `BareDirectoryIsLost`); undoing an application leaves a start menu that it had to create
  (`ApplyWithoutPrograms`, `StartMenuStays`).
* An uninstall that throws can leave directories and a lock file that it made on the way in
  (`ThrownKeepsIff`, `NotInstalledLeavesLock`), or the tree in quarantine when the move back throws.
* A Hub configured to retain more than one read can return looks reset when it is not (`ResetIff`,
  `LongLogLooksReset`).
* A Hub that restarts without having saved what it recorded is noticed only while its log ends below
  the cursor (`RestartNoticedIff`, `SilentRestart`).
* The first watch cursor is read after the first snapshot (`InitialCoverageIff`,
  `FirstCursorUncovered`).
* Archiving under another digest raises an exception that the command does not catch
  (`ArchiveInstallRelease`, `OtherDigestEscapes`).

## Model

| member | source | states |
|---|---|---|
| FleetTable.StableKeyInjective | apps/fleet-console-wpf/ViewModels/DeviceViewModels.cs:53-54 | the text a row is keyed by identifies its device and revision, even when a device id contains `@` and digits |
| FleetTable.NoOrderingChangeIff | apps/fleet-console-wpf/ViewModels/FleetWorkspaceViewModel.cs:2469-2508 | nothing is queued exactly when displayed keys and incoming keys are the same sequence and every recorded group is the incoming one |
| FleetTable.AffectedMeans | apps/fleet-console-wpf/ViewModels/FleetWorkspaceViewModel.cs:2469-2522 | a key is not counted exactly when it is displayed where the result names it and its recorded text is that of the grouped column of the incoming row |
| FleetTable.RegroupedCount | apps/fleet-console-wpf/ViewModels/FleetWorkspaceViewModel.cs:2510-2522 | in an unchanged order with groups just recorded, the count is the number of rows whose model, freshness, cohort or application differs, by the grouping, and zero without one |
| FleetTable.AppliedSelection | apps/fleet-console-wpf/ViewModels/FleetWorkspaceViewModel.cs:2370-2400 | applied directly or in place, a result keeps exactly the selections that no row of it contradicts |
| FleetTable.FlagSelects | apps/fleet-console-wpf/ViewModels/FleetWorkspaceViewModel.cs:3363-3384 | a flag touches the entry of its own device only: raised it selects the row's revision, lowered it drops that revision only |
| FleetTable.AllSelects | apps/fleet-console-wpf/ViewModels/FleetWorkspaceViewModel.cs:3334-3361 | selecting all adds every displayed device at a displayed revision and drops none; clearing drops all |
| FleetTable.RefreshAgrees | apps/fleet-console-wpf/ViewModels/FleetWorkspaceViewModel.cs:2428-2439 | after a background refresh the table shows the result exactly, or the queue holds exactly it while the displayed key order is untouched |
| FleetTable.QueuedOrderingIsDirectOrdering | apps/fleet-console-wpf/ViewModels/FleetWorkspaceViewModel.cs:2554-2574 | any number of background refreshes followed by applying the queue shows what applying the last result directly shows, rows and groups |
| FleetTable.RunAgrees | apps/fleet-console-wpf/ViewModels/FleetWorkspaceViewModel.cs:2197-2271 | over every run of refreshes, scope changes, saved views, flags and queue applications, the last accepted result is displayed in order, values and groups, or is what the queue holds |
| FleetTable.ReachableAgrees | apps/fleet-console-wpf/ViewModels/FleetWorkspaceViewModel.cs:2197-2271 | the same for every run from the empty table the console starts with |
| FleetTable.StepSingleRevision | apps/fleet-console-wpf/Contracts/FleetProjectionValidation.cs:66-75 | if results name each device once, the table and the queue never hold two revisions of a device |
| FleetTable.SavedViewLoads | apps/fleet-console-wpf/ViewModels/FleetWorkspaceViewModel.cs:2646-2688 | setting the grouping before the load and regrouping after it amounts to one scope change, also when the load fails |
| FleetTable.HiddenCountExact | apps/fleet-console-wpf/ViewModels/FleetWorkspaceViewModel.cs:1048-1059 | the number shown as hidden by scope is the number of selected identities no displayed row shows, so it is never negative |
| FleetTable.SelectAllExact | apps/fleet-console-wpf/ViewModels/FleetWorkspaceViewModel.cs:3349-3361 | after selecting all, every row is confirmed by the selection if and only if no device is displayed under two revisions |
| FleetWorkspace.ValidateQueryResult | apps/fleet-console-wpf/Contracts/FleetProjectionValidation.cs:66-75 | the identity loop refuses exactly the results that repeat a device at one revision |
| FleetWorkspace.MisplacedKeys | apps/fleet-console-wpf/ViewModels/FleetWorkspaceViewModel.cs:2482-2497 | the first pass finds exactly the displayed keys that leave, move or change group |
| FleetWorkspace.ArrivedKeys | apps/fleet-console-wpf/ViewModels/FleetWorkspaceViewModel.cs:2499-2505 | the second pass finds exactly the incoming keys not displayed |
| FleetWorkspace.RecordGroups | apps/fleet-console-wpf/ViewModels/FleetWorkspaceViewModel.cs:3406-3411 | afterwards every displayed key, and no other, maps to its row's group |
| FleetWorkspace.Workspace.CountOrderingChanges | apps/fleet-console-wpf/ViewModels/FleetWorkspaceViewModel.cs:2469-2508 | counts each affected key once, whether displayed or arriving; right after grouping, in an unchanged order, the rows whose grouped column differs |
| FleetWorkspace.Workspace.ReconcileDirect | apps/fleet-console-wpf/ViewModels/FleetWorkspaceViewModel.cs:2363-2426 | rows end as the incoming projections in order; every key shown before keeps its row object, every other row object is new, and rows that left are no longer listened to |
| FleetWorkspace.PlacedMove | apps/fleet-console-wpf/ViewModels/FleetWorkspaceViewModel.cs:2391-2398 | the row for the next incoming key stands at or after its target, so a move never disturbs the rows already placed |
| FleetWorkspace.Workspace.PlaceRow | apps/fleet-console-wpf/ViewModels/FleetWorkspaceViewModel.cs:2370-2414 | one pass of the loop extends the placed prefix by one and drops at most the selection held under another revision, counting it |
| FleetWorkspace.Workspace.DropAbsent | apps/fleet-console-wpf/ViewModels/FleetWorkspaceViewModel.cs:2416-2425 | walking from the back leaves exactly the placed prefix, in order, and stops listening to the rows removed |
| FleetWorkspace.Workspace.ReconcilePreserving | apps/fleet-console-wpf/ViewModels/FleetWorkspaceViewModel.cs:2370-2400 | shared rows take their new values where they stand; no row moves, appears or leaves |
| FleetWorkspace.Workspace.InvalidateSelection | apps/fleet-console-wpf/ViewModels/FleetWorkspaceViewModel.cs:2374-2387 | a selection under another revision is dropped together with its flags, the handler running in between, and flags still agree with the selection |
| FleetWorkspace.Workspace.ApplyResult | apps/fleet-console-wpf/ViewModels/FleetWorkspaceViewModel.cs:2352-2467 | a refused result changes nothing; an accepted one gives the specified table, keeps row identity and flag agreement, and returns how many selections were invalidated |
| FleetWorkspace.Workspace.LoadScope | apps/fleet-console-wpf/ViewModels/FleetWorkspaceViewModel.cs:2197-2271 | a failed request leaves everything; a successful one records groups afresh unless it kept the displayed order |
| FleetWorkspace.Workspace.ApplySavedView | apps/fleet-console-wpf/ViewModels/FleetWorkspaceViewModel.cs:2646-2688 | applying a view is one step of the table, with its own grouping recorded at the end |
| FleetWorkspace.Workspace.ApplyQueuedOrderingChanges | apps/fleet-console-wpf/ViewModels/FleetWorkspaceViewModel.cs:2554-2574 | the queued result is applied and the queue is empty afterwards; with an empty queue nothing changes |
| FleetWorkspace.Workspace.ApplyGrouping | apps/fleet-console-wpf/ViewModels/FleetWorkspaceViewModel.cs:3386-3412 | every displayed row, and no other key, is recorded under the text of the grouped column: model, freshness, cohort or "Unassigned", application or "No participating app" |
| FleetWorkspace.Workspace.OnRowPropertyChanged | apps/fleet-console-wpf/ViewModels/FleetWorkspaceViewModel.cs:3363-3384 | a raised flag selects the row's exact revision; a lowered one removes it only if that revision was selected |
| FleetWorkspace.Workspace.SetFlagAt | apps/fleet-console-wpf/ViewModels/FleetWorkspaceViewModel.cs:3363-3384 | flagging a row keeps flags and selection in step exactly when no other displayed revision of its device carries a flag |
| FleetWorkspace.Workspace.SelectAllVisible | apps/fleet-console-wpf/ViewModels/FleetWorkspaceViewModel.cs:3349-3361 | from any state all rows end flagged and the selection has taken exactly the rows that were not; flags that agreed with the selection still do if and only if displayed devices are distinct |
| FleetWorkspace.Workspace.ClearBatchSelection | apps/fleet-console-wpf/ViewModels/FleetWorkspaceViewModel.cs:3334-3347 | selection and flags are empty together, from any state |
| FleetWorkspace.Workspace.BatchSelectionNumbers | apps/fleet-console-wpf/ViewModels/FleetWorkspaceViewModel.cs:1048-1059 | the numbers are the selected identities and that count less the flagged rows, which with agreeing flags is the number of selected identities not displayed |
| FleetWorkspace.TwoRevisionsMakeHiddenNegative | apps/fleet-console-wpf/ViewModels/FleetWorkspaceViewModel.cs:1048-1059 | a validated answer with two revisions of one device, loaded into a new workspace and selected with the real handlers, makes the hidden number -1 |
| FleetWorkspace.Workspace.Execute | apps/fleet-console-wpf/ViewModels/FleetWorkspaceViewModel.cs:2197-2574 | every run of commands on the row objects, from any valid state and against any answers, displays, groups and queues what the run of the table functions does; when answers name each device once it also selects the same, and a row is flagged exactly when it is selected at its own revision |
| KioskRefresh.AcceptTouchesOneDevice | crates/fleet-hub/src/kiosk_apps.rs:102-138 | an accepted catalogue is stored as admitted, with its receive time and the source epoch of the device record; its association and replay identity are recorded; every device record and every other device's catalogue and association stay |
| KioskRefresh.AcceptedIff | crates/fleet-hub/src/kiosk_apps.rs:30-237 | exactly which catalogues are accepted: association, capability, observation order, room, times and an unused replay identity |
| KioskRefresh.OnlyCurrentCredential | apps/fleet-hub-local/src/kiosk_catalog.rs:60-77 | one credential is found exactly when one position of the enrolment is current for the device and key |
| KioskRefresh.ContinuityMeans | apps/fleet-hub-local/src/kiosk_catalog.rs:19-87 | continuity exists only for the requested revision, with fresh evidence, a ready capability, a peer inside its observation window and one unambiguous credential for that peer's key |
| KioskRefresh.FindPeerMeans | apps/fleet-hub-local/src/kiosk_catalog.rs:46-53 | the first peer entry of the device is the one that counts |
| KioskRefresh.ContinuityIff | apps/fleet-hub-local/src/kiosk_catalog.rs:19-87 | exactly when there is continuity: current record, age limits, ready capability, peer window, one current credential |
| KioskRefresh.CapturedIff | apps/fleet-hub-local/src/kiosk_catalog.rs:97-142 | exactly when a refresh is captured, and under which profile |
| KioskProtocol.CaptureEffect | apps/fleet-hub-local/src/kiosk_catalog.rs:97-142 | a refused capture changes nothing; a successful one takes one permit and one new marker and records association and continuity as they stood |
| KioskProtocol.AdmitEffect | apps/fleet-hub-local/src/kiosk_catalog.rs:166-223 | whatever the outcome, admission clears its own marker only, and leaves every device record and every other association |
| KioskProtocol.InvHolds | apps/fleet-hub-local/src/kiosk_catalog.rs:89-227 | in every interleaving: permits conserved, every marker witnessed by a task, at most one task per device, every captured association still current |
| KioskProtocol.MarkersWithinPermits | apps/fleet-hub-local/src/kiosk_catalog.rs:103-141 | in-flight markers never exceed the permits held, nor these the capacity |
| KioskProtocol.OneTaskPerDevice | apps/fleet-hub-local/src/kiosk_catalog.rs:135-141 | no two tasks of one device lie between marker insert and marker removal |
| KioskProtocol.CapturedAssociationIsCurrent | apps/fleet-hub-local/src/kiosk_catalog.rs:113-119 | the association captured in the first section is the stored one when the second section runs |
| KioskProtocol.EveryOutcomeCleansUp | apps/fleet-hub-local/src/kiosk_catalog.rs:144-170 | after success, refusal or provider panic alike the marker is gone, and the permit with the next step |
| KioskProtocol.EveryTaskEnds | apps/fleet-hub-local/src/kiosk_catalog.rs:144-227 | in every interleaving a task whose read, admission and release happen ends: it holds no permit, and a marker on its device is that of another task in flight |
| KioskProtocol.ReachableFromStart | apps/fleet-hub-local/src/kiosk_catalog.rs:89-227 | from a Hub just started: markers within permits within slots, permits conserved, every marker that of a task in flight |
| KioskProtocol.CommitMeans | apps/fleet-hub-local/src/kiosk_catalog.rs:171-223 | a commit implies equal continuity at both ends and start ≤ completed ≤ admitted ≤ start + 30 s; the Hub of the admission section then holds this catalogue under the captured profile and source epoch, with its replay identity consumed, and nothing else has changed |
| KioskProtocol.BothOrNeitherIff | apps/fleet-hub-local/src/lib.rs:722-780 | starting equal, memory and disk end equal exactly when a guard before the write stops the refresh or the write does not fail after publishing its slot |
| KioskProtocol.PublishedWriteDiverges | apps/fleet-hub-local/src/lib.rs:776-778 | a run of capture, read and admission from a Hub just started, whose write fails after publication, leaves disk ahead of memory |
| KioskProtocol.MemoryIsRecorded | apps/fleet-hub-local/src/lib.rs:722-780 | over every run, with writes failing before, between or after removal and publication of a slot, memory is what the last successful write recorded |
| KioskProtocol.FailedWrites | apps/fleet-hub-local/src/lib.rs:722-780 | what each failing write leaves on disk; memory is never touched |
| KioskProtocol.CoherentRun | apps/fleet-hub-local/src/kiosk_catalog.rs:214-223 | over whole runs, disk and memory never part unless such a write occurs |
| KioskProtocol.RefreshesKeepRecords | apps/fleet-hub-local/src/kiosk_catalog.rs:191-222 | over every run of refreshes, check-ins and other writers, the device records at the end are those of the last writer that committed |
| KioskProtocol.CaptureWitness | apps/fleet-hub-local/src/kiosk_catalog.rs:97-142 | every task in flight was captured by an earlier step, on facts that held at that moment |
| KioskProtocol.CommitOverRun | apps/fleet-hub-local/src/kiosk_catalog.rs:89-227 | a commit at the end of any run from a Hub just started: an earlier step captured its job, that step and the admission saw the same continuity and association, times are ordered inside 30 s, this device's catalogue, association and replay identity are stored as read, and nothing else changes |
| KioskProtocol.ReplaysCommitOnce | crates/fleet-hub/src/kiosk_apps.rs:170-233 | over every run no replay identity commits twice, none consumed before commits at all, and exactly those that commit are consumed |
| KioskProtocol.PoisonIsFinal | apps/fleet-hub-local/src/kiosk_catalog.rs:151-153 | after a panic inside the provider no task that had not already succeeded ever does |
| KioskProtocol.ReadEffect | apps/fleet-hub-local/src/kiosk_catalog.rs:150-165 | the read comes back as an answer exactly when the lock is sound and the exchange is the one asked for; a panic poisons the lock |
| KioskProtocol.PanicEndsRefreshes | apps/fleet-hub-local/src/kiosk_catalog.rs:150-165 | a provider that panics during one read ends every refresh that has not succeeded by then |
| KioskRuntime.RuntimeState.UniqueCredential | apps/fleet-hub-local/src/kiosk_catalog.rs:60-77 | drawing at most twice from the filter distinguishes none, exactly one and several |
| KioskRuntime.RuntimeState.CaptureSection | apps/fleet-hub-local/src/kiosk_catalog.rs:97-142 | the locked section, field by field, is the capture step of the protocol |
| KioskRuntime.RuntimeState.AdmissionSection | apps/fleet-hub-local/src/kiosk_catalog.rs:166-223 | the locked section, field by field, is the admission step of the protocol |
| KioskRuntime.RuntimeState.CheckAdmission | apps/fleet-hub-local/src/kiosk_catalog.rs:171-213 | the checks between the cleared marker and the write, in the order of the source, give the candidate of the protocol or its refusal |
| KioskRuntime.RuntimeState.PersistCandidate | apps/fleet-hub-local/src/lib.rs:722-780 | each way a slot write can end leaves the two slots as the protocol says |
| ReleaseHistory.NewHistoryIds | apps/fleet-setup/SetupEngine.cs:709-717 | the filtered, deduplicated and bounded list is the bounded rest of the order without the new current id |
| ReleaseHistory.StepInstall | apps/fleet-setup/SetupEngine.cs:678-717 | an install in which nothing else fails commits exactly when the bundle is valid and is reused or gets a new directory; then it touches the unbounded order, else nothing changes |
| ReleaseHistory.StepRollback | apps/fleet-setup/SetupEngine.cs:663-676 | a rollback in which nothing else fails commits exactly when an older release is recorded, and touches its id |
| ReleaseHistory.RunTracks | apps/fleet-setup/SetupEngine.cs:646-779 | over every run of installs and rollbacks, current followed by history is the first seventeen ids of the unbounded move-to-front order and passes what the next run demands |
| ReleaseHistory.RollbackIsInstall | apps/fleet-setup/SetupEngine.cs:663-717 | rolling back is installing the bundle recorded for the previous release |
| ReleaseHistory.RollbackTwice | apps/fleet-setup/SetupEngine.cs:663-676 | a second rollback restores the state before the first |
| ReleaseHistory.CandidateValid | apps/fleet-setup/SetupEngine.cs:690-703 | the directory name made for a new release always passes the path, segment and digest checks of the recorded state |
| ReleaseHistory.ReleaseIff | apps/fleet-setup/SetupEngine.cs:1034-1074 | exactly which recorded releases pass: digests, candidate path, tree of that version and manifest, id made of both |
| ReleaseHistory.InstalledIsTheBundle | apps/fleet-setup/SetupEngine.cs:678-708 | what an installation records as current is the bundle by version, manifest and archive, taken over or new |
| SetupRun.Installer.Execute | apps/fleet-setup/SetupEngine.cs:646-779 | one run on the recorded state, the trees and the store, in which extraction, checks, any operation of the shell identity, the commit before or after its rename, and the last checks may throw |
| SetupRun.RenamedIff | apps/fleet-setup/SetupEngine.cs:718-757 | read off the input: exactly when a run gets as far as the rename of the recorded state |
| SetupRun.SucceedsIff | apps/fleet-setup/SetupEngine.cs:646-779 | Setup reports success exactly when nothing goes wrong, and then the new state, its tree and its shell identity are in place |
| SetupRun.TreesStay | apps/fleet-setup/SetupEngine.cs:687-697 | however a run ends the trees on disk stay; at most the candidate's is added, whole unless its extraction threw |
| SetupRun.AllTracks | apps/fleet-setup/SetupEngine.cs:646-779 | over every sequence of runs, each failing anywhere, the recorded releases stay valid and are the first seventeen ids of the unbounded order of the renames reached |
| SetupRun.PlacedExactly | apps/fleet-setup/SetupEngine.cs:1152-1201 | applying the shell identity succeeds exactly when no operation fails, the running Setup is known and no file is in the way, and then leaves exactly this store |
| SetupRun.IdentifiedStep | apps/fleet-setup/SetupEngine.cs:732-757 | whether the shell identity names the recorded release: kept by a run that reaches no rename, established by a clean commit, and after a throw behind the rename true exactly when it named the new release before |
| SetupRun.LateThrowIff | apps/fleet-setup/SetupEngine.cs:1090-1095 | a throw behind the rename leaves the identity right if and only if old and new release have the same version and the same console shortcut |
| SetupRun.AllIdentified | apps/fleet-setup/SetupEngine.cs:646-779 | over every sequence of runs without a throw behind a rename the shell identity stays that of the recorded release |
| SetupRun.RepairedBy | apps/fleet-setup/SetupEngine.cs:646-779 | after any runs whatever, one that commits cleanly leaves the shell identity of the recorded release |
| Paths.SafePathHasNoBreak | apps/fleet-setup/SetupEngine.cs:408-430 | a path that passes the policy contains no line break and no control character that could end a checksum line |
| Paths.SafePathIff | apps/fleet-setup/SetupEngine.cs:408-430 | exactly which paths pass: plain names joined by slashes, none of them a device name in any case or with an extension |
| Paths.FixedEqualsExact | apps/fleet-setup/SetupEngine.cs:390-397 | comparing decoded bytes is comparing the lowercase digests |
| Paths.SplitJoin | apps/fleet-setup/SetupEngine.cs:418-419 | splitting undoes joining for parts without the separator |
| ShellTransaction.DisposeRestores | apps/fleet-setup/SetupEngine.cs:1126-1145 | for every sequence of captures and changes confined to them, a disposal that does not throw restores the original file contents and registration |
| ShellTransaction.DisposeRestoresPlacement | apps/fleet-setup/SetupEngine.cs:1395-1426 | when entries are captured where their parent exists, disposal from any point throws nowhere and restores the whole store, directories included |
| ShellTransaction.NewDirectoryIsEmpty | apps/fleet-setup/SetupEngine.cs:1413-1426 | undoing in reverse order has emptied a new directory before its own undo runs |
| ShellTransaction.UncapturedDirectoryStays | apps/fleet-setup/SetupEngine.cs:1413-1426 | no undo removes a directory it was not captured for |
| ShellTransaction.DisposeRestoresRemoval | apps/fleet-setup/SetupEngine.cs:1428-1454 | after a removal torn anywhere inside the tree, disposal restores files and key, and the directories exactly when each of them held a file |
| ShellTransaction.BareDirectoryIsLost | apps/fleet-setup/SetupEngine.cs:1428-1454 | an empty shortcut directory does not come back |
| ShellTransaction.ApplyKeepsWellFormed | apps/fleet-setup/SetupEngine.cs:1395-1454 | no undo action leaves an entry without its directory |
| ShellTransaction.StoppedBelow | apps/fleet-setup/SetupEngine.cs:1134-1145 | a disposal that stops leaves in the log exactly the entries below the action that failed |
| ShellIdentity.ShellIdentityTransaction.Dispose | apps/fleet-setup/SetupEngine.cs:1134-1145 | a committed transaction changes nothing; another one runs its log from the last entry and stops with the rest in place when an action throws |
| ShellIdentity.DisposeTwice | apps/fleet-setup/SetupEngine.cs:1134-1145 | a second disposal has no effect after a commit or a completed disposal; after one that stopped it goes on below the action that failed, leaving that action undone |
| ShellIdentity.ApplyUndone | apps/fleet-setup/SetupEngine.cs:1152-1201 | applying the shell identity, stopped at any operation or failing later, is undone to the exact original store |
| ShellIdentity.ApplyWithoutPrograms | apps/fleet-setup/SetupEngine.cs:1172-1174 | with the start menu missing the undo is exact if and only if one of the first three operations fails, the running Setup is unknown, or a file (or the setup copy) stands where a directory has to go; otherwise exactly the start menu and the directories above it stay |
| ShellIdentity.StartMenuStays | apps/fleet-setup/SetupEngine.cs:1172-1174 | a concrete application that fails at the registration and leaves a start menu behind |
| ShellIdentity.ApplyShell | apps/fleet-setup/SetupEngine.cs:1152-1201 | success hands back an open transaction; failure has already undone it: to the store before, or to that with the start menu added under the stated condition on the input |
| ShellIdentity.PlaceAllUndone | apps/fleet-setup/SetupEngine.cs:1152-1201 | the same for any list of placements in which every entry's directory exists or is placed earlier |
| Uninstall.MoveBack | apps/fleet-setup/SetupEngine.cs:885-906 | moving a tree aside and back is the identity |
| Uninstall.RemoveShell | apps/fleet-setup/SetupEngine.cs:1203-1237 | a registration that names another location is refused untouched; without one, or with this location, only a throwing deletion fails; a torn removal is undone before it throws; success leaves the log that can bring everything back |
| Uninstall.DropBareIff | apps/fleet-setup/SetupEngine.cs:1428-1454 | the undo of a removal is exact if and only if no shortcut directory was bare |
| Uninstall.RestoreQuarantine | apps/fleet-setup/SetupEngine.cs:899-906 | moves back only into an empty place, and otherwise changes nothing |
| Uninstall.DeleteQuarantine | apps/fleet-setup/SetupEngine.cs:928-955 | succeeds exactly when one of a hundred attempts does, and then nothing of the tree is left; else only the tree was touched |
| Uninstall.TornDeletion | apps/fleet-setup/SetupEngine.cs:939-952 | a retry after a torn deletion ends where an untorn one would |
| Uninstall.AsideAndBack | apps/fleet-setup/SetupEngine.cs:885-906 | the compensating move restores the store also after the shortcuts were removed and brought back |
| Uninstall.RemovedAsideAndBack | apps/fleet-setup/SetupEngine.cs:831-841 | restoring the root first and the shell second gives what the other order would |
| Uninstall.Uninstall | apps/fleet-setup/SetupEngine.cs:784-867 | throws, with the registration as it was, when that names another location; with this location or none it throws only when hindered; an exceptional exit leaves exactly the stated store; a normal exit leaves neither root nor shell identity and touches nothing else but quarantine and receipt, whose contents it states |
| Uninstall.ThrowsIff | apps/fleet-setup/SetupEngine.cs:784-841 | exactly when an uninstall throws, read off its input |
| Uninstall.ThrownMeans | apps/fleet-setup/SetupEngine.cs:805-841 | after the move an exceptional exit leaves the tree in one of its two places, and registration and shortcut files as they were unless the removal had gone through and the move back threw |
| Uninstall.ThrownKeepsIff | apps/fleet-setup/SetupEngine.cs:784-841 | an exceptional exit leaves the store as it was if and only if the directories and the lock opened on the way in were there, the tree is not stranded, and no shortcut directory was bare if the shell identity was touched |
| Uninstall.EnteredKeepsIff | apps/fleet-setup/SetupEngine.cs:1499-1534 | opening the chain of directories and the lock, stopped anywhere, changes nothing exactly when what it opened was there |
| Uninstall.OpenInstallChain | apps/fleet-setup/SetupEngine.cs:1499-1556 | opens the directories one by one, creating what is missing, up to the first that cannot be had |
| Uninstall.Enter | apps/fleet-setup/SetupEngine.cs:786-788 | leaves the directories, and the lock file also when it is then refused as unsafe |
| Uninstall.NotInstalledLeavesLock | apps/fleet-setup/SetupEngine.cs:786-792 | where nothing is installed it throws and leaves root, state directory and lock behind |
| Uninstall.WriteRecoveryReceipt | apps/fleet-setup/SetupEngine.cs:957-985 | the receipt is written beside the quarantine unless a directory is in its place or the write throws |
| TreeWalk.RejectReparseTree | apps/fleet-setup/SetupEngine.cs:908-926 | the stack walk terminates and accepts exactly the trees without a reparse point |
| TreeWalk.ClosedHoldsAll | apps/fleet-setup/SetupEngine.cs:908-926 | a set with the root and the children of its folders holds every entry below the root |
| TreeWalk.DequeueOne | apps/fleet-setup/SetupEngine.cs:1686-1697 | dequeuing a folder and enqueuing its subfolders meets no folder twice and forgets none |
| TreeWalk.DirectoryGuard.RetainExistingTree | apps/fleet-setup/SetupEngine.cs:1682-1707 | succeeds exactly on trees in which nothing is a reparse point and no file has a second link, holding then every folder and file of the tree and nothing more than before |
| TreeWalk.DirectoryGuard.RetainFolders | apps/fleet-setup/SetupEngine.cs:1684-1697 | the queue terminates, also over folders already held, and holds all folders exactly when all are safe |
| TreeWalk.ValidateExact | apps/fleet-setup/SetupEngine.cs:614-631 | returns exactly for trees without reparse points and hard links in which every file is listed under its name with its size and digest and every name listed is that of a file |
| TreeWalk.NameFindsPath | apps/fleet-setup/SetupEngine.cs:1730-1737 | the relative name of a file leads back to its path, so no two files share one |
| Checksums.ParseChecksums | apps/fleet-setup/SetupEngine.cs:304-328 | the loop gives the map of the nonempty lines, or the first failure in line order |
| Checksums.ParsePrint | apps/fleet-setup/SetupEngine.cs:304-328 | parsing undoes the canonical format for every nonempty list of distinct safe paths and digests; the empty list is refused |
| Checksums.ParsedMeans | apps/fleet-setup/SetupEngine.cs:304-328 | an accepted text is a canonical list up to blank lines, and the map is that list's |
| Checksums.BindChecksums | apps/fleet-setup/SetupEngine.cs:227-240 | equal counts and one inclusion accept exactly the map of the payload and the manifest; a payload listing the manifest itself is refused |
| SearchTerms.Alphabet.ParseSearchTerms | apps/fleet-console-wpf/Contracts/FleetProjectionModels.cs:110-151 | the tokens are those of the text split at its quotes, every second part being one phrase, an unclosed quote included |
| SearchTerms.Alphabet.TermsMeans | apps/fleet-console-wpf/Contracts/FleetProjectionModels.cs:110-151 | every term is nonempty, free of quotes, and a word or a phrase with single inner spaces |
| SearchTerms.Alphabet.NoTermsIff | apps/fleet-console-wpf/Contracts/FleetProjectionModels.cs:116-134 | there are no terms exactly when bare parts have no word character and quoted parts are white space |
| SearchTerms.Alphabet.ParsePrint | apps/fleet-console-wpf/Contracts/FleetProjectionModels.cs:110-151 | parsing undoes printing for every list of words and normalized phrases |
| SearchTerms.Alphabet.ReprintedTerms | apps/fleet-console-wpf/Contracts/FleetProjectionModels.cs:110-151 | the terms of any text, printed quoted, parse to themselves |
| SearchTerms.Alphabet.PhraseIsNormal | apps/fleet-console-wpf/Contracts/FleetProjectionModels.cs:118-125 | collapsing and trimming leaves single inner spaces and no other white space |
| SearchTerms.Alphabet.NormalIsPhrase | apps/fleet-console-wpf/Contracts/FleetProjectionModels.cs:118-125 | and leaves such a text alone |
| QueryScope.Culture.Create | apps/fleet-console-wpf/Contracts/FleetProjectionModels.cs:54-108 | the loop and the facet give the null, single or and-node tree over the parsed terms |
| QueryScope.Culture.CreatedMeans | apps/fleet-console-wpf/Contracts/FleetProjectionModels.cs:61-97 | the tree accepts a row exactly when every term occurs in its name or id and its freshness is the chosen facet, across all three shapes |
| QueryScope.Culture.ShapeMeans | apps/fleet-console-wpf.tests/Program.cs:4780-4804 | no node, one node and an and-node all evaluate to the conjunction of the terms |
| QueryScope.Culture.TryReadSimpleExpression | apps/fleet-console-wpf/ViewModels/FleetWorkspaceViewModel.cs:3528-3611 | the two editor fields, also after a failure part way, are those of the tree read in order |
| QueryScope.Culture.WrittenReadsBackIff | apps/fleet-console-wpf/ViewModels/FleetWorkspaceViewModel.cs:3480-3611 | as written, a created query is read back if and only if it has no search terms and a facet that is known or absent |
| QueryScope.Culture.WrittenChangesMeaning | apps/fleet-console-wpf/ViewModels/FleetWorkspaceViewModel.cs:3600-3602 | as written, a search inside the freshness text is accepted and comes back as a search in name and id, losing a row |
| QueryScope.Culture.WrittenExactWithoutOr | apps/fleet-console-wpf/ViewModels/FleetWorkspaceViewModel.cs:3528-3611 | as written, every accepted tree without an alternative comes back with its exact meaning |
| QueryScope.Culture.WrittenKeepsRows | apps/fleet-console-wpf/ViewModels/FleetWorkspaceViewModel.cs:3528-3611 | as written, no accepted tree of any shape loses a row if its alternatives avoid the freshness field and its values have no quotes |
| QueryScope.Culture.WrittenPairLosesIff | apps/fleet-console-wpf/ViewModels/FleetWorkspaceViewModel.cs:3589-3611 | for every accepted alternative: it loses a row if and only if it looks into the freshness for a value with terms, or into name or id for a value that does not contain its own terms |
| QueryScope.Culture.QuoteFreePairLosesIff | apps/fleet-console-wpf/ViewModels/FleetWorkspaceViewModel.cs:3589-3611 | over values without quotes the loss is exactly a search of the freshness for a value with a word |
| QueryScope.Culture.CreatedRoundTrip | apps/fleet-console-wpf/ViewModels/FleetWorkspaceViewModel.cs:3480-3611 | with the test the other way round every created query with a known facet is read back, creating it again loses no row, and changes nothing when all terms are plain words |
| QueryScope.Culture.IntendedRoundTrip | apps/fleet-console-wpf/ViewModels/FleetWorkspaceViewModel.cs:3528-3611 | the same for any tree that reader accepts, whose meaning is just what it found |
| QueryScope.Culture.FacetComesBack | apps/fleet-console-wpf/ViewModels/FleetWorkspaceViewModel.cs:3561-3575 | the capitalized facet shown in the editor creates the same facet again |
| Ledger.EligibleIff | apps/fleet-console-wpf/Contracts/FleetProjectionValidation.cs:960-986 | a validated target is eligible exactly when all five facts are at their best and the evidence was fresh when evaluated |
| Ledger.PreflightIff | apps/fleet-console-wpf/Contracts/FleetProjectionValidation.cs:924-986 | exactly which preflights are accepted: allowed facts, ordered times, and the reason of the first fact that is not at its best |
| Ledger.OrdinalIff | apps/fleet-console-wpf/Contracts/FleetProjectionValidation.cs:332-336 | the order of device ids is decided at the first place where they differ |
| Ledger.AscendingDistinct | apps/fleet-console-wpf/Contracts/FleetProjectionValidation.cs:332-336 | checking neighbours in ordinal order rules out any repeated device |
| PackageLedger.ValidateOperation | apps/fleet-console-wpf/Contracts/FleetProjectionValidation.cs:283-512 | the loop accepts exactly the operations within the stated sizes whose targets are the previewed ones in ascending order, each in an accepted state, whose aggregate is what the targets say, and whose claims stay within the parallelism |
| PackageLedger.StateIff | apps/fleet-console-wpf/Contracts/FleetProjectionValidation.cs:351-494 | exactly which states a target may be in, evidence by evidence: stage, invocation, claim, acknowledgement, progress, receipt |
| PackageLedger.AggregateMeans | apps/fleet-console-wpf/Contracts/FleetProjectionValidation.cs:748-780 | what each aggregate says of the eligible targets, both directions; failed is exactly the remaining case |
| PackageLedger.ValidateProgress | apps/fleet-console-wpf/Contracts/FleetProjectionValidation.cs:514-572 | accepts exactly the projection of a valid operation |
| PackageLedger.OneStage | apps/fleet-console-wpf/Contracts/FleetProjectionValidation.cs:351-494 | a valid target is excluded or in exactly one counted stage, and terminal exactly when excluded or at a final stage |
| PackageLedger.ProgressConserves | apps/fleet-console-wpf/Contracts/FleetProjectionValidation.cs:514-572 | for any number of targets: excluded and the thirteen stage counts sum to the total, terminal targets are excluded, applied, failed, expired and cancelled, and retained claims stay within the parallelism |
| PackageLedger.ProgressMeans | apps/fleet-console-wpf/Contracts/FleetProjectionValidation.cs:514-572 | each stage count of an accepted projection is the number of targets at that stage |
| PackageLedger.ProgressTotals | apps/fleet-console-wpf/Contracts/FleetProjectionValidation.cs:514-572 | the other numbers: eligible, excluded, waiting and claimed targets, retained claims, and terminal exactly when all have ended |
| PackageLedger.TerminalIff | apps/fleet-console-wpf/Contracts/FleetProjectionValidation.cs:748-780 | all targets are terminal if and only if the aggregate is rejected, applied, expired or failed and no target waits for its cancellation |
| PackageLedger.FailedBeforeCancelled | apps/fleet-console-wpf/Contracts/FleetProjectionValidation.cs:748-780 | a valid operation whose one target asked for cancellation is already reported failed |
| PackageLedger.AggregateNeverCancelled | apps/fleet-console-wpf/Contracts/FleetProjectionValidation.cs:748-780 | no targets make the package aggregate cancelled or cancelling |
| PackageLedger.ProgressEnds | apps/fleet-console-wpf/Contracts/FleetProjectionValidation.cs:514-572 | a terminal projection has an ended aggregate, and an ended aggregate is terminal once no cancellation is pending |
| KioskLedger.ValidateOperation | apps/fleet-console-wpf/Contracts/FleetProjectionValidation.cs:150-281 | the two loops accept exactly the ledgers within the stated sizes whose targets are the previewed ones in ascending order, each in an accepted state with its requests and times, whose aggregate is what the targets say, and whose outstanding targets stay within the parallelism |
| KioskLedger.StateIff | apps/fleet-console-wpf/Contracts/FleetProjectionValidation.cs:988-1080 | exactly which states a target may be in, evidence by evidence: attempts, dispatch, request, receipt, retry, cancellation |
| KioskLedger.AggregateMeans | apps/fleet-console-wpf/Contracts/FleetProjectionValidation.cs:860-899 | what each aggregate says of the eligible targets, both directions; failed is exactly the remaining case |
| KioskLedger.TerminalIff | apps/fleet-console-wpf/Contracts/FleetProjectionValidation.cs:860-899 | a Kiosk aggregate has ended if and only if every target has |
| KioskLedger.EvidenceFollowsLifecycle | apps/fleet-console-wpf/Contracts/FleetProjectionValidation.cs:988-1080 | attempts, dispatch time, deadline and current request come and go together with the lifecycles past dispatch; a receipt means applied; a retry is offered exactly to failed or expired targets with attempts left |
| PackageWorkflow.BindingIsExact | apps/fleet-console-wpf/ViewModels/FleetWorkspaceViewModel.cs:3080-3089 | equal counts and one inclusion bind the preview to exactly the requested device-to-revision map |
| PackageWorkflow.ValidateBinding | apps/fleet-console-wpf/ViewModels/FleetWorkspaceViewModel.cs:3072-3094 | accepts exactly a valid operation on the same release, package, ring and identities |
| PackageWorkflow.PreviewTakes | apps/fleet-console-wpf/ViewModels/FleetWorkspaceViewModel.cs:1215-1282 | a preview is taken exactly when connected, something is selected, the form is usable and the answer is a valid operation on that release listing just the selection |
| PackageWorkflow.ConfirmTakes | apps/fleet-console-wpf/ViewModels/FleetWorkspaceViewModel.cs:1284-1337 | a confirmation is taken exactly when some target is eligible, all eligible ones wait for it, and the answer has the same id and preview |
| PackageWorkflow.RefreshTakes | apps/fleet-console-wpf/ViewModels/FleetWorkspaceViewModel.cs:1339-1381 | a refresh is taken exactly with an answer of the same id and preview and a projection of it |
| PackageWorkflow.ArchiveTakes | apps/fleet-console-wpf/ViewModels/FleetWorkspaceViewModel.cs:1383-1436 | an archive is taken exactly when offered and of the same id, preview and digest; another digest, or an uncaught failure, escapes |
| PackageWorkflow.OfferedIff | apps/fleet-console-wpf/ViewModels/FleetWorkspaceViewModel.cs:154-171 | which commands the buttons offer; nothing but a preview over a held operation changes the view without being offered |
| PackageWorkflow.RunConsistent | apps/fleet-console-wpf/ViewModels/FleetWorkspaceViewModel.cs:1215-1446 | for every command sequence and any Hub answers, the held operation is absent or valid, previews exactly what was requested, and any progress held is its own |
| PackageWorkflow.PreviewIsFixed | apps/fleet-console-wpf/ViewModels/FleetWorkspaceViewModel.cs:154-171 | through every run of offered commands without dismissal, operation id, preview and requested targets stay |
| PackageWorkflow.ArchiveOnlyEnded | apps/fleet-console-wpf/ViewModels/FleetWorkspaceViewModel.cs:622-631 | archiving is offered only when every target has ended |
| PackageWorkflow.PackageWorkspace.PreviewInstallRelease | apps/fleet-console-wpf/ViewModels/FleetWorkspaceViewModel.cs:1215-1282 | only a fully matching answer replaces what is held, and drops old progress; the busy flag is cleared on every way out |
| PackageWorkflow.PackageWorkspace.ConfirmInstallRelease | apps/fleet-console-wpf/ViewModels/FleetWorkspaceViewModel.cs:1284-1337 | only an operation ready to confirm is confirmed, and only by an answer about the same operation and preview |
| PackageWorkflow.PackageWorkspace.RefreshInstallRelease | apps/fleet-console-wpf/ViewModels/FleetWorkspaceViewModel.cs:1339-1381 | operation and progress are taken together or not at all |
| PackageWorkflow.PackageWorkspace.ArchiveInstallRelease | apps/fleet-console-wpf/ViewModels/FleetWorkspaceViewModel.cs:1383-1436 | an archive of the same operation and digest is taken; under another digest the exception escapes with the view unchanged |
| PackageWorkflow.OtherDigestEscapes | apps/fleet-console-wpf/ViewModels/FleetWorkspaceViewModel.cs:1416-1430 | after a preview and a refresh, a valid archive of the held operation under another digest raises the exception that escapes |
| PackageWorkflow.PackageWorkspace.DismissInstallRelease | apps/fleet-console-wpf/ViewModels/FleetWorkspaceViewModel.cs:1438-1446 | operation and progress go together |
| WatchCursor.ValidateWatchEvents | apps/fleet-console-wpf/Contracts/FleetProjectionValidation.cs:1119-1172 | accepts exactly sound events in strictly ascending sequence past the cursor, within the limit |
| WatchCursor.AnswerIff | apps/fleet-console-wpf/Contracts/FleetProjectionValidation.cs:1119-1172 | exactly which answers are accepted: within the limit, sound, past the cursor, and every event numbered below all that follow |
| WatchCursor.HubSteps | crates/fleet-hub/src/lib.rs:725-738 | recording, and restoring the saved log in a new process, keep a consecutive log of at most the retained length |
| WatchCursor.WatchMeans | crates/fleet-hub/src/lib.rs:894-901 | a read returns the next consecutive events past the cursor, up to a page, and is empty exactly at or past the tail |
| WatchCursor.ResetIff | apps/fleet-console-wpf/ViewModels/FleetWorkspaceViewModel.cs:2051-2076 | a reset is reported exactly when the tail is below the cursor, or the cursor is at the tail of a log longer than a page |
| WatchCursor.ResetWithinLimit | apps/fleet-console-wpf/ViewModels/FleetWorkspaceViewModel.cs:2051-2097 | for a log within the limit a reset means the tail is below the cursor, and the rebased cursor is that tail |
| WatchCursor.LongLogLooksReset | apps/fleet-console-wpf/ViewModels/FleetWorkspaceViewModel.cs:2061-2076 | a Hub retaining one event more than the 10 000 that one read returns makes the cursor move back without a restart |
| WatchCursor.CheckAdvances | apps/fleet-console-wpf/ViewModels/FleetWorkspaceViewModel.cs:2096-2097 | a check consumes one page past its cursor, whatever the Hub does after that read, and never moves the cursor back |
| WatchCursor.CheckOfGrowingHub | apps/fleet-console-wpf/ViewModels/FleetWorkspaceViewModel.cs:2043-2097 | without a restart, a check of a log that grows between its two reads reports no reset and moves the cursor to what the first read saw |
| WatchCursor.SyncsReachTail | apps/fleet-console-wpf/ViewModels/FleetWorkspaceViewModel.cs:2043-2097 | a fixed tail is reached in exactly as many checks as there are pages left |
| WatchCursor.TailIsFixed | apps/fleet-console-wpf/ViewModels/FleetWorkspaceViewModel.cs:2043-2097 | at the tail of a log within the limit further checks change nothing |
| WatchCursor.RunOnward | apps/fleet-console-wpf/ViewModels/FleetWorkspaceViewModel.cs:2018-2108 | over every run without a restart, of recordings, saves, refreshes, initializations and synchronizations any request of which may fail: no reset is reported, the cursor never goes back once initialized, and from the first complete synchronization on the snapshot covers every event up to the cursor |
| WatchCursor.RoundMeans | apps/fleet-console-wpf/ViewModels/FleetWorkspaceViewModel.cs:2018-2108 | one synchronization by the numbers its reads find, whichever requests fail: the cursor goes on to the end of the first read, back to that of the second with a reset, or stays |
| WatchCursor.SynchronizationReportsIff | apps/fleet-console-wpf/ViewModels/FleetWorkspaceViewModel.cs:2061-2100 | with a cursor and all requests answered by one process, a reset is reported exactly when the log ends below the cursor, which is then its end |
| WatchCursor.RunMeans | apps/fleet-console-wpf/ViewModels/FleetWorkspaceViewModel.cs:2018-2108 | over every run, restarts and failing requests included, cursor and number of reported resets are those of the sequence numbers |
| WatchCursor.ResetIsReported | apps/fleet-console-wpf/ViewModels/FleetWorkspaceViewModel.cs:2071-2100 | a Hub restarted at three behind a cursor of five: the reset is reported and the cursor is three |
| WatchCursor.RestartKeepsIff | crates/fleet-hub/src/lib.rs:570-590 | a restart keeps the events a cursor counts if and only if they had been saved; recording as many others does not make up for them |
| WatchCursor.RestartNoticedIff | apps/fleet-console-wpf/ViewModels/FleetWorkspaceViewModel.cs:2061-2076 | a later check reports a reset exactly when fewer events were recorded since the restart than were lost by it |
| WatchCursor.SilentRestart | apps/fleet-console-wpf/ViewModels/FleetWorkspaceViewModel.cs:2061-2076 | five events lost and six recorded: the restart goes unnoticed |
| WatchCursor.InitialCoverageIff | apps/fleet-console-wpf/ViewModels/FleetWorkspaceViewModel.cs:1072-1080 | the first snapshot covers the first cursor if and only if the Hub recorded nothing between the two requests |
| WatchCursor.FirstCursorUncovered | apps/fleet-console-wpf/ViewModels/FleetWorkspaceViewModel.cs:1072-1080 | one event recorded in between is in the cursor and not in the snapshot |
| WatchCursor.WatchClient.Initialize | apps/fleet-console-wpf/ViewModels/FleetWorkspaceViewModel.cs:1072-1080 | a cursor is read only after the scope was loaded |
| WatchCursor.WatchClient.EstablishWatchCursor | apps/fleet-console-wpf/ViewModels/FleetWorkspaceViewModel.cs:2306-2333 | the cursor is set to the end of a valid first read and unset by any failure |
| WatchCursor.WatchClient.CheckLog | apps/fleet-console-wpf/ViewModels/FleetWorkspaceViewModel.cs:2049-2077 | the second read is made only when the first is empty past a nonzero cursor, and either one failing fails the check |
| WatchCursor.WatchClient.SynchronizeUpdates | apps/fleet-console-wpf/ViewModels/FleetWorkspaceViewModel.cs:2018-2108 | a failed read or refresh moves neither cursor nor snapshot; a successful one moves the cursor after the snapshot; without a cursor the scope is still refreshed |

## Left out

- HTTP, JSON, hashing, Win32 handles, COM shortcuts and registry calls: digests are text, serialized equality is equality of values, the file system and the registration key are maps, and UTF-8 decoding has happened.
- Windows path comparison: paths and file names are compared exactly, without case folding; white space in names is the four ASCII characters.
- The field-by-field checks of rows, summaries, previews, claims, receipts, invocations and watch decisions: each is one boolean of the record that carries it (`wellFormed`, `sound`, `valid`, `historySound`), because no property here depends on their text.
- The sort key and direction of a query, and their mapping in the simple scope editor: a flat table of names.
- Grouping as drawn: the table's group headers use display properties (`CohortGroup`, `FreshnessGroup`, `ApplicationGroup`), while the recorded groups compare raw values; the model is about the recorded ones.
- The inspector, saved-view storage, row restoration, status and summary texts, commands' enablement other than the package workflow's.
- Async scheduling inside the console: each public method is one step. The interleaving that matters is the Hub's.
- Provider internals, catalogue validation and the 16 MiB and generation limits of the durable state: they appear as a refused read, a malformed admission or a write that fails before publication. Other writers are assumed to keep catalogue associations and consumed replay identities, as only admission changes them.
- The development shell test root, where the registration is a file captured before its directory exists, and the injected failures other than the one before the tree is deleted.
- ShellIdentity.PlaceSteps: a failing directory creation is taken to leave nothing behind; changes torn in any other way are covered by ShellTransaction.DisposeRestoresPlacement.
- Uninstall.Uninstall: assumes the shortcut path is not itself a file, that root, quarantine and shortcut directory do not contain one another, and that neither the root nor the shortcut directory has the name of the receipt.
- SetupRun.Installer.Execute: the temporary state file left by a throw before the rename, and builds that apply no shell identity, are not modelled; the directories and the lock of the way in are those of Uninstall.Enter.
- ShellTransaction.DisposeRestores: the registration key is a map of values; subkeys, which restoring deletes and does not bring back, are not modelled, and Setup creates none.
- FleetWorkspace.Workspace.Execute: what is selected after answers with two revisions of a device is stated by SelectAllVisible and SetFlagAt for one command, not over runs.
- TreeWalk.ValidateExact: the tree does not change while it is held open, so the final recheck has nothing left to find.
- KioskLedger.ValidateOperation: owner contract bindings, request id syntax and receipt signatures are part of `sound` and `valid`.
- QueryScope.Culture.CreatedMeans: case folding is one character at a time; fields and comparisons that the evaluator would reject accept no row.
- SearchTerms.Alphabet.ParseSearchTerms: one notion of white space serves both the pattern and the trimming, which differ on a few control characters.
- Saturation of event sequences and revisions at their integer limits.
- The Quest awake, Wi-Fi ADB, hotspot and provider-catalog validators, which are conjunctions of field checks.
- Release channel, signing and composition checks of the manifest, and archive extraction.
