# Holds, trust and history of a backup manager's configuration: a verified model

This project models the part of retnd that decides what a backup set's configuration may become,
while backup cycles keep running on old copies of it, and proves what that part promises. It is
one small shared state, seen from six sides: the configuration file on disk, the configuration in
force, the holds, the journal, the trusted host-key files, and what an operator is shown.

Run `dafny verify dfyconfig.toml` to check all of it.

## How it is laid out

| file | what it models |
|---|---|
| `Config`, `ConfigEdits` | the configuration and the four edits made of it; the loops that make them |
| `EditHolds`, `WatchForHold` | the registry of leases and removal holds with its broadcast channel, and the watchers on it |
| `HoldProtocol` | every call under the lock, step by step, with cycles, leases, failures and hand edits in between |
| `BackupService`, `UpdatePath` | the service object itself: remove, create, toggle, clear and edit, each run a run of the protocol |
| `Agreement` | that the machines for the mark, the history and the trust files take the steps the service takes |
| `Repoint`, `HistoryCoherence` | the two repoint refusals, and what they keep true of the journal |
| `HostKeyTrust`, `KnownHostsName`, `Retrust` | the three trust refusals and the staged file, the file names, and crashes and hand edits between any two steps |
| `CanonicalTrust` | the trust files creates write in place, over runs with restarts and power losses |
| `UpdateSet`, `Connection`, `Verified` | sparse edits, what a connection test is about, and the unverified mark |
| `Duration`, `ShellLine`, `CommandBuilder`, `Endpoint`, `Decimal` | the command echo: printers and the readers that invert them |
| `FirstRun`, `Activity` | the exclusive first create under racing processes, and cursor paging |

A protocol is a datatype of steps with `Enabled` and `After` (or `Apply`), and `Run` folds a
sequence of them; what is proved of a run is proved of every interleaving. The service classes carry
a ghost trace and keep the invariant that their state is where the protocol's run over that trace
leads, so the theorems about runs are theorems about the objects. What the world answers (a read
failing, a rename done but not synced, a remove that does not work, a check passing) is a parameter
of each call or step, and every combination is covered.

## What turned out differently from what the comments say

- **A write has three outcomes.** `writeConfigBytesAtomically` can answer with an error after its
  rename (core/service/backupsets.go:1229-1234): the file is new, the configuration in force is not.
  Every module with a write has all three, and each that loses something by it has the exact
  condition and the run. A removal gives its hold back although the file no longer names the set
  (`HoldProtocol.RenamedButUnsyncedRemovalUnprotects`); a re-trust deletes the trust file the
  configuration on disk names (`Retrust.UnsyncedRenameLosesTheAnchor`); a set moved before it had
  history is polled where it was (`HistoryCoherence.PassAfterAnUnsyncedMoveBreaks`); and a test of
  the connection in force clears the mark of, or lets delete, the one on disk
  (`Verified.UnsyncedEditThenTestLies`, `Verified.UnsyncedEditThenReadOnlyOffIsUnearned`).
  `BackupService` and `UpdatePath` say what each call leaves in that case. Where nothing could come
  back but what is there, a restart or a power loss costs nothing; where something could,
  `HistoryCoherence.PowerLossAfterAnUnsyncedMoveBreaks` shows the price.
- **A failed remove is not looked at** (core/service/firstrun.go:474-490 and 530-538,
  core/service/backupsethostkey.go:712-717). A first create can so leave a truncated configuration
  nobody gets past (`FirstRun.FailedRemoveLeavesAPartialFile`), and a refused edit its staged file.
  `FirstRun`, `HostKeyTrust`, `UpdatePath` and `Retrust` let removes fail.
- **A failed first create has written the set's trust file**, before much that can still fail
  (core/service/firstrun.go:287-428): `FirstRun.Directory.CreateInitialConfig` says when.
- **That a hold is only ever given back by the call that placed it, for a set that is still there**
  (core/service/backupsetremove.go:112-119), holds without hand edits
  (`HoldProtocol.FailedCallLeavesHoldsAsFound`); with the file restored by hand between two
  removals it does not (`HoldProtocol.HandEditThenFailedRemovalUnprotects`).
- **The known_hosts file name is not injective** (core/service/backupsethostkey.go:591-629): `a_`/`b`
  and `a`/`_b` share a file. `KnownHostsName` has the exact condition.
- **The mark is cleared by id**, not for the set that was tested
  (core/service/backupsetverified.go:366-390); `Verified` has the exact condition and the race.
- **`endpointWithoutUserinfo` keeps the userinfo of a network-path reference** such as `//u@h`
  (core/cliecho/cliecho.go:552-565); `Endpoint` has the exact condition.
- **Disjoint edits also fail to commute on a dead window**: a set off "stable" whose file still
  holds a stable_for, moved onto "stable" by one of them (`UpdateSet.DisjointEditsCommuteExactly`).
- **A lease read after its lapse stays gone when the clock is set back**
  (`EditHolds.ClockSetBackShows`); with a monotone clock this cannot be seen.
- **`seconds` at the minimum int64 prints a bare sign** (core/cliecho/cliecho.go:508-517).
- **The link route can fail after its link**: the caller is told the first configuration could not
  be synced, and it is there (`FirstRun.LinkedThenErrorStays`).
- **A refused create does leave something behind, and what is truncated can be live**
  (core/service/backupsets.go:719-745 and 914-922). The canonical known_hosts file is written before
  Validate refuses a duplicate id, and history is not asked about for one; and an id that is a
  boundary shift of a configured one writes the same file. `BackupService` says exactly when the file
  of a configured set is rewritten, `CanonicalTrust` has the runs, and the theorem over all runs
  that stay clear of both.

## Model

| member | source | states |
|---|---|---|
| `EditHolds.Holds.Held` | core/service/edithold.go:169-184 | asked for any id at any reading of the clock: true exactly for a removal hold or a lease not yet past its expiry; the only change is that a lapsed lease is dropped, and never under a removal hold |
| `EditHolds.Holds.LeaseHeldLocked` | core/service/edithold.go:186-202 | a lease lives up to, not including, its expiry; reading a lapsed one deletes it |
| `EditHolds.Holds.GetChanged` | core/service/edithold.go:204-209 | the channel handed out is the current one and is open |
| `EditHolds.Holds.Place` | core/service/edithold.go:211-224 | places or renews a 90 second lease, closes the channel that was current and replaces it with a fresh open one; nothing else moves |
| `EditHolds.Holds.Release` | core/service/edithold.go:226-234 | removes the lease and only the lease; releasing what is not held changes nothing |
| `EditHolds.Holds.HoldRemoved` | core/service/edithold.go:236-255 | adds a permanent removal hold and wakes every watcher; leases stay |
| `EditHolds.Holds.Broadcast` | core/service/edithold.go:249-255 | the old channel is closed, once, and a new open one takes its place; closing a closed channel would be a run-time panic and cannot happen |
| `EditHolds.Holds.ForgetRemoved` | core/service/edithold.go:257-266 | drops one removal hold |
| `EditHolds.Holds.ForgetRemovedNamedIn` | core/service/edithold.go:268-282 | the nested loop drops exactly the removal holds of the ids the configuration names |
| `EditHolds.Holds.State` | core/service/edithold.go:284-292 | the edit form is told the expiry of a lease the simple specification calls held, and never a removal hold |
| `EditHolds.AnswersTheSpecExactlyUnlessLapseSeen` | core/service/edithold.go:169-202 | for any clock whatever and any history of calls: the lazily expiring map answers 'placed less than 90 seconds ago and not released since, or removal-held', except exactly for a lease somebody already saw lapse |
| `EditHolds.SeenLapseIsPast` | core/service/edithold.go:190-202 | with a clock that never runs backwards, a lease seen to lapse is past its expiry for good |
| `EditHolds.HeldIsTheSimpleSpecification` | core/service/edithold.go:169-234 | with such a clock lazy deletion is never observable: held exactly when the newest place-or-release is a place less than 90 seconds old, or removal-held |
| `EditHolds.StateIsTheSimpleSpecification` | core/service/edithold.go:284-292 | nor is it in what the edit form is told: the expiry of exactly the lease that specification calls held, 90 seconds after the newest place |
| `EditHolds.ClockSetBackShows` | core/service/edithold.go:190-202 | and without it, it is: a concrete history in which the map and the specification differ |
| `EditHolds.LeaseLastsNinetySeconds` | core/service/edithold.go:211-224 | a lease placed at a moment holds its set for ninety seconds from then and not one more, holds no other, and takes no removal hold away |
| `WatchForHold.StepKeepsInv` | core/internal/app/holds.go:163-177 | any step of any watcher or caller keeps: a watcher waiting on the open channel watches an id with no hold on file |
| `WatchForHold.NoLostWakeUp` | core/internal/app/holds.go:163-177 | over every run, any number of watchers and callers interleaved: a watcher that waits while its set is held waits on a channel already closed, so its next step is to wake |
| `WatchForHold.RemovalStopsThePass` | core/internal/app/holds.go:163-177 | over every run: from any reachable state and in any interleaving in which the hold a removal placed stands and the pass does not end by itself, the watcher has fired exactly when it has taken the own steps left to it, never more than three, and until then the next of them can be taken |
| `WatchForHold.EachOwnStepCounts` | core/internal/app/holds.go:163-177 | its distance from firing, and the own steps it has taken, always add up to the same number, whatever anybody else does in between |
| `HoldProtocol.NoConfiguredSetIsRemovalHeld` | core/service/configreload.go:75-93 | over every run, hand edits and every kind of failed write included: whenever the lock is free no id the live configuration names is removal-held |
| `HoldProtocol.StepKeepsInv` | core/service/configreload.go:94-119 | what every step of every call keeps between taking the lock and giving it up |
| `HoldProtocol.RemovedSetIsNeverProcessed` | core/service/backupsetremove.go:177-269 | in every interleaving whose failed removals were clean, hand edits and cycles on arbitrarily old snapshots included: a removed id answers Held from before the write until a configuration naming it is live |
| `HoldProtocol.QuietRunsAreSafe` | core/service/backupsetremove.go:177-269 | without hand edits and with a write error leaving the old file, every interleaving of any number of racing calls is safe; cleanliness need not be assumed |
| `HoldProtocol.ProtectionLostExactlyByAGiveBack` | core/service/backupsetremove.go:228-242 | the one step that can leave an id taken out unheld is a failed removal giving back a hold on an id already taken out: if and only if |
| `HoldProtocol.FailedCallLeavesHoldsAsFound` | core/service/backupsetremove.go:96-119 | a hold is given back only by the call that took it, under the same hold of the lock, on a set still in the file; a call that leaves without writing leaves the removal holds exactly as it found them, so the loser of two racing removals neither places nor drops one |
| `HoldProtocol.CleanRunProtects` | core/service/backupsetremove.go:228-269 | the run invariant behind it: everything taken out is held, and nothing taken out is live but in the window between write and swap |
| `HoldProtocol.HandEditThenFailedRemovalUnprotects` | core/service/backupsetremove.go:228-242 | a concrete run: the file restored by hand between two removals, the second failing, leaves a running cycle free to process a set no live configuration names |
| `HoldProtocol.RenamedButUnsyncedRemovalUnprotects` | core/service/backupsets.go:1226-1234 | a concrete run with no hand edit: a rename whose directory sync fails does the same once anything else is written |
| `ConfigEdits.TakeOut` | core/service/backupsetremove.go:185-219 | the nested search and splice: finds the first set under the id and takes out exactly that one, its source staying |
| `ConfigEdits.Put` | core/service/backupsetupdate.go:528-545 | the set the search found is overwritten where it stands, and only the first of its id |
| `ConfigEdits.Switch` | core/service/backupsetenabled.go:96-109 | the toggle's loop, which has no break: every set under the id, and found exactly when there is one |
| `ConfigEdits.Append` | core/service/backupsets.go:759-769 | appends to the first source of that name, or makes the source |
| `ConfigEdits.EditsAreOfTheFirst` | core/service/backupsetremove.go:185-219 | an id means the first set of that name under a source of that name; a removal takes out, and an edit overwrites, that one alone, and every other stays where it stands |
| `ConfigEdits.ToggleIsOfEvery` | core/service/backupsetenabled.go:96-109 | a toggle switches every set under the id, first or not, and no other |
| `ConfigEdits.NamesAreDistinct` | core/internal/config/validate.go:107-150 | the two seen-maps accept a file exactly when no two sources share a name and no two sets an id |
| `Config.FindWithout` | core/service/backupsetremove.go:185-219 | after a removal every other id answers as before, and in a file Validate accepts the removed one no longer does |
| `Config.FindAdded` | core/service/backupsets.go:759-769 | after a create over a free id that id answers with the new set, every other as before |
| `Config.FindReplaced` | core/service/backupsetupdate.go:421-421 | after an edit that id answers with the edited set, every other as before |
| `Config.FindToggled` | core/service/backupsetenabled.go:96-109 | a toggle moves one switch of one id and nothing else |
| `Config.IdsWithout` | core/service/backupsetremove.go:185-219 | the ids named after a removal |
| `Config.WithoutStaysUnique` | core/internal/config/validate.go:107-150 | a removal from a file Validate accepts leaves one its name rules accept, with the same sources |
| `Config.DuplicateIsRefused` | core/service/backupsets.go:759-792 | adding a set under an id the file holds makes a file Validate refuses |
| `BackupService.Service.RemoveBackupSet` | core/service/backupsetremove.go:160-286 | the whole removal: which refusal is answered for every combination of things that can go wrong; file, live configuration, recorded address, leases, removal holds and broadcast after each, a removal that failed past its hold included; and the service stays in a state the hold protocol reaches |
| `BackupService.Service.RemoveLocked` | core/service/backupsetremove.go:177-286 | the same from the lock on, for a file that may have changed since the cheap check |
| `BackupService.Service.RemoveFound` | core/service/backupsetremove.go:221-286 | the address is on record before the hold, the hold before the write |
| `BackupService.Service.RemoveUnderHold` | core/service/backupsetremove.go:228-271 | the hold goes in, and every route out that did not remove the set gives it back before the lock is released |
| `BackupService.Service.AdoptConfig` | core/service/configreload.go:94-127 | the swap comes first, then the removal hold of every id the new configuration names is dropped |
| `BackupService.Service.Persist` | core/service/backupsetremove.go:244-269 | encode, validate, resolve, write, adopt: nothing changes unless the file was replaced, and an error after the rename is told apart |
| `BackupService.Service.Replace` | core/service/backupsets.go:1207-1236 | the three outcomes of a write and what each leaves behind |
| `BackupService.Service.SetBackupSetEnabled` | core/service/backupsetenabled.go:79-139 | how a toggle ends, and file, live configuration and holds after it, for every failure |
| `BackupService.Service.CreateBackupSet` | core/service/backupsets.go:706-852 | a create from the lock on: the engine gate first, then the history question only for an id the file does not hold, then the trust file, written exactly when those were answered and never taken back, then every way the rest can end; file, live configuration, holds and trust files after each |
| `BackupService.Service.WriteAndFinish` | core/service/backupsets.go:754-819 | the trusted line is on disk before the set that names it is encoded, validated or written, and whatever those answer it stays |
| `BackupService.Service.ClearConnectionUnverified` | core/service/backupsetverified.go:348-423 | after a passing test: the mark comes off whatever is under the id in the file now, and nothing else is ever written |
| `BackupService.Service.BeginBackupSetEdit` | core/service/edithold.go:397-406 | takes or renews a lease for a configured id without waiting for the lock, and touches nothing for any other |
| `BackupService.Service.EndBackupSetEdit` | core/service/edithold.go:428-437 | releases it; releasing what is not held is a success |
| `BackupService.Service.CycleAsks` | core/internal/app/cycle.go:330-330 | what a running cycle is told before it starts on a set of its own configuration |
| `BackupService.WriteEndsByTheFirstFailure` | core/service/backupsetremove.go:244-269 | every write: done if and only if the configuration encodes, its names are distinct, everything else in it validates, its validators resolve and the rename is made and synced; each refusal if and only if that step is the first to fail; the file changes if and only if all before the write went right and the rename was made |
| `BackupService.RemovalEndsByTheFirstFailure` | core/service/backupsetremove.go:160-286 | a removal: what each answer means about the load, the id, the record and then the write, and that the hold is taken exactly when all before it went right |
| `BackupService.RemovalRecordsWhereItPointed` | core/service/backupsetremove.go:221-227 | host, remote path and local path the set had go on record for its id exactly when the record can be made, whatever the removal then answers; nothing else in the journal moves |
| `BackupService.ToggleEndsByTheFirstFailure` | core/service/backupsetenabled.go:79-139 | a toggle, likewise |
| `BackupService.CreateEndsByTheFirstFailure` | core/service/backupsets.go:706-852 | a create: refused by the engine gate if and only if the set asks for the incremental engine and the deployment does not run it, by history if and only if the id is free and may not adopt, and then by trust file and write in that order |
| `BackupService.NothingIsTouchedBeforeTheQuestions` | core/service/backupsets.go:719-752 | a create that is done, or has touched the trust files at all, runs an engine the deployment runs, over history it may adopt |
| `BackupService.ClearEndsByTheFirstFailure` | core/service/backupsetverified.go:348-423 | a clear writes if and only if the file holds a mark under the id, and then ends like any write |
| `BackupService.DoneClearTookTheMarkOff` | core/service/backupsetverified.go:366-390 | a clear that is done found a mark and took it off: the id has the set it had but for that, every other id as before, ids and name rules kept |
| `BackupService.ConfiguredSetIsNeverRemovalHeld` | core/service/configreload.go:75-93 | whatever has been called on a service and whatever went wrong, once the lock is free no set it has in force is removal-held |
| `BackupService.RemovedSetStaysHeld` | core/service/backupsetremove.go:177-269 | on a service whose failed removals were clean, a set taken out answers Held to any cycle at any time until it is configured again |
| `BackupService.DoneRemovalTookItOut` | core/service/backupsetremove.go:160-286 | a removal that succeeded took out exactly that id and left it held |
| `BackupService.DoneCreateIsThere` | core/service/backupsets.go:741-852 | a create that succeeded was over a free id, is found as asked for and reading the file written for it, is not held, and adopted no history from elsewhere unsaid |
| `BackupService.DoneToggleMovedOneSwitch` | core/service/backupsetenabled.go:79-139 | a toggle that succeeded moved one switch |
| `BackupService.RemoveThenCreateIsAnUndo` | core/service/backupsetremove.go:33-52 | removing a set and creating it where it was goes through with nothing asked, and every id has the set it had, this one reading its own canonical trust file again, which is a difference exactly if an edit had moved it off that |
| `BackupService.CreateRewritesAnotherAnchorExactly` | core/service/backupsets.go:706-792 | if and only if: what a configured set reads from its own create changes under another create when that gets past load, engine gate and history question and opens the file, its id is the same or a boundary shift of it, and other bytes land; whatever Validate, the catalog and the write then answer |
| `BackupService.RefusedDuplicateRewritesTheAnchor` | core/service/backupsets.go:741-792 | a create over a configured id is asked nothing about history, is never done and never replaces the configuration, and by the time the name rules refuse it its line is what the configured set reads |
| `BackupService.Service.StartCycle` | core/service/operations.go:612-618 | a cycle keeps the configuration in force as it started |
| `BackupService.Service.EditedByHand` | core/service/backupsets.go:709-720 | the file may change under the service, and nothing else of it does |
| `Repoint.TheTwoPathsAskTheSameQuestion` | core/service/backupsetrepoint.go:107-129 | an edit's moved fields are those of creating its result over the set's own address, and none are listed exactly when the address does not change |
| `Repoint.MovesNameEveryDifference` | core/service/backupsetrepoint.go:107-129 | each field that differs is named once, from what was recorded to what is asked for, host before remote path before local path |
| `Repoint.StrandedLocalPath` | core/service/backupsetrepoint.go:297-322 | the fallback loop reports something exactly when something landed and none of it where the request would look; the roots it names are the distinct directories history lies in, each once and in order |
| `Repoint.SortedIsSorted` | core/service/backupsetrepoint.go:315-321 | the order they are listed in is the byte order of the strings |
| `Repoint.BeforeIsAscending` | core/service/backupsetrepoint.go:315-321 | which is ascending: a beginning before what goes on, and otherwise the smaller byte at the first difference |
| `Repoint.RequireRepointAcknowledgement` | core/service/backupsetrepoint.go:145-185 | an edit goes ahead exactly when acknowledged, or there is no journal, or the address stays, or the history could be read and is empty; a refusal names the true moves |
| `Repoint.RequireCreateRepointAcknowledgement` | core/service/backupsetrepoint.go:330-390 | a create goes ahead exactly when acknowledged, or nothing is on record, or everything on record could be read and says the same address; an unreadable record refuses |
| `Repoint.MayAdoptExactly` | core/service/backupsetrepoint.go:330-390 | that condition said of the journal itself: records, recorded address, and the directories artifacts landed in |
| `Repoint.FallbackNeverSeesTheRemoteHalf` | core/service/backupsetrepoint.go:220-232 | with no address recorded a create goes ahead unasked over any history with one artifact where the request would look, wherever that came from; with that artifact's address on record, exactly when the address is the same |
| `HistoryCoherence.CoherenceLostExactlyByABreak` | core/service/backupsetrepoint.go:1-47 | step by step and for every way a write can end, if and only if: history stays coherent unless an id with history is created, edited, hand-edited or first-run elsewhere, a pass finds something new at an address the file does not point the id at, or a power loss brings back a file that points one elsewhere |
| `HistoryCoherence.CarefulStepNeverBreaks` | core/service/backupsetrepoint.go:145-185 | a step with no acknowledgement, hand edit or first-run create, and passes on the configuration in force, is none of those, a power loss included, as long as no rename goes unsynced or a pass records something new only where file, configuration in force and whatever could come back agree |
| `HistoryCoherence.OtherwiseCarefulBreaksExactlyOutOfStep` | core/service/backupsets.go:1226-1234 | what an unsynced rename costs, exactly: a pass on the configuration in force that finds something new loses coherence if and only if file and configuration in force point the id at different addresses |
| `HistoryCoherence.CarefulStepKeepsHistoryInStep` | core/service/backupsetrepoint.go:145-185 | an id with history is never left pointing two ways: only one without history can be moved unasked by a write that was not synced |
| `HistoryCoherence.HistoryCameFromHere` | core/service/backupsetrepoint.go:188-236 | over every such run of creates, edits, removals, toggles, passes, restarts and power losses, each write ending in any of its three ways: every record of an id came from the address it points at now, in the file and in force, and every record of one that is gone from the address recorded at its removal |
| `HistoryCoherence.CarefulRunStaysCoherent` | core/service/backupsetrepoint.go:188-236 | the same as an invariant: coherence, distinct names, and file, configuration in force and whatever could come back agreeing on every id with history, after every such run |
| `HistoryCoherence.HomeAfter` | core/service/backupsetremove.go:363-381 | where each id points after each step, however a write ends; a removal, failed or not, records what it already was |
| `HistoryCoherence.PassOutlivingAMoveBreaks` | core/service/backupsetrepoint.go:131-145 | a concrete run with nothing acknowledged: a pass that outlives the configuration it started with loses coherence |
| `HistoryCoherence.PassAfterAnUnsyncedMoveBreaks` | core/service/backupsets.go:1226-1234 | a concrete run with nothing acknowledged and no late pass: a set without history moved by a rename that is not synced, polled at the address still in force, and the move put in force by the next write |
| `HistoryCoherence.PowerLossAfterAnUnsyncedMoveBreaks` | core/service/backupsets.go:1226-1234 | and one in which file and configuration in force agree: the unsynced move put in force by a restart, polled where it points, and reverted by a power loss |
| `HostKeyTrust.AddressIsHostAndPort` | core/service/backupsethostkey.go:230-238 | two remotes look up the same known_hosts address exactly when host and effective port agree, the default spelled out or not |
| `HostKeyTrust.PortChangeStillAsks` | core/service/backupsethostkey.go:339-358 | on one host, if and only if: a change of port goes through unasked when the key was trusted at the port it ends at, or nothing was pinned there and it was trusted, or nothing pinned, at the port it leaves; spelling out the default is no change |
| `HostKeyTrust.RefusalNamesWhatIsPinned` | core/service/backupsethostkey.go:323-395 | what a refusal names is an address and the very keys the file pins there; it is for want of an answer if and only if the file has none to the question as far as it is asked |
| `HostKeyTrust.AddressIsSpelled` | core/service/backupsethostkey.go:230-238 | host, in brackets if it has a colon, colon, and the port in decimal, 22 if none is given |
| `HostKeyTrust.DroppedTrust` | core/service/backupsethostkey.go:458-489 | the loop lists every marker rule and every key trusted before and not after, in file order, and refuses to answer over a file it cannot read |
| `HostKeyTrust.LossesAreTheLostEntriesInOrder` | core/service/backupsethostkey.go:458-489 | the list holds one item for every entry that is a marker rule or a key verified before and not after, saying that rule or that key, in the order of the file, and nothing else |
| `HostKeyTrust.NoLossExactlyWhenTrustIsKept` | core/service/backupsethostkey.go:420-489 | nothing is listed exactly when there is no marker and no listed key stops verifying |
| `HostKeyTrust.KeysTrustedFor` | core/service/backupsethostkey.go:505-524 | the plain keys of a file that verify the address, in file order |
| `HostKeyTrust.ShownExactlyTheListedTrust` | core/service/backupsethostkey.go:505-524 | a key is shown exactly when the file lists it plainly and verifies it |
| `HostKeyTrust.ShownInFileOrder` | core/service/backupsethostkey.go:505-524 | one for every plain entry that verifies, in the order of the file |
| `HostKeyTrust.Directory.WriteKnownHosts` | core/service/backupsets.go:926-953 | truncates and writes the canonical name in place over whatever is there; names the path only once the line is whole and synced, and says what each failure leaves |
| `HostKeyTrust.WhatATrustWriteLeaves` | core/service/backupsets.go:926-953 | nothing, the line and a newline, or a beginning of that as long as what landed |
| `HostKeyTrust.AnchorRewrittenExactly` | core/service/backupsets.go:893-953 | two ids write one file exactly when they are boundary shifts of each other, and what is read there changes exactly when other bytes land |
| `HostKeyTrust.CreateReplacesEveryOtherKey` | core/service/backupsets.go:893-953 | with a sane matcher the file a create leaves trusts no key but its line's, with nothing asked about any key it trusted before |
| `HostKeyTrust.StageKnownHostsLine` | core/service/backupsethostkey.go:741-793 | succeeds exactly when every file step does and the file as written verifies the address; on success one fresh file holds the line, on any failure no other file is touched and, if it can be removed, neither is that one there |
| `HostKeyTrust.StagedTextIsOneLine` | core/service/backupsethostkey.go:741-793 | the staged text is the line without the newlines at its end, and one |
| `HostKeyTrust.LineIsUsableExactly` | core/service/backupsethostkey.go:128-158 | an edit takes a line if and only if it is not blank, parses as one entry and carries no marker |
| `HostKeyTrust.StagedKnownHosts.Discard` | core/service/backupsethostkey.go:697-717 | removes the staged file unless it was kept or the remove fails, whose error is dropped |
| `HostKeyTrust.PrepareTrustChange` | core/service/backupsethostkey.go:822-845 | accepts exactly when all three questions are answered on the files as they would be, and names the first that was not; a refusal leaves the directory as it found it, but for the staged file if that could not be removed |
| `HostKeyTrust.AcceptedUnacknowledgedExactly` | core/service/backupsethostkey.go:360-489 | accepted without acknowledgement, if and only if: the staged line verifies the edited address, no marker was there, no key listed and trusted there is lost, and the key was already trusted there, or nothing was pinned there and it was trusted, or nothing pinned, at the present address, or the host is another |
| `HostKeyTrust.AcceptedAcknowledgedExactly` | core/service/backupsethostkey.go:360-489 | with the acknowledgement, if and only if the line parses and the file as written verifies where the set ends up |
| `HostKeyTrust.NoKeyIsReplacedUnasked` | core/service/backupsethostkey.go:337-395 | for every key, given a sane matcher: after such an edit the set trusts exactly the key offered at its address, where before it trusted that key or none; with the host unchanged, a set that trusted anything already trusted the key it ends with |
| `HostKeyTrust.SaneMatcherExists` | core/service/backupsethostkey.go:250-276 | what is asked of the matcher can be met |
| `HostKeyTrust.SaneMatcherDecides` | core/service/backupsethostkey.go:360-489 | under one concrete matcher, a re-send of the key on record goes through unacknowledged and any other key is refused |
| `KnownHostsName.TokenInjective` | core/service/backupsethostkey.go:619-621 | one segment is encoded without loss |
| `KnownHostsName.NamesCollideExactlyOnABoundaryShift` | core/service/backupsethostkey.go:591-629 | two ids share a trust file if and only if they differ at most in how one run of underscores is split between end of source and start of name |
| `KnownHostsName.NameInjectiveOffTrailingUnderscores` | core/service/backupsethostkey.go:591-629 | hence injective on sources that do not end in an underscore |
| `KnownHostsName.TwoSetsOneFile` | core/service/backupsethostkey.go:591-629 | two legal distinct ids that share a file |
| `KnownHostsName.PlainIdsKeepTheirName` | core/service/backupsethostkey.go:601-614 | ids with no underscore get source, underscore, name and the suffix, as under the older scheme; an underscore inside is doubled |
| `KnownHostsName.SplitCollides` | core/service/backupsethostkey.go:619-629 | the whole colliding family |
| `KnownHostsName.NameIsOnePlainSegment` | core/service/backupsets.go:965-977 | names built from valid segments hold no separator, NUL or line break and are no directory reference |
| `KnownHostsName.StagedIsNeverCanonical` | core/service/backupsethostkey.go:752-763 | a staged file is never any set's canonical file |
| `Retrust.AnchorsLostExactlyByUndoingANamedFile` | core/service/backupsethostkey.go:657-717 | with crashes and hand edits between any two steps, if and only if: the edit-put paths of every configuration that is or could come back name whole synced verified files unless a staged file is taken back while a configuration names it |
| `Retrust.EverSoundLostExactlyByALateUndo` | core/service/backupsethostkey.go:697-717 | the same of every path an edit ever put into a configuration, lost if and only if a file is taken back after the rename that named it |
| `Retrust.SyncedRenamesAreNeverTakenBack` | core/service/backupsetupdate.go:499-519 | which no run does in which no directory sync after a rename fails |
| `Retrust.EditAnchorsAlwaysVerify` | core/service/backupsethostkey.go:741-793 | over every run of edits, creates, other writes, hand edits and crashes in which no staged file is taken back after its rename: every known_hosts path an edit put on disk names a complete synced file that verified the address it was staged for, now and after a crash at this moment |
| `Retrust.RunKeepsInv` | core/service/backupsethostkey.go:657-717 | the invariant of every such run: file, configuration and every anchor an edit ever put, at each step of staging |
| `Retrust.RefusedEditLeavesNothing` | core/service/backupsetupdate.go:373-382 | an edit refused at any step leaves the directory exactly as it was, its own file apart if the remove failed, and nothing naming what it staged |
| `Retrust.StepKeepsPhase` | core/service/backupsethostkey.go:741-793 | what each step of staging has made durable, and that nothing names the file yet, hand edits in between included |
| `Retrust.CouldBeAfter` | core/service/backupsets.go:1207-1236 | after a synced write, or a crash, no older configuration can come back; before its sync a renamed one adds to what could |
| `Retrust.SyncedRunsHaveOneConfiguration` | core/service/backupsets.go:1226-1234 | over every run whose writes are all synced, and outside the moment between a rename and its sync, the configuration on disk is all a crash could leave |
| `Retrust.UnsyncedRenameLosesTheAnchor` | core/service/backupsets.go:1226-1234 | a concrete run: the rename done and its directory sync failed, the deferred discard deletes the file the configuration on disk names |
| `CanonicalTrust.AnchorsLostExactlyByClobbering` | core/service/backupsets.go:914-925 | step by step, with restarts and power losses, if and only if: a set stops reading the whole synced line its own create wrote when another create reaches its trust file under the same id or a boundary shift of it, leaves other bytes, and the set is still about |
| `CanonicalTrust.EveryCreatedSetReadsItsOwnLine` | core/service/backupsets.go:893-925 | over every run of creates, done and refused, edits, removals, toggles, hand edits, restarts and power losses in which no create goes over a configured or colliding id: every set a create configured reads the whole line that create wrote, in the file, in force and in whatever could come back |
| `CanonicalTrust.CarefulRunStands` | core/service/backupsets.go:893-925 | the same as an invariant of every such run |
| `CanonicalTrust.StaysOnRecord` | core/service/backupsets.go:893-925 | the theorem speaks of every created set until it is removed, re-trusted or edited by hand |
| `CanonicalTrust.SyncedRunsHaveOneVersion` | core/service/backupsets.go:1226-1234 | while every rename is synced and nobody edits by hand, the ids to look at before a create are those of the file |
| `CanonicalTrust.RefusedDuplicateReplacesTheLine` | core/service/backupsets.go:748-792 | a concrete run: a create over a configured id, refused, after which the set, unchanged in the file and in force, reads the refused request's line |
| `CanonicalTrust.CollidingCreateReplacesTheLine` | core/service/backupsethostkey.go:591-629 | a concrete run for every colliding pair: two sets configured, one file, the first reading the second's line |
| `CanonicalTrust.TwoLegalSetsReadOneLine` | core/service/backupsethostkey.go:591-629 | with two ids the form accepts, a_/b and a/_b |
| `UpdateSet.AcceptedEditDiscardsNothing` | core/service/backupsetupdate.go:558-746 | an accepted edit holds every field it named, moves no other, and leaves a window only under the strategy that reads one |
| `UpdateSet.AcceptedExactly` | core/service/backupsetupdate.go:668-746 | an edit is accepted if and only if nothing it names is empty that must not be, keys and lines go to sftp remotes, the strategy it leaves is known with a positive window where it reads one, and no named window is thrown away; said of the request and the set before it |
| `UpdateSet.WindowRefusedExactlyWhenDropped` | core/service/backupsetupdate.go:715-741 | a named window is refused exactly when it would have been thrown away |
| `UpdateSet.EditIsIdempotent` | core/service/backupsetupdate.go:558-646 | applying an edit twice is applying it once |
| `UpdateSet.EmptyExactlyWhenNothingIsNamed` | core/service/backupsetupdate.go:293-295 | a request is empty if and only if it names no setting, whatever it acknowledges, and then changes none |
| `UpdateSet.EmptiedFieldsReported` | core/service/backupsetupdate.go:668-684 | each field that must not be emptied is reported if and only if the request empties it |
| `UpdateSet.TrustProblemsReported` | core/service/backupsetupdate.go:685-703 | so are a key or a line on a remote that takes none, an empty key id and an unusable line |
| `UpdateSet.ValueProblemsReported` | core/service/backupsetupdate.go:704-746 | and an unknown strategy, a window that is not positive or not kept, a freshness budget that is none, and a validator nobody lists |
| `UpdateSet.EditsMergeExactlyUnlessAWindowIsLost` | core/service/backupsetupdate.go:558-646 | two edits in turn are one merged edit, if and only if no window is lost between them |
| `UpdateSet.DisjointEditsCommuteExactly` | core/service/backupsetupdate.go:558-646 | edits of disjoint fields commute if and only if they do not split the strategy from its window, a dead window in the file included |
| `UpdatePath.UpdateBackupSet` | core/service/backupsetupdate.go:284-526 | the whole edit: which refusal is answered for every combination of things that can go wrong; it goes through exactly when every question is answered and the write succeeds, and fails in the write exactly when every question is answered and it does not; file, live configuration, waiting calls, holds and trust directory after every outcome, and the service stays in a state the hold protocol reaches |
| `UpdatePath.DecidedByTheFirstFailure` | core/service/backupsetupdate.go:315-366 | before anything is staged, if and only if: the repoint question when one of the three fields moves unacknowledged under a journal that has history or cannot be read, then the field rules, then the key |
| `UpdatePath.TrustRefusedExactly` | core/service/backupsetupdate.go:373-382 | then, for a request that names a line and no other, the trust questions |
| `UpdatePath.LandsByTheFirstFailure` | core/service/backupsetupdate.go:384-507 | then encoding, names and every other rule, the check if the connection moves unskipped, a source that can be written to if the set deletes there, validators, write: each refusal if and only if that is the first to fail, and the file changes if and only if all before the write went right and the rename was made |
| `UpdatePath.WriteTriedExactly` | core/service/backupsetupdate.go:284-507 | the write is tried if and only if all of them are answered |
| `UpdatePath.Decide` | core/service/backupsetupdate.go:302-366 | the repoint question, the field rules and the key, in that order, before anything is staged, and the named key applied |
| `UpdatePath.Prove` | core/service/backupsetupdate.go:384-497 | the mark, the encoding, Validate and only then the check, against exactly the set that is written |
| `UpdatePath.StageAndWrite` | core/service/backupsetupdate.go:373-519 | the line is in place before the write and, unless the configuration landed or the remove failed, taken back after it |
| `UpdatePath.BeyondTheEdit` | core/service/backupsetupdate.go:323-382 | beyond the sparse edit only key, trusted line and mark differ, the first two only when named |
| `UpdatePath.DoneUpdateDidWhatItSaid` | core/service/backupsetupdate.go:284-526 | an edit that went through holds what it named, the whole key and the line included; its data moved only acknowledged or over a history that could be read and is empty; a moved connection is proven, or marked exactly if the check was skipped |
| `UpdatePath.DoneUpdateReplacesNoKeyUnasked` | core/service/backupsetupdate.go:373-382 | and through the whole path no key is replaced unasked |
| `UpdatePath.UpdateWritesOneSet` | core/service/backupsetupdate.go:284-526 | the configuration an edit writes: accepted by the name rules, naming the ids it named, under this id everything the request named, the key replaced whole and with its passphrase kept exactly if it was the set's key already, and every other set as it was |
| `UpdatePath.UpdateTouchesOneSet` | core/service/backupsetupdate.go:421-421 | no other set moves |
| `Connection.SpellingIsNotConnection` | core/service/backupsetverified.go:308-331 | a set written and read back, or validated, dials what it dialled: absent and empty commands, and the two spellings of the key file, compare equal |
| `Connection.ConnectionIsExactly` | core/service/backupsetverified.go:181-331 | two sets connect alike if and only if they agree on kind, host, port, user, key, passphrase, connections, trust file, folder and excludes, absent and empty lists and the spellings of port, key file and root apart |
| `Connection.EditNeedsACheckExactly` | core/service/backupsetverified.go:301-306 | an sftp edit needs a check exactly when host, effective port, user or folder end up different |
| `Connection.KeyEditNeedsACheckExactly` | core/service/backupsetupdate.go:331-365 | sending the key the set already uses keeps its passphrase and asks nothing; any other key asks |
| `Connection.TheWholeKeyIsReplaced` | core/service/backupsetupdate.go:337-364 | file, no environment, no command, no old spelling; the passphrase stays if and only if the file was the key already; nothing but the key moves |
| `Connection.CandidateIsTheSetItBecomes` | core/service/backupsetverified.go:158-167 | the check in front of a create dials the connection the written set dials: its source carries the port as asked, its target the number the set ends with, and only the file the same line is read from differs |
| `Connection.MarkFollowsTheConnection` | core/service/backupsetupdate.go:384-419 | moved unchecked the mark is set, moved and checked it is not, not moved it stays |
| `Verified.MarkLiesExactlyAfterClearingAnother` | core/service/backupsetverified.go:348-390 | step by step and for every way a write can end, if and only if: the mark comes to lie only by a clear, which goes by id, over an entry in the file that does not dial what the test dialled |
| `Verified.UndisturbedClearLiesExactlyIfApart` | core/service/backupsetverified.go:348-390 | for a test no edit came between, it lies if and only if file and configuration in force were apart on that set when the test looked |
| `Verified.UnmarkedMeansProven` | core/service/backupsetverified.go:1-40 | over every run of creates, edits, removals, toggles, hand edits, tests, restarts and power losses, each write ending in any of its three ways, with no edit moving a set between a test's check and its clear and, unless every rename was synced, file and configuration in force agreeing on the set when the test looked: an unmarked set this service wrote has had exactly what it dials now pass a check |
| `Verified.UnmarkedInForceMeansProven` | core/service/backupsetverified.go:1-40 | and so has an unmarked one of the configuration in force |
| `Verified.SettledRunIsBacked` | core/service/backupsetverified.go:1-40 | the invariant of every such run: each unmarked set of ours, in the file and in whatever a power loss could leave, dials what the very check dialled on whose strength it is unmarked |
| `Verified.CouldBeAfter` | core/service/backupsets.go:1207-1236 | after any step the file, or what a power loss could leave of it, is what the step wrote or could have been there before |
| `Verified.CouldBeAfterAWrite` | core/service/backupsets.go:1207-1236 | after a synced write nothing older than what it wrote can come back; after an unsynced one everything still can |
| `Verified.StepKeepsTests` | core/service/backupsetenabled.go:315-372 | a test nothing disturbed dialled what its id dials in the file, exactly when it did as it looked |
| `Verified.ChangeIsLocal` | core/service/backupsetverified.go:348-423 | every write leaves each other id's entry alone, and moves its own connection only if it declares it anew |
| `Verified.LicenceLostExactlyByLettingAnotherDelete` | core/service/backupsetverified.go:120-144 | if and only if: with nothing skipped, a set is let to delete without a check behind it only by read-only off, which goes by id, over an entry that does not dial what was tested |
| `Verified.DeletingIsEarned` | core/service/backupsetverified.go:120-144 | over every such run in which no check is skipped: a set that deletes from its source dials a connection a check could write over |
| `Verified.EditBetweenCheckAndClearLies` | core/service/backupsetverified.go:366-390 | a concrete race: an unchecked edit between check and clear leaves an unmarked set nobody ever proved |
| `Verified.UnsyncedEditThenTestLies` | core/service/backupsets.go:1226-1234 | a concrete run with no edit in between: an unchecked edit renamed and not synced, a test of the connection still in force, and its clear over the new one |
| `Verified.UnsyncedEditThenReadOnlyOffIsUnearned` | core/service/backupsets.go:1226-1234 | and one with nothing skipped that lets a set delete from a source a check found it cannot write to |
| `Agreement.AWriteIsTheMachinesWrite` | core/service/backupsets.go:1207-1236 | what a call of the service leaves in the file and in force is what the write of the three machines leaves, for each way it can end |
| `Agreement.ClearIsTheMachines` | core/service/backupsetverified.go:348-423 | the clear the service runs is the clear of the machine for the mark: written exactly over a mark, and the same file |
| `Agreement.UpdateIsTheMachines` | core/service/backupsetupdate.go:384-419 | an edit the service lets through on its connection is one that machine lets through, and writes the same file |
| `Agreement.HistorySeesTheSameEdit` | core/service/backupsetrepoint.go:145-185 | an edit that has answered the repoint question is one the machine for the history lets through, to the same file |
| `Agreement.HistorySeesTheSameRecord` | core/service/backupsetremove.go:221-227 | a removal leaves the same record there |
| `Agreement.TrustSeesTheSameCreate` | core/service/backupsets.go:754-769 | a create writes the same bytes at the same name in the machine for the trust files, and the same configuration after it |
| `Duration.Seconds` | core/cliecho/cliecho.go:486-533 | the printer over 64-bit arithmetic writes the normal form for every value but the minimum, for which it writes a bare sign |
| `Duration.SecondsReadBack` | core/cliecho/cliecho.go:486-533 | for every value above the minimum the h/m/s grammar over unbounded integers reads it back |
| `Duration.SecondsFitExactly` | core/cliecho/cliecho.go:486-533 | with the library's overflow checks, exactly the values up to 9223372036 in either direction read back and every other is refused |
| `Duration.MinimumDoesNotReadBack` | core/cliecho/cliecho.go:508-517 | the minimum's printed form is refused |
| `Duration.NormalFormInjective` | core/cliecho/cliecho.go:486-533 | distinct values print differently |
| `Duration.TheFormIsNormal` | core/cliecho/cliecho.go:486-533 | hours, minutes and seconds add up to the value, minutes and seconds stay below sixty, what is zero is left out and no number is padded |
| `ShellLine.Shell` | core/cliecho/cliecho.go:181-199 | the loop renders every position quoted but those recorded as placeholders |
| `ShellLine.QuotedIsOneWord` | core/cliecho/cliecho.go:587-599 | a quoted argument, whatever is in it, is exactly one word to a POSIX shell (sections 2.2.1, 2.2.2 and 2.3 of POSIX.1-2017 XCU) |
| `ShellLine.ShellReadsBack` | core/cliecho/cliecho.go:181-199 | lexing the rendered line gives back exactly the argv when no position is a placeholder, and is refused as a redirection when one is |
| `ShellLine.ShellInjective` | core/cliecho/cliecho.go:181-199 | two lines that print alike are the same command |
| `ShellLine.QuotedOnlyIfNeeded` | core/cliecho/cliecho.go:587-599 | a word is left as it is if and only if it is not empty and every character is one that needs no quoting |
| `ShellLine.OneSpaceBetween` | core/cliecho/cliecho.go:198-198 | and there is one space between two words and nothing else |
| `CommandBuilder.Cmd.AddFlag` | core/cliecho/cliecho.go:411-415 | --name and the value appended, no position marked |
| `CommandBuilder.Cmd.AddFlagIfSet` | core/cliecho/cliecho.go:417-431 | nothing at all for an empty value |
| `CommandBuilder.Cmd.AddBare` | core/cliecho/cliecho.go:433-437 | --name appended |
| `CommandBuilder.Cmd.AddAssigned` | core/cliecho/cliecho.go:439-444 | --name=true or --name=false appended, as asked |
| `CommandBuilder.Cmd.AddPlaceholderFlag` | core/cliecho/cliecho.go:446-458 | --name and the stand-in in angle brackets appended, and exactly the second marked |
| `CommandBuilder.Cmd.AddRefusal` | core/cliecho/cliecho.go:460-463 | the build becomes a gap |
| `CommandBuilder.MarkedExactlyWherePlaceholdersWere` | core/cliecho/cliecho.go:407-458 | for every sequence of builder calls the marked positions are exactly those placeholderFlag wrote, and each still holds the stand-in it wrote |
| `CommandBuilder.EchoIsRunnableExactlyWhenUnmarked` | core/cliecho/cliecho.go:211-247 | an echoed line lexes back to its argv exactly when no placeholder call was made |
| `CommandBuilder.EchoIsTheCommandBuilt` | core/cliecho/cliecho.go:211-247 | a command is printed if and only if one was built and its last refusal, if any, gave no reason; it is the whole argv with its marks, and otherwise the one wording |
| `Endpoint.OnlyUserinfoIsRemoved` | core/cliecho/cliecho.go:552-565 | scheme prefix and everything from the first delimiter after it are kept exactly, and what is cut ends in the authority's last at sign |
| `Endpoint.PiecesAreUnique` | core/cliecho/cliecho.go:552-565 | the pieces are determined by the text |
| `Endpoint.StrippingIsIdempotent` | core/cliecho/cliecho.go:552-565 | stripping twice is stripping once |
| `Endpoint.UserinfoSurvivesExactlyWhenOverlooked` | core/cliecho/cliecho.go:552-565 | the result's authority (section 3.2 of RFC 3986) still holds userinfo if and only if it was one the textual cut does not look at |
| `Endpoint.SchemedEndpointIsClean` | core/cliecho/cliecho.go:552-565 | with a scheme in front the result's authority holds no at sign |
| `Endpoint.NetworkPathKeepsItsUserinfo` | core/cliecho/cliecho.go:552-565 | a concrete endpoint, two slashes and no scheme, that keeps its credentials |
| `FirstRun.Directory.WriteConfigExclusively` | core/service/firstrun.go:474-513 | one creator's write: when it is told created, already configured or failed, what is at the path after each, and the temporary name gone exactly unless removing it failed |
| `FirstRun.Directory.LinkIt` | core/service/firstrun.go:497-513 | the link route: refused over anything that is there, and otherwise whole at once, the error of a failed directory sync included |
| `FirstRun.Directory.CreateRemovingOnError` | core/service/firstrun.go:522-550 | the fallback: everything or nothing at the path, by taking back what it made; what is left when that fails |
| `FirstRun.Directory.CreateInitialConfig` | core/service/firstrun.go:287-428 | an existing configuration is never touched; when it is created and what is at the path, under the temporary name and in the set's trust file after every failure, the trust file being written before much that can still fail |
| `FirstRun.WhatAFirstWriteLeaves` | core/service/firstrun.go:474-550 | if and only if: something is at the path when the temporary file was ready and the link held, or the direct write went right to its end, or it did not and could not be taken back; all of it when it was linked or written through, otherwise a beginning |
| `FirstRun.AtMostOneWins` | core/service/firstrun.go:474-550 | with any number of processes racing by either route at most one succeeds, and the configuration is that one's, whole |
| `FirstRun.NobodyElseTouchesIt` | core/service/firstrun.go:522-550 | no step of another process changes or removes a creator's file, the deferred remove included |
| `FirstRun.ReadersSeeOneCreatorsBytes` | core/service/firstrun.go:474-550 | a reader finds nothing or a beginning of one creator's bytes, all of them exactly unless that creator is inside the fallback's write or could not take it back |
| `FirstRun.LinkRouteIsAllOrNothing` | core/service/firstrun.go:457-466 | by links alone: nothing or one creator's complete bytes at every moment |
| `FirstRun.WholeOrAbsentExactlyUnlessARemoveFailed` | core/service/firstrun.go:445-456 | once everybody has answered, if and only if: the path holds a whole configuration or nothing unless a fallback failed in its write and then in its remove |
| `FirstRun.WholeOrAbsentIfRemovesWork` | core/service/firstrun.go:445-456 | hence always while removes work |
| `FirstRun.FailedRemoveLeavesAPartialFile` | core/service/firstrun.go:530-538 | and a concrete run in which one does not: everybody has answered and a truncated configuration stays |
| `FirstRun.NobodyGetsPastWhatIsThere` | core/service/firstrun.go:287-428 | over anything at the path, a partial file included, every later attempt is refused and changes nothing |
| `FirstRun.NextOneCanCreateIt` | core/service/firstrun.go:530-538 | whenever nothing is at the path the next attempt can create it, by either route: a failure that left nothing is in nobody's way |
| `FirstRun.FallbackShowsAPartialFile` | core/service/firstrun.go:515-521 | the fallback does show a reader a partial file |
| `FirstRun.LinkedThenErrorStays` | core/service/firstrun.go:509-513 | the link route can answer with an error over a configuration that stays |
| `Activity.ListActivity` | core/service/activity.go:109-143 | no page and no cursor exactly when the journal could not be read; otherwise clamps, reads behind the cursor, projects every row in order, and hands out a cursor exactly for a full page |
| `Activity.Clamped` | core/service/activity.go:110-115 | 1 to 1000 is taken as it is, nothing or less means 200, more means 1000 |
| `Activity.EventsSayWhatTheRowsSay` | core/service/activity.go:122-135 | each event has its row's from, to, time and detail, each in its own field, and the ids of its set and artifact |
| `Activity.CursorNamesARowExactly` | core/service/activity.go:145-163 | a cursor names a row if and only if it is digits, with a plus or without, of a positive 64-bit number |
| `Activity.IssuedCursorReadsBack` | core/service/activity.go:145-163 | a cursor this feed issued names its row again |
| `Activity.OlderThanARow` | core/internal/state/query.go:563-590 | behind a row's id lie exactly the rows before it, however many were appended since |
| `Activity.PagingIsComplete` | core/service/activity.go:88-143 | following the cursor from empty to empty with any appends in between gives exactly the rows of the first call, newest to oldest, in one call more than there are full pages, for any limit asked for |
| `Activity.CallsCounted` | core/service/activity.go:88-108 | which is floor(n / limit) + 1 calls |
| `Activity.NewestToOldest` | core/service/activity.go:88-89 | which is strictly newest to oldest |

## Left out

- SSH, SFTP and the known_hosts matcher: `HostKeyTrust.Matcher` takes wildcards, hashed hosts and parsing as functions; `HostKeyTrust.Sane` is asked of them by `NoKeyIsReplacedUnasked` and its corollary in `UpdatePath` alone.
- YAML encoding and decoding, beyond the absent and empty slices `Connection.WrittenAndRead` tells apart; the file is its parsed value.
- Every rule of config.Validate but the names: one answer, `restValid`, given per call.
- Go's filepath.Dir and filepath.Clean: function parameters of `Repoint`; every result holds for any two functions.
- Splitting an id at its slash: `Config.SetId` is the pair; an id without a slash is answered like one that is not configured.
- Services without a configuration file or, in `HistoryCoherence`, without a journal: in-memory constructions, never a deployment.
- Restart and power loss in `HoldProtocol` and `BackupService`: holds, waiting calls and cycles are memory, so the next process is a new run, from whatever file came back, and every theorem is for every such run.
- What a trust file holds, in `Connection` and `Verified`: a connection names its file by path, and a check that passed says nothing of bytes written there later; when they change is the subject of `CanonicalTrust` and `Retrust`.
- Known_hosts files a set was pointed at by hand: `CanonicalTrust` speaks of sets that read the file their own create wrote.
- Mutexes as such: a call is one sequence of protocol steps from lock to unlock, anything else may happen between two of them.
- In-place mutation of the loaded configuration: the loops reassign sequences, so aliasing between a spliced slice and its source is not captured.
- cycleWatch, progress fan-out, BackupSetEditState and RenewBackupSetEdit: overwritten readings and one-line forwards.
- Log events, activity events and message text.
- SetBackupSetReadOnly as a method of the service: its write is the toggle's, and its check before the lock is a step of `Verified`.
- Retention, alerts, storage mediums and settings writes: the protocol has them as `Other`.
- A run started by a create, adoption of alerting, the poll schedule and the lifecycle across a swap.
- Changing the deployment's key encryption or a source's read-only default while a run is in progress: fixed per run in `Verified`.
- First-run creation over an old journal in `HistoryCoherence` is a step, its file protocol is `FirstRun`; crashes during first-run creation are not modelled.
- Retrust.StepKeepsPhase: a crash may leave an unreferenced staged file behind, since nothing sweeps them; only refusals are claimed to leave nothing. Trust files changed by hand while an edit runs, or staged files removed by hand, are not steps.
- Verified.DeletingIsEarned: speaks of runs without a skipped check, because a skipped check is allowed to write a set that deletes.
- The generated route table of the command echo and its straight-line flag emission.
- Sub-second durations and unit spellings other than h, m and s on the way in: the printer never writes them.
