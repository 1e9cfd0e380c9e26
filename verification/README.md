# What the server and the desktop store keep true

A model, in Dafny, of the parts of the mind-map server and its desktop app that hold state across
steps, with proofs of what that state keeps through retries, crashes, pruning and interleaving.

* **Vault blobs.** A vault's row names its current version, its history and a retention limit; the
  bytes of each version lie in an object store under `<key>/v/<version>`. A save writes the object,
  then the row, and deletes pruned objects later. `KeyLayout` is the key and id syntax, `VaultRow` the
  history and its lookups, `VaultService` the requests as steps of one machine, `VaultEffects` what each
  request leaves and a download then answers, `VaultServer` the
  handlers as methods that update the row and the store, `ObjectStore` the paginated walk and the
  deletion of a vault, `StoredSizes` the agreement of recorded and stored sizes.
* **Migration.** At startup, versions saved before per-version keys existed are copied onto them.
  `MigrationPlan` says which bytes each version ends up with, `BlobMigration` is the crash-stepped
  machine and its safety, `MigrationConvergence` its result, `Migrator` the loops. `MigratedVault`
  hands the migrated vault over to the requests of the running server; `MigrationOutcome` says what a
  run makes of each version; `MigrationGap` is a save that falls between two runs.
* **Password rotation on the server.** `KeyVersions` is the rotation transaction, the write check,
  the tokens and their invariant; `KeyVersionEffects` who is given a token and what each write changes;
  `KeyVersionServer` the handlers; `KeyVersionRace` the key-version
  cache when handlers interleave at their awaits.
* **Password rotation on the desktop.** `DesktopRotation`: two files, two staging files, renames,
  and a recovery that may itself be interrupted.
* **Sign-in throttle.** `TokenBucket`, `Lockout` and the two maps with their prune in `Throttle`.
* **Desktop vault index.** `EntryMac`, `VaultFile`, `DesktopIndex`, `DesktopEffects` (each command field by
  field), and the commands in `DesktopStore`.
* **Supporting.** `ClientIp` (the forwarded-address walk) and `Invite` (invite codes).

Code that updates state in place is a class whose methods are proved equal to a step function on
values; the properties over runs are lemmas about that function.

## What turned out not to hold

Each is stated with its exact condition, and mostly with an input that shows it.

* Deleting the version id `" id"` written in quotes, where `id` is the current version, deletes the
  current object and leaves the row naming it: normalising an id is not idempotent, because spaces
  are trimmed before quotes and the lookup normalises a second time (`KeyLayout.NormalizeTwiceIff`,
  `VaultService.DeleteLosesCurrentIff`, `QuotedSpaceDeletesCurrent`).
* A version delete whose row write fails leaves an entry without its bytes. Exactly those entries fail
  to download (`VaultService.ReadCorrectness`).
* Confirming an id a second time can put the key of the version just made current into the cleanup
  (`VaultService.ReconfirmPrunesItselfIff`).
* The migration's read-back check protects only the run that makes the copy; a later run adopts a
  wrong copy (`MigrationConvergence.MigratedCorrectIff`, `WrongCopyIsAdopted`).
* A migration stopped between the row write and the removal of the bare object leaves that object for
  good, since the row then counts as migrated. On a quiet migrated vault recorded and stored sizes agree
  exactly when nothing but an empty object is left there (`MigratedVault.BareLeaksForGood`,
  `SizesAcrossMigrationIff`).
* A save between a migration that failed and one that finishes: an older version survives exactly when it
  had been copied or the store lists its versions (`MigrationGap.SurvivesSaveIff`).
* Desktop recovery removes the staged profile before the staged index; two crashes in that window
  install an index without its profile. Every stop keeps the disk recoverable except one that removes
  the staged profile and leaves a staged index (`DesktopRotation.EpisodeKeepsIff`). The opposite order
  is safe under any number of crashes as long as the index can be removed and none is staged when a
  rotation starts (`IndexFirstIsSafe`, `IndexFirstStrandsIff`).
* A rotation begun on what an earlier one left is safe at every stop exactly when a profile is staged or
  no index is (`RotatingOverLeftoversIff`); the leftover of a failed index rename is not
  (`RotatingOverLeftoversBreaks`).
* A staged index installed after other commands takes every vault's entry back to what the rotation
  made of it and keeps their blobs (`DesktopIndex.LateInstallKeepsEntryIff`).
* Pruning the throttle is invisible exactly when the lockout lasts less than a day
  (`Throttle.InvisibleIffWithinADay`).
* The text an entry's authentication code covers stands for one set of fields exactly when none of
  them contains `|` (`EntryMac.InputDeterminesIffPlain`). Any write of the index stamps all of it, so a
  report speaks only of changes since the last write (`DesktopIndex.AnyWriteRestamps`).
* An exported vault file cut inside its blob is accepted with a shorter blob
  (`VaultFile.CutFileRefusedIff`).
* `backend/src/db/sql_store.rs:114-121` says a rotation entry without a note keeps the old note. The
  transaction in `backend/src/db/postgres/user.rs` refuses a bundle that would leave a note behind, and
  demands the new version to be exactly the next one; the model follows the transaction, so notes are
  covered by `KeyVersions.RotationIsComplete`.

## Model

| member | source | states |
|---|---|---|
| KeyLayout.NormalizedIffCleanEdges | backend/src/db/s3.rs:64-73 | an id is left alone by normalising exactly when neither end is whitespace or a quote |
| KeyLayout.NormalizeTwiceIff | backend/src/routes/mindmaps_sql.rs:1575-1577 | a second normalising changes nothing exactly when the first left no whitespace at the ends |
| KeyLayout.QuotedSpaceSurvivesNormalizing | backend/src/routes/mindmaps_sql.rs:1575-1577 | an id quoted together with a leading space keeps the space once and loses it the second time |
| KeyLayout.NormalizesTo | backend/src/routes/mindmaps_sql.rs:1575-1577 | any whitespace around an id is stripped, and then any quotes |
| KeyLayout.ValidIdsAre | backend/src/db/s3.rs:75-101 | the valid ids are those of 1 to 128 letters, digits, dots, dashes and underscores without two dots in a row; they hold no slash |
| KeyLayout.ValidIdIsFixedPoint | backend/src/db/s3.rs:75-101 | a validated id is a fixed point of normalising and of validating |
| KeyLayout.ValidationAccepts | backend/src/db/s3.rs:75-101 | validation accepts exactly the inputs whose normal form is a valid id, and returns that form |
| KeyLayout.FindsFirstSegment | backend/src/db/s3.rs:48-53 | the version segment found is the first one at or after the starting point, or there is none |
| KeyLayout.OwnedIffPrefix | backend/src/db/s3.rs:48-53 | for a slash-free base, the keys whose base it is are the bare key and those under its version segment |
| KeyLayout.BaseKeyOfVersionKey | backend/src/db/s3.rs:42-53 | `base_key` inverts `version_key` |
| KeyLayout.VersionKeyInjective | backend/src/db/s3.rs:42-44 | two version keys are equal only for the same vault and the same version |
| VaultRow.NormalFormIdsDistinct | backend/src/routes/mindmaps_sql.rs:1653-1675 | whatever the row holds, its normalised history has distinct, non-empty ids |
| VaultRow.FirstEntryIsKept | backend/src/routes/mindmaps_sql.rs:1653-1675 | the first entry of every id that is not empty is kept, under its normalised id and otherwise unchanged |
| VaultRow.KeptIsFirst | backend/src/routes/mindmaps_sql.rs:1653-1675 | and nothing else is |
| VaultRow.NormalizeVersionHistory | backend/src/routes/mindmaps_sql.rs:1653-1675 | the loop with its seen-set computes the normalised history |
| VaultRow.NormalFormOfValid | backend/src/routes/mindmaps_sql.rs:1653-1675 | a history of distinct valid ids is its own normal form |
| VaultRow.FindsTheEntry | backend/src/routes/mindmaps_sql.rs:1586-1617 | with distinct ids the lookup finds the entry carrying the id |
| VaultRow.KeysOfAreNamed | backend/src/routes/mindmaps_sql.rs:1624-1635 | the keys handed to cleanup are exactly those the dropped entries name |
| VaultRow.PruneHistory | backend/src/routes/mindmaps_sql.rs:1624-1635 | keeps the newest max(1, limit) entries and returns the dropped entries' keys, oldest first |
| VaultService.RecordShape | backend/src/routes/mindmaps_sql.rs:320-334 | a save leaves between one and max(1, limit) entries, the newest ones |
| VaultService.RecordKeepsInv | backend/src/routes/mindmaps_sql.rs:320-350 | recording a stored version keeps the invariant: distinct ids, current last, every entry's object in place and none of them awaiting cleanup |
| VaultService.DeleteKeepsInv | backend/src/routes/mindmaps_sql.rs:856-902 | a version delete keeps the invariant whichever of its two writes fails |
| VaultService.StepKeepsInv | backend/src/routes/mindmaps_sql.rs:301-402 | every request, cleanup and event outside keeps the invariant |
| VaultService.RunKeepsInv | backend/src/routes/mindmaps_sql.rs:301-449 | so does every run |
| VaultService.ResolvesToOwnKey | backend/src/routes/mindmaps_sql.rs:1586-1617 | in a reachable state each history entry resolves to its own key |
| VaultService.ResolvesOnlyHistory | backend/src/routes/mindmaps_sql.rs:1586-1617 | nothing else resolves; in particular no older id resolves to the bare key |
| VaultService.DownloadsEntry | backend/src/routes/mindmaps_sql.rs:484-500 | a history entry downloads the bytes it was saved with unless its delete was torn, and no id means the current version |
| VaultService.SavedBytesAreFinal | backend/src/routes/mindmaps_sql.rs:301-402 | the bytes a version was recorded with are never recorded otherwise later |
| VaultService.StepTears | backend/src/routes/mindmaps_sql.rs:879-899 | a step tears a version exactly when it is a delete whose object goes and whose row entry stays |
| VaultService.TornExactlyByTears | backend/src/routes/mindmaps_sql.rs:879-899 | over a run, the torn versions are exactly those some such delete hit |
| VaultService.ReadsFromHereOn | backend/src/routes/mindmaps_sql.rs:301-500 | from any consistent vault, after any run, every version in the history downloads exactly its saved bytes, or is missing exactly when it was torn before or a delete in the run tore it |
| VaultService.ReadCorrectness | backend/src/routes/mindmaps_sql.rs:301-500 | after any run from creation, every version in the history downloads exactly its saved bytes, or is missing exactly when a delete in the run tore it |
| VaultService.RowOverRuns | backend/src/routes/mindmaps_sql.rs:856-902 | from any consistent vault, after any run ids are distinct, a non-empty history ends with the current version, and an id that resolves leaves a current version in the row, so the missing-current error never follows an object's deletion |
| VaultService.SaveTrims | backend/src/routes/mindmaps_sql.rs:320-334 | a save keeps exactly the newest entries up to max(1, limit), ends with the new version, and trims only when over the limit |
| VaultService.ReconfirmPrunesItselfIff | backend/src/routes/mindmaps_sql.rs:320-334 | re-confirming a version queues its own object for deletion exactly when its old entry is beyond the retention limit |
| VaultService.ReconfirmThenCleanupLosesCurrent | backend/src/routes/mindmaps_sql.rs:1639-1651 | and the cleanup then removes the object of the current version |
| VaultService.DeleteLosesCurrentIff | backend/src/routes/mindmaps_sql.rs:863-899 | a delete request loses the current version's bytes exactly when the deletion goes through and the id normalises to something else once and to the current id twice |
| VaultService.QuotedSpaceDeletesCurrent | backend/src/routes/mindmaps_sql.rs:863-899 | deleting the current id quoted with a leading space passes the guard and loses the current version's bytes |
| VaultEffects.ConfirmMakesCurrent | backend/src/routes/mindmaps_sql.rs:301-352 | a first confirm of a stored version adds its entry last, with the row's envelope and the object's size, makes it current, and it downloads by id and as the current version |
| VaultEffects.ConfirmRollsBack | backend/src/routes/mindmaps_sql.rs:334-348 | a confirm whose row write fails leaves the row and takes the object away if the store obliges |
| VaultEffects.ConfirmRefuses | backend/src/routes/mindmaps_sql.rs:307-318 | an invalid id or one without an object is refused without a trace |
| VaultEffects.UploadMakesCurrent | backend/src/routes/mindmaps_sql.rs:354-402 | an upload stores its bytes, adds its entry last and makes it current, and it downloads by id and as the current version |
| VaultEffects.UploadFails | backend/src/routes/mindmaps_sql.rs:360-398 | an upload that fails leaves the row, and an object only if the rollback fails too |
| VaultEffects.SaveQueuesWhatItTrims | backend/src/routes/mindmaps_sql.rs:332-350 | a save hands to cleanup exactly the objects of the entries it trims |
| VaultEffects.DeleteTakesTheVersion | backend/src/routes/mindmaps_sql.rs:856-902 | deleting an older version takes its object and its entry and nothing else, and it is not found afterwards |
| VaultEffects.DeleteRefuses | backend/src/routes/mindmaps_sql.rs:863-885 | the current version, an empty id and an invalid one are refused without a trace |
| VaultEffects.DeleteFails | backend/src/routes/mindmaps_sql.rs:879-899 | a refused object deletion changes nothing, and a failed row write leaves the row |
| VaultEffects.DeleteDropsUnkeyed | backend/src/routes/mindmaps_sql.rs:877-899 | on a vault not migrated yet, a version without an object of its own loses its entry alone |
| VaultEffects.DownloadsCurrent | backend/src/routes/mindmaps_sql.rs:484-500 | without an id, or with a blank one, the current version is answered, or the bare key if nothing was saved |
| VaultEffects.DownloadRefuses | backend/src/routes/mindmaps_sql.rs:1586-1617 | an id that cannot be one is a bad request, and a version the history does not have is not found |
| VaultServer.Server.constructor | backend/src/routes/mindmaps_sql.rs:236-299 | a new vault starts the machine with an empty history and room for fifty versions |
| VaultServer.Server.RecordVersion | backend/src/routes/mindmaps_sql.rs:320-350 | writes the version into the row and queues trimmed objects, or rolls the object back |
| VaultServer.Server.UploadBlob | backend/src/routes/mindmaps_sql.rs:354-402 | is the machine's upload step; after success the object is stored, the entry is last and current, and each failure has the source's error and leaves the row |
| VaultServer.Server.ConfirmUpload | backend/src/routes/mindmaps_sql.rs:301-352 | is the machine's confirm step; it succeeds exactly for a valid id whose object is stored when the row write works, and then the entry is last and current |
| VaultServer.Server.DeleteVaultVersion | backend/src/routes/mindmaps_sql.rs:856-902 | is the machine's delete step; each answer has its exact condition, after success no entry carries the id, and the resolved object is gone whenever its deletion works |
| VaultServer.Server.UpdateMindMap | backend/src/routes/mindmaps_sql.rs:413-434 | writes title, envelope and time and nothing else, refusing missing fields; a failed write changes nothing |
| VaultServer.Server.UpdateVaultMeta | backend/src/routes/mindmaps_sql.rs:904-946 | changes the given fields and no others, refusing a limit of zero; only a new title touches the time, and a failed write changes nothing |
| VaultServer.Server.SpawnObjectCleanup | backend/src/routes/mindmaps_sql.rs:1639-1651 | adds exactly the pruned keys to the outstanding cleanups |
| VaultServer.Server.CleanupOne | backend/src/routes/mindmaps_sql.rs:1639-1651 | one background deletion; a refused one leaks the object |
| VaultServer.Server.DownloadBlob | backend/src/routes/mindmaps_sql.rs:484-500 | answers the resolved key's object, or not found |
| ObjectStore.WalkObjects | backend/src/db/s3.rs:248-284 | visits every object of every page in order, up to a page that is not truncated or has no token, stopping short exactly when there are more pages than allowed |
| ObjectStore.OneVisit | backend/src/db/s3.rs:265-269 | an object is visited under its key with its size, or with zero if that is missing or negative; one without a key is skipped |
| ObjectStore.VisitsInOrder | backend/src/db/s3.rs:265-269 | objects are visited in the order they are listed |
| ObjectStore.PageAfterPage | backend/src/db/s3.rs:254-281 | and pages in the order they are answered |
| ObjectStore.PrefixSizeTotals | backend/src/db/s3.rs:311-329 | totals the listed sizes of each wanted base key, with an entry exactly for the wanted keys that were seen |
| ObjectStore.Bucket.DeleteObject | backend/src/db/s3.rs:531-540 | removes that key and no other, or reports that the store refused |
| ObjectStore.Bucket.DeleteKeys | backend/src/db/s3.rs:554-560 | deletes one key after the other and ends with the first refusal, the keys before it gone |
| ObjectStore.Bucket.DeleteAllVersions | backend/src/db/s3.rs:546-561 | never touches another vault's objects; after a good listing and no refusal exactly the vault's objects are gone, after a failed listing only the bare key; a refused deletion is returned, with the keys before it gone |
| StoredSizes.TotalsAgree | backend/src/models/mindmap.rs:38-43 | a listing that shows the objects a history names totals what the history records, in whatever order it lists them |
| StoredSizes.SizesAccount | backend/src/db/s3.rs:311-329 | in any consistent vault, what the walk totals and the bytes of torn versions make up what the history records and the bytes no version names |
| StoredSizes.QuietObjectsIff | backend/src/routes/mindmaps_sql.rs:364-399 | with nothing outstanding, the objects under a vault's key are exactly those its history names if and only if no version is torn |
| StoredSizes.RecordedSizesAgreeIff | backend/src/models/mindmap.rs:38-43 | from any consistent vault, after any run that leaves nothing outstanding or torn, the recorded bytes equal the total of the bucket walk exactly when no non-empty object is at the bare key |
| StoredSizes.RecordedSizesAgree | backend/src/models/mindmap.rs:38-43 | on a vault that was never a legacy one they are always equal |
| StoredSizes.BareStays | backend/src/routes/mindmaps_sql.rs:301-449 | no run of requests puts anything at the bare key or takes it away |
| MigrationPlan.CopyIsSamePlan | backend/src/db/blob_migration.rs:209-214 | a copy made by an interrupted run does not change what any version will end up with |
| MigrationPlan.SamePlanSameFinal | backend/src/db/blob_migration.rs:94-182 | disks that offer the same bytes lead to the same migrated history |
| MigrationPlan.MovedComesFrom | backend/src/db/blob_migration.rs:113-152 | every migrated entry comes from a history entry, unchanged if it was keyed and else under its own version key with the size of its bytes |
| MigrationPlan.MovedKeepsId | backend/src/db/blob_migration.rs:113-152 | every keyed or rescued version stays in the migrated history |
| BlobMigration.StepKeepsProgress | backend/src/db/blob_migration.rs:94-251 | at every point of a run, its list, counters and copies are those of the plan so far |
| BlobMigration.FinalIsMigrated | backend/src/db/blob_migration.rs:79-87 | what a migration writes names an object for every version, the current one included |
| BlobMigration.ServesOnlySaved | backend/src/routes/mindmaps_sql.rs:1586-1617 | during a migration, whatever is served for an id is what that id was saved with |
| BlobMigration.CommitIsSafe | backend/src/db/blob_migration.rs:184-186 | writing the row takes away no version that was served |
| BlobMigration.SweepIsSafe | backend/src/db/blob_migration.rs:188-196 | nor does removing the bare object afterwards |
| BlobMigration.RunIsSafe | backend/src/db/blob_migration.rs:94-251 | nor does any run of starts, steps and crashes |
| BlobMigration.MigrationIsSafe | backend/src/db/blob_migration.rs:94-251 | for either kind of legacy store and crashes anywhere, every version served by its id before is still served with the same bytes |
| BlobMigration.CurrentStillServed | backend/src/db/blob_migration.rs:94-251 | and so is the current version, asked for without an id |
| BlobMigration.MigrationServesOnlySaved | backend/src/db/blob_migration.rs:223-237 | and no id is ever answered with another version's bytes |
| MigrationConvergence.RowIsOldOrPlanned | backend/src/db/blob_migration.rs:94-186 | however often it is interrupted, the row is the old one or the planned one |
| MigrationConvergence.UninterruptedWritesPlan | backend/src/db/blob_migration.rs:79-200 | one full run writes the planned row, drops the bare object and makes every later run a no-op |
| MigrationConvergence.MigrationConverges | backend/src/db/blob_migration.rs:209-214 | interrupted runs followed by a full one end in the row of a single uninterrupted run |
| MigrationConvergence.CountsAddUp | backend/src/db/blob_migration.rs:113-182 | recovered, lost and already keyed add up to the history's length, plus one for an absent current version |
| MigrationConvergence.MigratedServesRescued | backend/src/db/blob_migration.rs:202-251 | after a full run a rescued version is answered with what was at its own key, or copied there |
| MigrationConvergence.MigratedCorrectIff | backend/src/db/blob_migration.rs:212-214 | that is the version's true content exactly when nothing else was lying at its key |
| MigrationConvergence.WrongCopyIsAdopted | backend/src/db/blob_migration.rs:212-248 | a copy that read back wrong stops its run but is served after the next one |
| MigrationOutcome.ListedVersionIsRescued | backend/src/db/blob_migration.rs:223-250 | an older version the store lists is in the row afterwards with its own envelope and time, keyed, and downloads its own bytes |
| MigrationOutcome.CopiedVersionIsKept | backend/src/db/blob_migration.rs:209-214 | a version an earlier run copied is kept as it was copied |
| MigrationOutcome.CurrentComesFromBare | backend/src/db/blob_migration.rs:216-222 | the current version's bytes come from the bare object, and its entry keeps its envelope and time |
| MigrationOutcome.AbsentCurrentIsAdded | backend/src/db/blob_migration.rs:154-182 | a current version the history lacked is added last, with the row's envelope and time, from its copy or else the bare object |
| MigrationOutcome.KeyedEntryStays | backend/src/db/blob_migration.rs:113-117 | a keyed entry stays as it is |
| MigrationOutcome.UnlistedVersionIsDropped | backend/src/db/blob_migration.rs:120-140 | an older version that is neither copied nor listed has no entry afterwards |
| MigrationOutcome.NothingIsInvented | backend/src/db/blob_migration.rs:113-182 | every version in the migrated row was in the history or is the current one |
| MigrationOutcome.MissingCurrentStops | backend/src/db/blob_migration.rs:158-166 | without any of the current version's bytes the run stops and the row stays |
| MigratedVault.CommitKeepsRecorded | backend/src/db/blob_migration.rs:113-186 | the row a migration writes has distinct ids, the current version last, and for every entry its own key and the size of its saved bytes |
| MigratedVault.MigrationEstablishesInv | backend/src/db/blob_migration.rs:94-251 | a legacy vault whose migration, with crashes anywhere, has come to a migrated row satisfies the invariant of the running server's requests |
| MigratedVault.NothingGoesMissing | backend/src/db/blob_migration.rs:202-251 | if every keyed version had its object before, every version has it afterwards |
| MigratedVault.ReadsAcrossMigration | backend/src/routes/mindmaps_sql.rs:301-500 | after such a migration and any run of requests, every version in the history downloads exactly its saved bytes, or is missing exactly when its object was missing at the start or a delete tore it |
| MigratedVault.OldBytesAreFinal | backend/src/routes/mindmaps_sql.rs:301-500 | a version saved before the migration is held to the bytes of that save through every later run |
| MigratedVault.RowAcrossMigration | backend/src/routes/mindmaps_sql.rs:856-902 | the row's invariant holds after a migration and any run of requests |
| MigratedVault.SizesAcrossMigrationIff | backend/src/models/mindmap.rs:38-43 | on a quiet migrated vault recorded and walked sizes agree exactly when the migration left no non-empty object at the bare key |
| MigratedVault.BareLeaksForGood | backend/src/db/blob_migration.rs:184-196 | an object left at the bare key after the row write is there after every later run and every request |
| MigratedVault.MigratedIsLeftAlone | backend/src/db/blob_migration.rs:79-87 | no run touches a vault whose row is migrated |
| MigratedVault.UninterruptedHandsOver | backend/src/db/blob_migration.rs:94-200 | one run left to itself hands over such a vault with nothing at the bare key |
| MigrationGap.SurvivesSaveIff | backend/src/db/blob_migration.rs:113-140 | when a save falls between a migration that failed and one that finishes, an unkeyed older version is downloaded afterwards exactly when it had been copied or the store lists it |
| MigrationGap.SaveLeavesKept | backend/src/db/blob_migration.rs:209-237 | a save changes neither of these two for another version, so earlier saves and runs make no difference |
| MigrationGap.SaveInTheGapLosesTheOldVersion | backend/src/main.rs:282-302 | on a store without a version listing, one upload after a failed migration loses the uncopied version at the bare key, entry and bytes |
| Migrator.Vault.RescueVersion | backend/src/db/blob_migration.rs:202-251 | keeps a copy found, and else copies the bare object for the current version or the listed object version for an older one; fails exactly when the copy reads back wrong, and returns the size of the bytes |
| Migrator.Vault.ScanHistory | backend/src/db/blob_migration.rs:113-152 | the loop over the history is that many steps of the machine |
| Migrator.Vault.AddCurrent | backend/src/db/blob_migration.rs:154-182 | the absent current version is appended, or the run fails, as in the machine |
| Migrator.Vault.CommitAndSweep | backend/src/db/blob_migration.rs:184-196 | writes the row, then drops the bare object |
| Migrator.Vault.MoveVersions | backend/src/db/blob_migration.rs:104-199 | is the run after the current id is validated: a failure leaves the row, success accounts for every entry of the old row and of the new one |
| Migrator.Vault.MigrateOne | backend/src/db/blob_migration.rs:94-200 | is a whole run of the machine, and against an honest store the uninterrupted one, so each version comes out as that run makes it; a failure leaves the row alone, success makes it migrated with counts that add up |
| Migrator.MigrateOneIsUninterrupted | backend/src/db/blob_migration.rs:94-200 | against an honest store one call is the uninterrupted run |
| KeyVersions.VaultsAfter | backend/src/db/postgres/user.rs:163-369 | the update loop puts every submitted title under the new version and applies the last submitted note |
| KeyVersions.AttachmentsAfter | backend/src/db/postgres/user.rs:163-369 | the update loop puts every submitted wrap under the new version and no other |
| KeyVersions.RotationIsComplete | backend/src/db/postgres/user.rs:163-369 | a committed rotation leaves no title, note or live wrap under the old key and raises the version by one |
| KeyVersions.WritesExactlyWhenCurrent | backend/src/middleware/auth.rs:185-220 | a session may write exactly when it signed in under the current key version |
| KeyVersions.StepKeepsInv | backend/src/routes/auth_sql.rs:377-492 | every login, refresh, write, rotation, lock and restart keeps everything stored under the current key version, and no key version falls |
| KeyVersions.RunKeepsInv | backend/src/routes/auth_sql.rs:377-1018 | so does every run |
| KeyVersions.StoredUnderCurrentKey | backend/src/routes/auth_sql.rs:906-1018 | after any run every stored title, note and attachment wrap is under its owner's current key version |
| KeyVersions.OldSessionsStayOut | backend/src/middleware/auth.rs:155-220 | after a rotation no token minted before it is ever again accepted for a write or a refresh |
| KeyVersions.UnclaimedTokenWritesStale | backend/src/middleware/auth.rs:168-172 | a token without the claim can store a title under a stale key |
| KeyVersionEffects.RotationTakesIff | backend/src/db/postgres/user.rs:196-305 | a rotation is taken exactly if it has the next version, every vault, a new note in the last entry of each vault that has one, every live attachment with a wrap, and nothing else |
| KeyVersionEffects.TitleAfter | backend/src/db/postgres/user.rs:332-355 | a vault gets the title of its last entry |
| KeyVersionEffects.NoteAfter | backend/src/db/postgres/user.rs:332-355 | and the note of the last entry that carries one, even if later entries carry none |
| KeyVersionEffects.NoteKept | backend/src/db/postgres/user.rs:332-355 | and keeps its note if none does |
| KeyVersionEffects.UnlistedVaultStays | backend/src/db/postgres/user.rs:332-355 | a vault without entries stays as it is |
| KeyVersionEffects.WrapAfter | backend/src/db/postgres/user.rs:357-368 | an attachment gets the wrap of its last entry |
| KeyVersionEffects.AttachmentAfter | backend/src/db/postgres/user.rs:357-368 | nothing but the wrap of an attachment changes, and nothing of one without entries |
| KeyVersionEffects.AccountAfter | backend/src/db/postgres/user.rs:307-330 | the account gets the new version and credential and keeps its lock |
| KeyVersionEffects.StepHandsOut | backend/src/routes/auth_sql.rs:377-492 | a step mints exactly the tokens of a right password on an unlocked account, of a live refresh token, or of a taken rotation |
| KeyVersionEffects.TokensAreHandedOut | backend/src/routes/auth_sql.rs:377-1018 | over whole runs a token comes into being exactly by one of these, for its own account |
| KeyVersionEffects.VaultWrites | backend/src/routes/mindmaps_sql.rs:413-449 | a vault write changes the fields it gives of that vault of its user, and nothing else |
| KeyVersionEffects.AttachmentWrites | backend/src/routes/mindmaps_sql.rs:537-802 | an attachment write changes that attachment of its user as it says, and nothing else |
| KeyVersionServer.AuthServer.Login | backend/src/routes/auth_sql.rs:377-464 | succeeds exactly for the right password on an unlocked account, with a pair of tokens under the current key version, which it publishes |
| KeyVersionServer.AuthServer.Refresh | backend/src/routes/auth_sql.rs:466-492 | renews exactly the unlocked users' refresh tokens that carry the current key version |
| KeyVersionServer.AuthServer.VerifyWriter | backend/src/middleware/auth.rs:185-220 | accepts an access token without a claim, or whose claim equals the cached version, or with a cold cache the stored one, which it then caches |
| KeyVersionServer.AuthServer.PerformWrite | backend/src/routes/mindmaps_sql.rs:413-449 | a write happens exactly when its session passes the check |
| KeyVersionServer.AuthServer.RotateUserCredentials | backend/src/db/postgres/user.rs:163-369 | all or nothing: applies the whole bundle when it covers everything, and else changes nothing |
| KeyVersionServer.AuthServer.RotateCredentials | backend/src/routes/auth_sql.rs:906-1018 | succeeds exactly for an access token's own account with the current password and a complete bundle; commits, publishes the new version and mints the session's tokens, touching no other account |
| KeyVersionRace.CacheNeverAhead | backend/src/middleware/auth.rs:197-211 | in every interleaving the cached key version never exceeds the committed one |
| KeyVersionRace.CacheAgreesIff | backend/src/routes/auth_sql.rs:402-489 | once published, the newest version stays in the cache in every continuation exactly when no handler still holds an older one |
| KeyVersionRace.NewestPublishedWins | backend/src/routes/auth_sql.rs:402-489 | whatever is in flight, the cache agrees at the end if no older version is published after it |
| KeyVersionRace.CommitLeavesLag | backend/src/routes/auth_sql.rs:967-986 | between a rotation's commit and its publication the cache lags, and publishing closes the gap |
| KeyVersionRace.StaleTokenPassesIff | backend/src/middleware/auth.rs:197-216 | a token from before a rotation passes the write check in some interleaving, further rotations included, exactly when its version is still cached or in flight |
| KeyVersionRace.OldTokensStayOut | backend/src/middleware/auth.rs:197-216 | once the newest rotation has published and no older version is in flight, no older token ever passes |
| DesktopRotation.RecoverySettlesIff | desktop/src-tauri/src/local_store.rs:1080-1113 | one full recovery settles the disk exactly when it is recoverable, and never changes the profile |
| DesktopRotation.RotationIsAllOrNothing | desktop/src-tauri/src/local_store.rs:1146-1176 | a rotation stopped anywhere and recovered once leaves both files old or both new, new exactly when the profile was renamed |
| DesktopRotation.RotatingOverLeftoversIff | desktop/src-tauri/src/local_store.rs:1146-1176 | a rotation over what earlier ones left, stopped anywhere and recovered, settles the disk exactly when a profile is staged or no index is |
| DesktopRotation.MayRotateIffAgreed | desktop/src-tauri/src/local_store.rs:1100-1112 | that question about staging files decides whether the two files in place agree |
| DesktopRotation.RotatingOverLeftoversBreaks | desktop/src-tauri/src/local_store.rs:1172-1176 | the files a failed index rename left fail that condition, and a retry stopped at its first write loses the roll-forward |
| DesktopRotation.RecoverKeepsIff | desktop/src-tauri/src/local_store.rs:1100-1112 | a recovery stopped anywhere, its removals and rename failing or not, keeps the disk recoverable exactly when it does not remove the staged profile and leave the staged index |
| DesktopRotation.RotateKeepsIff | desktop/src-tauri/src/local_store.rs:1153-1174 | so does a rotation over any leftovers that allow one, whichever of its operations fails |
| DesktopRotation.EpisodeKeepsIff | desktop/src-tauri/src/local_store.rs:1100-1174 | so does every start of the program |
| DesktopRotation.SafeUnlessStranded | desktop/src-tauri/src/local_store.rs:1100-1174 | in either removal order, every run that never strands the index so leaves a disk that one recovery settles |
| DesktopRotation.IndexFirstStrandsIff | desktop/src-tauri/src/local_store.rs:1100-1112 | with the index removed first, exactly the stuck index and the failed profile write over a staged index still strand it |
| DesktopRotation.IndexFirstIsSafe | desktop/src-tauri/src/local_store.rs:1100-1112 | without these, any number of crashes leaves a disk that one recovery settles |
| DesktopRotation.ProfileFirstBreaks | desktop/src-tauri/src/local_store.rs:1100-1112 | three stops that end with a new index beside the old profile |
| DesktopRotation.ProfileFirstInstallsPartialIndex | desktop/src-tauri/src/local_store.rs:1159-1164 | the same window after a failed staging write installs a partly written index |
| DesktopRotation.Files.RecoverInterruptedRotation | desktop/src-tauri/src/local_store.rs:1080-1113 | is the recovery plan for the staging files that exist, passing over those that are stuck |
| DesktopRotation.Files.ApplyRotation | desktop/src-tauri/src/local_store.rs:1146-1176 | is the rotation plan for the operation that fails, if any, with failures of its clean-up passed over |
| TokenBucket.AdmissionBound | backend/src/middleware/throttle.rs:107-140 | any stretch of `span` seconds admits at most limit + limit * span / 60 calls |
| TokenBucket.SpentWithinEarned | backend/src/middleware/throttle.rs:121-139 | tokens spent never exceed tokens found plus tokens earned |
| TokenBucket.FullBucketSpentAtOnce | backend/src/middleware/throttle.rs:121-139 | a full bucket's tokens can all be spent at one instant |
| TokenBucket.NewAddressAllowance | backend/src/middleware/throttle.rs:121-139 | an address never seen is admitted `limit` times at once and not once more |
| TokenBucket.NoLimitAdmits | backend/src/middleware/throttle.rs:113-115 | a limit of zero or less admits every call and keeps no account of it |
| TokenBucket.SpacedCallsAdmitted | backend/src/middleware/throttle.rs:107-140 | from a bucket holding a token, as a new one does, calls at least 60 / limit seconds apart are never refused |
| TokenBucket.RefusedUntilReady | backend/src/middleware/throttle.rs:132-135 | a call is admitted exactly from the told time on, and a refused call does not move that time |
| TokenBucket.RetriesDoNotPostpone | backend/src/middleware/throttle.rs:107-140 | any number of retries before the told time are refused and the call at that time is admitted |
| TokenBucket.ForgottenIsFull | backend/src/middleware/throttle.rs:209-213 | a bucket idle for a full window answers like a new one under any limit |
| Lockout.CompletesIffStreak | backend/src/middleware/throttle.rs:184-196 | a failure completes a run exactly when the count of failures since the last success, long gap or lockout has reached the threshold |
| Lockout.LockoutRefinesHistory | backend/src/middleware/throttle.rs:143-202 | an attempt is refused exactly when it falls within the lockout of a failure that completed a run of `threshold` failures |
| Lockout.WaitEndsWithLockout | backend/src/middleware/throttle.rs:150-157 | the wait a refused attempt is told ends with that lockout |
| Lockout.LockoutIsNotExtended | backend/src/routes/auth_sql.rs:390-400 | attempts made during a lockout, right or wrong, leave the record alone |
| Lockout.DurationInSeconds | backend/src/middleware/throttle.rs:172 | a lockout lasts the configured minutes, and at least one |
| Throttle.PruningIsInvisible | backend/src/middleware/throttle.rs:204-218 | with lockouts shorter than a day, prunes at any points of any run change no answer, even as limits and thresholds vary |
| Throttle.ADayApartIsForgotten | backend/src/middleware/throttle.rs:214-217 | with longer lockouts, two failures a day apart with a prune between are answered differently |
| Throttle.PruneDropsExactly | backend/src/middleware/throttle.rs:206-218 | a prune drops exactly the buckets untouched for a minute and the records that neither lock nor were touched in a day |
| Throttle.UnlimitedCall | backend/src/middleware/throttle.rs:113-115 | a call with no limit is admitted and leaves no trace |
| Throttle.InvisibleIffWithinADay | backend/src/middleware/throttle.rs:204-218 | for a fixed lockout, pruning is invisible over all runs exactly when it is shorter than a day |
| Throttle.RecordIsPlayed | backend/src/middleware/throttle.rs:143-202 | a credential's record depends on that credential's own attempts only |
| Throttle.AnswerIsPlayed | backend/src/routes/auth_sql.rs:377-445 | over whole runs with prunes and other users, a sign-in is answered as its credential's own attempts would be alone |
| Throttle.LockoutOverRuns | backend/src/routes/auth_sql.rs:377-445 | so it is refused exactly within the lockout of a completed run of that credential's own failures |
| Throttle.WaitOverRuns | backend/src/routes/auth_sql.rs:390-400 | and the wait it is told ends with that lockout |
| Throttle.AdmittedIsBucketAdmitted | backend/src/middleware/throttle.rs:107-140 | an address and class are admitted on their own bucket only |
| Throttle.AdmissionOverRuns | backend/src/middleware/throttle.rs:107-140 | over whole runs with prunes and other callers, the bound limit + limit * span / 60 holds per address and class, after any earlier limits |
| Throttle.SpacingOverRuns | backend/src/middleware/throttle.rs:107-140 | over whole runs with prunes and other callers, an address that could call once and spaces its calls 60 / limit seconds apart is never refused |
| Throttle.RetriesOverRuns | backend/src/middleware/throttle.rs:107-140 | over whole runs with prunes and other callers, retries before the told wait are refused, and the next call succeeds exactly from the told time on |
| Throttle.AuthThrottle.CheckAddress | backend/src/middleware/throttle.rs:107-140 | answers and updates one bucket as the machine does, and nothing at all when the limit is off |
| Throttle.AuthThrottle.LockoutRemaining | backend/src/middleware/throttle.rs:143-158 | answers the remaining wait, clearing an expired lock |
| Throttle.AuthThrottle.RecordFailure | backend/src/middleware/throttle.rs:161-197 | counts one failure, locking at the threshold |
| Throttle.AuthThrottle.RecordSuccess | backend/src/middleware/throttle.rs:200-202 | forgets that credential's record only |
| Throttle.AuthThrottle.Prune | backend/src/middleware/throttle.rs:206-218 | drops exactly the idle buckets and the stale records |
| Throttle.AuthThrottle.SignInWith | backend/src/routes/auth_sql.rs:390-445 | lookup first, then one record, as the machine's sign-in |
| EntryMac.InputDeterminesIffPlain | desktop/src-tauri/src/local_store.rs:102-115 | the covered text stands for one set of the five fields exactly when none of them contains a bar |
| EntryMac.CollisionCollides | desktop/src-tauri/src/local_store.rs:102-115 | for any entry with a bar, other fields with the same text |
| EntryMac.EditReportedIff | desktop/src-tauri/src/local_store.rs:923-944 | of the edits that keep the stored code, exactly those that change a covered field are reported |
| VaultFile.LengthReadsBack | desktop/src-tauri/src/local_store.rs:847-871 | the four length bytes read back as the length modulo 2^32 |
| VaultFile.RoundTripIff | desktop/src-tauri/src/local_store.rs:838-876 | an exported file reads back as it was exactly when the metadata is shorter than 2^32 bytes |
| VaultFile.OverlongMetadataRefused | desktop/src-tauri/src/local_store.rs:847-875 | longer metadata makes a file that is always refused |
| VaultFile.CutFileRefusedIff | desktop/src-tauri/src/local_store.rs:862-876 | of the prefixes of an export, exactly those that cut the header or the metadata are refused, each with its own error |
| DesktopIndex.EveryVaultVerifies | desktop/src-tauri/src/local_store.rs:476-491 | after any run of commands, rotations and recoveries included, every vault in the index verifies, and no other id is found |
| DesktopIndex.AnyWriteRestamps | desktop/src-tauri/src/local_store.rs:476-491 | whatever the index held, one write leaves every entry verifying |
| DesktopIndex.StepRefinesOne | desktop/src-tauri/src/local_store.rs:554-622 | a command on the list, with its search by position and its stamping of everything, changes one vault of a plain map from ids to vaults |
| DesktopIndex.VaultsAreIndependent | desktop/src-tauri/src/local_store.rs:554-902 | after any run each vault's entry and blob are what its own commands alone would make them |
| DesktopIndex.RotationKeepsTheRest | desktop/src-tauri/src/local_store.rs:1136-1144 | a rotation changes titles and notes only, and nothing of a vault it does not list |
| DesktopIndex.LastUpdateWins | desktop/src-tauri/src/local_store.rs:1136-1144 | a listed vault gets its last update's title, and its note if given, an empty one clearing it |
| DesktopIndex.LateInstallKeepsBlobsOnly | desktop/src-tauri/src/local_store.rs:1100-1112 | after commands between the staging of an index and its late installation, every entry is what the rotation made of the one it found, and every blob is what the commands left |
| DesktopIndex.LateInstallKeepsEntryIff | desktop/src-tauri/src/local_store.rs:1172-1176 | a vault's entry survives exactly when the commands left what the rotation made of it; a vault made in between is gone, one deleted in between is back without its blob |
| DesktopIndex.ExportThenImport | desktop/src-tauri/src/local_store.rs:824-902 | importing an export into any store gives the same vault under a new id, with only id, timestamps, colour and code renewed, verifying, and no other vault touched |
| DesktopEffects.StampIsWritten | desktop/src-tauri/src/local_store.rs:102-115 | writing an entry clears its colour, sets the code of the bar-joined covered fields, and changes nothing else |
| DesktopEffects.CreatedEntry | desktop/src-tauri/src/local_store.rs:554-586 | a new vault has the given envelope and the program's defaults |
| DesktopEffects.SavedBlobEntry | desktop/src-tauri/src/local_store.rs:605-622 | saving a blob stores it and touches the timestamp of the vault if it is in the index |
| DesktopEffects.UpdatedEntry | desktop/src-tauri/src/local_store.rs:764-818 | an update changes exactly the fields it gives, and the timestamp with a title or a wrapped key |
| DesktopEffects.UpdateUnknown | desktop/src-tauri/src/local_store.rs:776-782 | an update of a vault that is not there fails and changes nothing |
| DesktopEffects.DeletedEntry | desktop/src-tauri/src/local_store.rs:743-757 | a deleted vault is gone from the index and the blobs |
| DesktopEffects.IntegrityAnswers | desktop/src-tauri/src/local_store.rs:923-944 | the four answers of the integrity check, each with its condition |
| DesktopEffects.NoteKept | desktop/src-tauri/src/local_store.rs:1136-1144 | if no update of a rotation's list that names a vault carries a note, its note stays |
| DesktopEffects.NoteReplaced | desktop/src-tauri/src/local_store.rs:1136-1144 | otherwise its note is that of the last such update that carries one, an empty one clearing it |
| DesktopEffects.StagedKeepsTheRest | desktop/src-tauri/src/local_store.rs:1136-1158 | apart from title and note a staged entry is the old one, written |
| DesktopEffects.StagedTitle | desktop/src-tauri/src/local_store.rs:1136-1158 | a listed vault is staged with the title of its last update |
| DesktopEffects.StagedKeepsNote | desktop/src-tauri/src/local_store.rs:1136-1158 | a vault without an update that carries a note is staged with the note it had |
| DesktopEffects.StagedNote | desktop/src-tauri/src/local_store.rs:1136-1158 | and otherwise with that of the last update that carries one |
| DesktopEffects.StagedThenInstalled | desktop/src-tauri/src/local_store.rs:1172-1174 | staging leaves index and blobs alone, and installing puts exactly the staged entries in place |
| DesktopEffects.RefusedImport | desktop/src-tauri/src/local_store.rs:862-875 | a refused file leaves the store as it was |
| DesktopStore.Store.SaveVault | desktop/src-tauri/src/local_store.rs:554-586 | is the create command |
| DesktopStore.Store.SaveVaultBlob | desktop/src-tauri/src/local_store.rs:605-622 | is the blob command: the file first, then the timestamp of the vault if it is in the index |
| DesktopStore.Store.UpdateVaultMeta | desktop/src-tauri/src/local_store.rs:764-818 | is the update command; an unknown id fails and writes nothing |
| DesktopStore.Store.DeleteVault | desktop/src-tauri/src/local_store.rs:743-757 | is the delete command: every entry with the id, and its blob |
| DesktopStore.Store.ExportVaultFile | desktop/src-tauri/src/local_store.rs:824-856 | writes the vault's file, with an empty blob where none was saved |
| DesktopStore.Store.ImportVaultFile | desktop/src-tauri/src/local_store.rs:860-902 | is the import command, with a refused file changing nothing |
| DesktopStore.Store.VerifyVaultIntegrity | desktop/src-tauri/src/local_store.rs:923-944 | reports whether the first entry with the id carries the code of its fields |
| DesktopStore.Store.StageRotation | desktop/src-tauri/src/local_store.rs:1136-1158 | is the staging step: titles and notes of the listed vaults rewritten in order, stamped |
| DesktopStore.Store.InstallStaged | desktop/src-tauri/src/local_store.rs:1172-1174 | the staged index takes the place of the old one |
| DesktopStore.Store.RecoverStaged | desktop/src-tauri/src/local_store.rs:1100-1112 | a staged index goes if a profile is staged beside it and is installed if not |
| ClientIp.InNetIffBetween | backend/src/middleware/client_ip.rs:89-91 | a range holds exactly the addresses from its first to its last, of its own family |
| ClientIp.ResolvedIsFirstUndeclared | backend/src/middleware/client_ip.rs:113-148 | the answer is the first hop outside the declared ranges walking outwards, or the last declared hop before an unreadable entry or the end |
| ClientIp.FirstUndeclaredIsUnique | backend/src/middleware/client_ip.rs:113-148 | one address only fits that description |
| ClientIp.ForgeryIgnoredIff | backend/src/middleware/client_ip.rs:121-148 | entries put further out never change the answer exactly when the walk stops before the chain is used up |
| ClientIp.ForgedTextIgnored | backend/src/middleware/client_ip.rs:121-163 | so header lines and text a client puts before what the proxies wrote change nothing |
| ClientIp.EntryIsRead | backend/src/middleware/client_ip.rs:153-163 | an entry is read as the text between its commas without the whitespace around it |
| ClientIp.BlankLineIsSkipped | backend/src/middleware/client_ip.rs:153-163 | a blank line and one that is not text have no entry |
| ClientIp.CommaSeparates | backend/src/middleware/client_ip.rs:153-163 | the entries of two texts joined by a comma are those of the one and then of the other |
| ClientIp.LastEntryIsTheClient | backend/src/middleware/client_ip.rs:121-163 | behind a declared peer, an undeclared address at the end of the last line is the answer, whatever stands before it and however it is spaced |
| ClientIp.Resolve | backend/src/middleware/client_ip.rs:121-148 | the loop from the innermost entry computes that answer |
| ClientIp.Contains | backend/src/middleware/client_ip.rs:89-91 | whether some declared range holds the address |
| Invite.NormalizeTwice | backend/src/models/invite.rs:80-101 | normalising is idempotent for every string |
| Invite.ReadAsIff | backend/src/models/invite.rs:80-101 | what is read as a given code: its letters after the mark, or without it unless they begin with the mark's own letters |
| Invite.RetypedCodeIsRead | backend/src/models/invite.rs:22-101 | a generated code is read back exactly from its letters with or without the mark, in any casing and with any separators |
| Invite.ReadIffRetyped | backend/src/models/invite.rs:80-101 | a generated code is read from every retyping of its letters in upper or lower case with separators anywhere, with the mark or without, and from nothing else |
| Invite.CodeShape | backend/src/models/invite.rs:64-76 | a code is the mark and four groups of four with dashes between |
| Invite.GenerateInviteCode | backend/src/models/invite.rs:64-76 | produces the dashed form of the letters drawn |

## Left out

- HTTP routing, extractors, CORS, configuration, tracing, presigning, the AWS and SQL clients: plumbing without state of its own.
- Argon2, JWT signing, HMAC, the KEM and AES-GCM: an arbitrary function, an abstract token or a flag, as each place needs. Collision freedom of the keyed hash is a hypothesis of `EntryMac.EditReportedIff` only.
- JSON: a codec whose encodings decode, and of which no proper prefix decodes.
- Two requests that read, change and write back one vault row at the same time: requests are atomic, as nothing in the source guards that case. Recovery running beside a live rotation likewise.
- Token expiry: a token, once minted, is good for ever, which only adds runs.
- File-system durability order: completed operations persist in order.
- Attachments, share links and their objects; OIDC and registration, which publish key versions as a login does; unlock methods; subscription tiers and storage limits; profile and storage-directory commands of the desktop.
- `list_versions` sorting and `migrate_if_needed`: presentation and one-time moves.
- The advisory lock and the loop over all vaults in the migration's `run`: each vault is migrated on its own.
- Lower-casing and trimming of user names in the throttle: a credential is its normalised name.
- Rounding in the bucket, and the whole-second `Retry-After` header, which truncates the exact wait: tokens and times are exact reals.
- Fixed integer widths of sizes, counters, version numbers and retention limits: unbounded, except the four-byte length of an exported file.
- Parsing of addresses and of the declared ranges: a function from text and a list of ranges.
- The random source: a parameter.
- KeyVersionRace.StaleTokenPassesIff: follows one user up to the outcome of the check; a write that passed its check and lands after a rotation's commit is not followed.
- DesktopStore.Store.DeleteVault: does not model the vault's attachment files, which the command removes with it.
- MigrationGap.SurvivesSaveIff: one save before the run that finishes; the earlier runs and saves are whatever led to the disk it starts from.
- BlobMigration.MigrationIsSafe: assumes keyed entries lie at their own version keys and that objects already there hold their versions, as every save and migration leaves them; `MigrationConvergence.MigratedCorrectIff` says what happens otherwise.
- VaultService.ReadCorrectness: assumes minted ids are fresh, no id is confirmed twice and nothing is put to a presigned URL after its confirm; `VaultService.ReconfirmPrunesItselfIff` shows the second is needed.
- MigratedVault.ReadsAcrossMigration: assumes the same, and of the legacy row that its ids are distinct and valid, keyed entries record the size of their bytes, and the current version comes last if it is in the history.
- Throttle.LockoutOverRuns: fixed threshold and duration; `Throttle.PruningIsInvisible` lets them vary.
