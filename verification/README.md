# Varkiv: verified model

A Dafny 4.11 model of the parts of Varkiv whose correctness is decided by intricate
code: the package builder and its rollback, the save agent, the hub's sync tables,
the catalog with its merge, and the batched read model. `dafny verify dfyconfig.toml`
checks everything.

| files | what they model |
| --- | --- |
| `Storage`, `Sorting`, `Text`, `Wrappers` | paths, trees and ideal digests; `sort.Slice` and ORDER BY; trimming and case; Option and Result |
| `Planner`, `PlanProperties` | the package planner and its ownership ledger |
| `DevicePaths`, `Preflight` | which target paths a device accepts; the checks between planning and building |
| `EntryProperties` | what catalog entries must be for a plan without conflict |
| `Builder`, `BuilderProperties`, `BuildRun`, `Recovery`, `Rollback` | the writes of a build, the snapshot, and the undo |
| `Ownership`, `Fixpoint`, `SecondBuild` | the published ledger, and building the same catalog again |
| `PathTemplates` | save path templates: the hub's validator and the agent's renderer |
| `SaveInstall` | installing a downloaded save with failing file operations |
| `SessionProtocol` | creating a sync session over a lossy network |
| `SharedStreams`, `Encodings` | collapsing the bindings of one stream; the hashed byte streams |
| `SyncOperations`, `RevisionChain`, `Heartbeats`, `InventoryMatching` | the hub's operation statuses, revisions, runtime attestation and inventory matching |
| `Catalog`, `CatalogStore`, `GameMerge`, `MergePreview`, `MergeFingerprint` | games, editions and titles; the merge, its preview and its fingerprint |
| `ReadModel`, `Hydration` | reading games one by one, and in batches through pointers into slices |

## How the model reads the code

- Code that changes things step by step is a method or a class proved against a
  specification; tables are maps or sequences, and one store call or transaction is one
  atomic step. A parameter such as `commits`, `stored` or `works` says whether an
  operation the code cannot control succeeds. All runs and all failure points are covered
  because every such parameter is universally quantified.
- SHA-256 is ideal: a digest stands for the content it was computed from. Random keys and
  new ids are arguments; where freshness matters it is stated.
- A character of a string is a code point; where the code counts bytes or UTF-16 units, so does
  the model (`Text.Utf8Length`, `Text.Utf16Length`). In the hashed streams of `Encodings` and
  `MergeFingerprint` a character stands for one byte. White space and letter case are ASCII.
- A path is the list of its cleaned segments. Directories exist exactly when a file lies
  below them; trees contain regular files only.

## What turned out false, and when it holds

- **Rollback.** A directory artifact whose fingerprint cannot be read is planned as
  missing (`internal/bundler/plan.go:255-260`), but the build still copies its files
  (`internal/bundler/bundler.go:183-205`). In a reference package a configuration at the path of
  a described file is written although the plan marks it as a duplicate. In both cases rollback
  leaves the write behind. `Rollback.RollbackIsExactIffForeseen`: as long as no file of the
  package lies below another one, it is exact for every interrupted build exactly when every
  content the build writes is announced by the catalog. For copies and hard links this means that
  every file below such a directory is announced by another entry (`Rollback.CopyIsForeseenIff`);
  `Rollback.LinkedDirectoryIsNotUndone` and, for a reference package,
  `Rollback.DescribedConfigurationIsNotUndone` give a package and a stopped build that rollback does not undo.
- **Modes.** An unchanged configuration outside the snapshot is rewritten and becomes
  private (`Rollback.RollbackModes` gives the exact mode of every path, `Rollback.PermissionsAreLost` a
  build that loses the bits of a file it never announced to touch).
- **Second build.** It may copy again when the plan skipped a directory.
  `SecondBuild.SecondBuildsAreIdleIff`: a clean copy or hard-link package in which no file lies below
  another one always leaves the next build nothing to copy or link exactly when no file below a skipped
  directory is also generated or written by another entry with other bytes. `SecondBuild.UploadedTwiceIsNeverIdle` is a package that breaks this.
- **Templates.** A value that contains braces may make a template fail in some iteration orders
  of the map and succeed in others (`PathTemplates.BraceValueDependsOnOrder`). A template renders
  in every order exactly when the values it uses are free of braces and the checks before and
  after the loop pass (`PathTemplates.RendersInEveryOrderIff`).
- **Save backup.** A save binding may not target the agent's root, but may target its `.varkiv`
  directory (`internal/deviceagent/sync.go:226-228`), which holds the backups. A directory replacement
  then moves the verified backup away with the old tree and deletes it. `SaveInstall.Volume.InstallDownloadedSave`:
  the backup is intact at every later step exactly when it does not lie inside the target.
  `SaveInstall.InstallsIff` says when an install succeeds, and `SaveInstall.BackupIsLost` is one in which
  everything works and the backup is gone.
- **Finished sessions.** `docs/DEVICE_SYNC_PROTOCOL.md` calls `complete` terminal, but
  failing a skipped operation turns the session into a partial one.
  `SyncOperations.CompleteIsFinalIffNothingSkipped`. Only a direct caller of the store can get there:
  the server stores operations as proposed or complete (`internal/server/sync_api.go:398-415`).
- **Revision chain.** A caller-supplied id equal to the parent id is accepted, so a revision
  can be its own parent. `RevisionChain.AcyclicIffNoSelfParent`. The one caller in the program never
  passes an id (`internal/saves/repository.go:301-305`), so this too needs a direct caller of the store.
- **Inventory confirmation.** Confirming does not look at stronger identifier tiers again, so
  the next match may ignore the confirmation. `InventoryMatching.ConfirmedIsReturnedIff`, and
  `InventoryMatching.StrongerTierWins` for a confirmation that succeeds and is not returned.
- **Attestation size.** `docs/DEVICE_SYNC_PROTOCOL.md:73` limits a reported file to 512 MiB; the
  hub only requires a positive size (`internal/catalog/save_compatibility_store.go:361`). The model follows
  the code: `Heartbeats.OversizeIsAccepted` is a larger report that it accepts.
- **Device paths.** The target check trims the whole path before it looks at its segments
  (`internal/bundler/device_preflight.go:61`), but the build writes the path untrimmed.
  `DevicePaths.AcceptedIsPortableIff`: the device can have every segment of an accepted target exactly when
  the trimmed white space is legal and, on Windows, none follows the path.
  `DevicePaths.TrailingSpaceIsAccepted` is an accepted Windows target that ends in a space.

## Model

| member | source | states |
|---|---|---|
| Planner.Plan.AddTarget | internal/bundler/plan.go:183-232 | One call of the addTarget closure gives exactly the settled item: reserved, refused, duplicate-writer and ownership conflicts, deduplication, managed path |
| Planner.Plan.AddRequest | internal/bundler/plan.go:697-734 | A file, configuration or metadata request gets its draft action from mode, ledger and disk before it is added |
| Planner.Plan.AddAll | internal/bundler/plan.go:233-391 | The whole planning loop is the fold of these steps over the catalog's requests |
| PlanProperties.PlanMeaning | internal/bundler/plan.go:183-232 | A plan is conflict-free exactly when the catalog is clean and the ledger permits every writer; every item and the managed set are then known without the fold |
| PlanProperties.ConflictFreePlanIsSafe | internal/bundler/plan.go:205-228 | Every target a conflict-free plan writes is absent, owned with its recorded hash on disk, or owned with none recorded; two active items with one target carry the same known hash |
| PlanProperties.FingerprintMeaning | internal/bundler/plan.go:402-420 | Each fingerprinted field of an item is that of its request, conflicts or not |
| PlanProperties.FingerprintIgnoresOutput | internal/bundler/plan.go:402-420 | Two plans of one catalog over any outputs and ledgers agree in every fingerprinted field |
| EntryProperties.EntryRequestsMean | internal/bundler/plan.go:239-345 | A catalog entry asks for exactly the targets it names, each with its kind and edition and as its source is: its bytes and catalogued digest, missing, or refused |
| EntryProperties.UnplannableConflicts | internal/bundler/plan.go:261-290 | A file or medium whose source no longer has its catalogued digest, a changed directory, or an unresolved launch keeps the package from being built, over every output and ledger and in every mode |
| EntryProperties.CleanIff | internal/bundler/plan.go:183-345 | The requests are clean exactly when no entry is out of date, no named target is reserved, and no two entries plan different contents for one target or any for generated metadata |
| EntryProperties.ConflictFreeIff | internal/bundler/plan.go:183-391 | Planning finds no conflict exactly when the entries are clean and the ledger permits every writer |
| Preflight.CheckTargets | internal/bundler/device_preflight.go:28-56 | The in-place marking raises no finding exactly when the device accepts every live target and folds no two distinct ones together; only actions change |
| Preflight.FoldsTogether | internal/bundler/device_preflight.go:40-44 | Two targets fold together exactly when they are equal, but for case on a device that ignores it |
| Preflight.ApplyDevicePreflight | internal/bundler/device_preflight.go:14-56 | The device's part raises no finding exactly when the profile is enabled, fits the target, supports the mode, accepts every live target and folds no two distinct ones together |
| Preflight.CheckSpace | internal/bundler/device_preflight.go:111-147 | Space fits exactly when the estimate of known and unsized writes is zero, or at most what is free; no finding when that is unknown |
| Preflight.OneTaken | internal/bundler/device_preflight.go:114-130 | One copied or generated file takes its size and 8 MiB in reserve, a generated one without a size 64 KiB and the reserve |
| Preflight.EstimatesAdd | internal/bundler/device_preflight.go:112-130 | Estimates of two lists add up, with one reserve |
| Preflight.NothingTaken | internal/bundler/device_preflight.go:114-130 | Linked, referenced, skipped and unchanged items take no space |
| Preflight.ApplyPreflight | internal/bundler/plan.go:392-397 | Device and space checks together: no finding exactly when the plan passes both; only actions change |
| Preflight.RepresentableMeans | internal/bundler/device_preflight.go:28-56 | In a conflict-free plan the device's verdict depends on the catalog alone, not on the output or the ledger |
| Preflight.PassedPlanIsSafe | internal/bundler/device_preflight.go:28-57 | In a plan without conflict or finding every written target is accepted by the device and may be replaced, and active targets it cannot tell apart are one target with one known hash |
| DevicePaths.ValidateDeviceTargetPath | internal/bundler/device_preflight.go:60-94 | Accepts exactly the paths that, once trimmed, are not empty, fit the device's length and have only segments it can have |
| DevicePaths.ValidateSegment | internal/bundler/device_preflight.go:73-92 | A segment passes exactly when it is not empty and has only legal characters, and on Windows does not end in a space or period and is no reserved name |
| DevicePaths.ReservedMeans | internal/bundler/device_preflight.go:96-109 | A segment is reserved exactly when it is CON, PRN, AUX, NUL, CLOCK$, COM1 to COM9 or LPT1 to LPT9 in any case, or begins with one of them and a dot |
| DevicePaths.SplitJoined | internal/bundler/device_preflight.go:72-72 | Splitting a written target gives back its segments |
| DevicePaths.AcceptsMeans | internal/bundler/device_preflight.go:60-94 | Without white space at its ends a target is accepted exactly when it fits and the device can have each of its segments |
| DevicePaths.AcceptedIsPortableIff | internal/bundler/device_preflight.go:61-91 | The device can have every segment of an accepted target exactly when the white space around the target is legal and, on Windows, none follows it |
| DevicePaths.TrailingSpaceIsAccepted | internal/bundler/device_preflight.go:61-87 | The input: a Windows target that ends in a space is accepted although its segment is not allowed |
| Preflight.UniqueStrings | internal/bundler/plan.go:787-798 | Compaction over its own input gives the list without repeats of the predecessor |
| Preflight.CompactKeeps | internal/bundler/plan.go:787-798 | Compaction keeps the set of elements and the last one |
| Preflight.CompactOrdered | internal/bundler/plan.go:398-401 | On a sorted list the result is strictly sorted, so each element stays once |
| BuilderProperties.SyncsAre | internal/bundler/bundler.go:160-240 | The build synchronises exactly the contents its catalog entries provide, media once |
| BuilderProperties.SyncIsRequested | internal/bundler/bundler.go:183-205 | Every synchronised content was requested while planning, or comes from a directory the plan skipped |
| BuilderProperties.RequestIsWritten | internal/bundler/bundler.go:160-260 | Every requested file, configuration and metadata path is written by the build |
| BuilderProperties.AfterHolds | internal/bundler/bundler.go:298-331 | After a run each path holds what was last written there and every other path is as before |
| BuilderProperties.CountsAre | internal/bundler/bundler.go:313-330 | Every synchronised file is counted once: as linked only by a hard-link build that can link it, as copied only if it cannot |
| Recovery.Snapshot.Inspect | internal/bundler/recovery.go:180-228 | Succeeds exactly when every written target can be inspected and is absent or a regular file below real directories; the entries describe each target once, in any order |
| Recovery.Snapshot.CopyAll | internal/bundler/recovery.go:228-273 | Succeeds exactly when every existing target can be copied; then its bytes are below the snapshot root, and nothing else in the recovery tree changes |
| Recovery.Snapshot.Prepare | internal/bundler/recovery.go:160-273 | Succeeds exactly when the roots are disjoint, every target can be inspected, and what exists can be copied to a new directory; covers exactly the written targets and leaves the output alone |
| Recovery.TreesAreApart | internal/bundler/recovery.go:169-171 | When neither root contains the other, changing a file below one changes that file of its tree and nothing of the other tree |
| Recovery.Snapshot.RestoreEntry | internal/bundler/recovery.go:275-315 | One entry's undo counts an error exactly when a file operation fails or something stands in its way; else it equals its specification; other paths are untouched |
| Recovery.Snapshot.Restore | internal/bundler/recovery.go:275-315 | Without a failing operation the output becomes the specified restore of all entries; a failing one is counted; paths outside the snapshot never change |
| Rollback.RestoreUndoes | internal/bundler/recovery.go:275-315 | Restoring undoes every change confined to the snapshotted paths, bytes and modes |
| Rollback.ReadableCatalogIsForeseen | internal/bundler/plan.go:248-290 | A clean catalog without skipped directories foresees every write of a copy or hard-link build |
| Rollback.CopyIsForeseenIff | internal/bundler/plan.go:254-279 | A copy or hard-link build writes nothing unforeseen exactly when every file below a directory whose fingerprint could not be read is announced by another entry too |
| Rollback.ReferencePackageIsForeseen | internal/bundler/plan.go:697-723 | A reference package overlooks nothing unless a configuration shares the path of a described file |
| Rollback.RollbackIsExact | internal/bundler/bundler.go:142-287 | Wherever a foreseen build stops, restoring gives every output path its bytes back and every snapshotted path its mode |
| Rollback.RollbackModes | internal/bundler/recovery.go:275-315 | The exact mode of every path after rollback, including the configuration that was rewritten unchanged |
| Rollback.PermissionsAreLost | internal/bundler/recovery.go:275-315 | The input: a configuration that is there already with other permission bits; after a stopped build and its rollback the file is private, though every write was foreseen |
| Rollback.OverlookedSurvives | internal/bundler/plan.go:251-279 | For every content the plan does not foresee there is a conflict-free, interrupted build whose rollback leaves it behind, when no file of the package lies below another one |
| Rollback.LinkedDirectoryIsNotUndone | internal/bundler/bundler.go:183-205 | The input: one catalogued directory with an unreadable fingerprint and one file; after copying that file rollback leaves it in the output |
| Rollback.DescribedConfigurationIsNotUndone | internal/bundler/plan.go:206-211 | The input: a reference package with a configuration at the path of a described file; stopped after writing it, the build leaves it behind |
| Rollback.RollbackIsExactIffForeseen | internal/bundler/bundler.go:142-158 | When no file the package plans or writes lies below another one, rollback is exact for every interrupted build exactly when the plan foresees everything the build writes |
| BuildRun.Perform | internal/bundler/bundler.go:298-331 | One write succeeds exactly when the file is there already, or nothing stands in its way and its operation works; the content and mode it leaves; else it changes nothing, or leaves a torn exporter file |
| BuildRun.WriteAll | internal/bundler/bundler.go:159-287 | All steps run exactly when each goes in the tree the earlier ones leave; else the first that does not go stops the run; exact copied, linked and kept counts |
| BuildRun.Build | internal/bundler/bundler.go:88-288 | A build succeeds exactly when its plan passes with the device checks, its snapshot can be taken and every write goes; then it has written everything. A refused plan changes nothing, and an entry whose source is not what was catalogued is refused; after an error and a clean rollback of a foreseen package the output has the bytes it started with |
| BuildRun.BuiltTargetsAreSafe | internal/bundler/bundler.go:88-288 | Of a package built for a device every written target is accepted by it and was replaceable, and active targets it cannot tell apart are one target with one known hash |
| Ownership.LoadManagedTargets | internal/bundler/plan.go:752-785 | No manifest owns nothing, an invalid one is refused; else the three loops over files, managed paths and records build the ledger, later ones winning |
| Ownership.LoadMeans | internal/bundler/plan.go:766-783 | Who owns a path: the last managed record of it with its digest, else the last file at it with its own unless the manifest only references files, else a managed path without a digest |
| Ownership.LoadedRecord | internal/bundler/plan.go:775-783 | A managed path found on disk is loaded with the hash it had there |
| Ownership.LoadedFile | internal/bundler/plan.go:770-774 | A synchronised file is loaded with the content that was last synchronised to its path |
| Fixpoint.LedgerIsHonest | internal/bundler/bundler.go:262-287 | After a successful copy or hard-link build every hash in the ledger is the hash on disk |
| Fixpoint.ReplanHasNoConflict | internal/bundler/plan.go:183-232 | Replanning the same catalog on the built output raises no conflict |
| Fixpoint.ReplanAction | internal/bundler/plan.go:697-734 | The exact action of every file and configuration when the catalog is planned again |
| Fixpoint.SecondBuildIsIdle | internal/bundler/bundler.go:298-331 | A second build copies and links nothing exactly when each file target ended on its content |
| Fixpoint.LedgerFixpoint | internal/bundler/bundler.go:262-331 | Without skipped directories: no conflict, everything unchanged or deduplicated, nothing copied or linked |
| SecondBuild.UndisputedSettles | internal/bundler/bundler.go:183-260 | When no file below a skipped directory is disputed, every successful build leaves each file target on its own content |
| SecondBuild.ShippedIsCatalogued | internal/bundler/bundler.go:160-240 | When no file below a skipped directory is disputed, every file and medium is in the output of a successful build with its source's bytes, and they have its catalogued digest |
| SecondBuild.SecondBuildsAreIdleIff | internal/bundler/bundler.go:298-331 | In a clean copy or hard-link package in which no file lies below another one, every successful build leaves the next one nothing to copy or link exactly when no file below a skipped directory is also generated or written with other bytes |
| SecondBuild.UploadedTwiceIsNeverIdle | internal/bundler/bundler.go:183-205 | The input: a directory with an unreadable fingerprint and an uploaded file with other bytes at the path of its file; it builds, and the next build copies or links again |
| PathTemplates.AcceptedSplitsUniquely | internal/catalog/sync_store.go:26-50 | The validator accepts a template exactly when, with slashes and without outer white space, it stays below its place (one line of at most 1024 bytes, neither absolute nor leading upwards) and splits into brace-free text and allowed placeholders; the split is unique |
| PathTemplates.TemplateVariables | internal/deviceagent/sync.go:235-251 | The search loop returns the names between successive pairs of double braces |
| PathTemplates.VariablesAreNames | internal/deviceagent/sync.go:235-251 | On an accepted template these are exactly its placeholders, in order |
| PathTemplates.RendersInEveryOrderIff | internal/deviceagent/sync.go:182-193 | An accepted template is rendered in every order of the map exactly when the values it uses are free of braces and not blank and putting them in at once gives a text without control characters that is not blank; without braces every order gives that text |
| PathTemplates.BraceValueDependsOnOrder | internal/deviceagent/sync.go:188-193 | For a value that looks like a placeholder, two orders of the same complete map: one renders a path, the other fails |
| PathTemplates.Available | internal/deviceagent/sync.go:183-187 | The check succeeds exactly when every named variable has a value that is not blank |
| PathTemplates.ReplaceEach | internal/deviceagent/sync.go:188-190 | The replacement loop performs every replacement of the map once, in some order |
| PathTemplates.RenderBindingPath | internal/deviceagent/sync.go:158-193 | The result is that of some order of the map; a rendered path has no brace, NUL or line break and is not blank, and for values without braces it is the simultaneous substitution |
| SaveInstall.Volume.Copy | internal/deviceagent/sync.go:987-1000 | Succeeds exactly when the operation does and the destination is vacant, which then holds what the operation left there: any bytes, but only at listed paths |
| SaveInstall.Volume.Verify | internal/deviceagent/sync.go:1002-1022 | Verification succeeds exactly when every listed file is there with its checksum and size |
| SaveInstall.Volume.Swap | internal/deviceagent/sync.go:1079-1099 | Directory replacement: the new tree is in place, or the old one is back, or it stands complete in the recovery directory |
| SaveInstall.Volume.StageAndReplace | internal/deviceagent/sync.go:1048-1099 | From staging to clean-up: what each ending holds, and that no state touches anything else |
| SaveInstall.Volume.InstallDownloadedSave | internal/deviceagent/sync.go:1024-1099 | The ending is decided by the disk and by which operations work. Success: the target is exactly the downloaded files. Error: every old file is still at the target, or in the recovery directory. From the backup check on, every state has the verified backup, exactly when it is not inside the target |
| SaveInstall.InstallsIff | internal/deviceagent/sync.go:1024-1099 | An install succeeds exactly when the target is not the volume's root, the operations its case needs work, the copies are faithful, and the places that must be new are vacant |
| SaveInstall.BackupIsKept | internal/deviceagent/sync.go:1028-1046 | A verified backup outside the target survives every later state |
| SaveInstall.BackupMovesAway | internal/deviceagent/sync.go:1085-1088 | A backup inside the target is gone from its place once the target was set aside |
| SaveInstall.BackupIsLost | internal/deviceagent/sync.go:1028-1098 | The input: the agent's own directory as the save; everything works, the install succeeds, and the verified backup is gone |
| SaveInstall.Volume.CopyExclusive | internal/deviceagent/sync.go:1101-1135 | Succeeds exactly when it works, the source is there and the destination is free; never overwrites, copies the source's bytes or leaves nothing |
| SaveInstall.Volume.InstallDirectoryExclusive | internal/deviceagent/sync.go:1137-1171 | The default directory install succeeds exactly when the place is vacant and every file can be copied in turn; then each is copied faithfully, else its files are taken back |
| SessionProtocol.Hub.CreateSyncSession | internal/catalog/sync_session_store.go:215-284 | One atomic step: a new key creates a session, a known one is replayed for an equal request hash and is a conflict for another, which changes nothing; device and key are checked without the white space around them |
| SessionProtocol.Agent.ChooseKey | internal/deviceagent/sync.go:1316-1329 | The key is reused only for an equal fingerprint, and is on disk before anything is sent |
| SessionProtocol.BeginSaves | internal/deviceagent/sync.go:1316-1333 | A run only starts with its key on disk; an unchanged request keeps its key |
| SessionProtocol.StepKeeps | internal/deviceagent/sync.go:1316-1333 | Every step keeps one request per key, sessions bound to sent requests, and agreeing answers |
| SessionProtocol.NeverConflicts | internal/catalog/sync_session_store.go:227-238 | In every run no answer is an idempotency conflict, and successful answers to one key name one session |
| SessionProtocol.RetriesCreateOneSession | internal/deviceagent/sync.go:1316-1333 | Any retries of one unchanged request add at most one session beyond messages already under way |
| SessionProtocol.FirstRequestCreatesOneSession | internal/deviceagent/sync.go:1392-1395 | From the start at most one session, and exactly that one once a request was answered |
| SharedStreams.AddLocalFile | internal/deviceagent/sync.go:309-333 | A file is added exactly when its logical path is new, the total stays within 240 MiB and there were fewer than 4096 files |
| SharedStreams.Enumerate | internal/deviceagent/sync.go:348-407 | A binding is read exactly when all its files together fit |
| SharedStreams.IdentityMeans | internal/deviceagent/sync.go:409-433 | Equal identities mean the same paths and the same files, whatever the order |
| SharedStreams.CollectLocalSets | internal/deviceagent/sync.go:440-463 | Succeeds exactly when every binding has a stream and can be read and bindings of one stream agree; each stream gets its first binding's set, which has the identity of every set of the stream |
| SharedStreams.OrderDoesNotMatter | internal/deviceagent/sync.go:435-463 | For any two orders of the bindings: both fail, or both give every stream the same paths and files |
| Encodings.StreamReads | internal/catalog/game_merge.go:37-40 | The length-prefixed stream parses back to the written strings |
| Encodings.RecordsRead | internal/deviceagent/sync.go:298-305 | The NUL-separated records parse back to the files |
| Encodings.PreimageIsCanonical | internal/catalog/save_store.go:202-215 | The save-set preimage parses back to the sorted files, ignores order, and tells any two sets apart |
| Encodings.SidesAgree | internal/deviceagent/sync.go:294-307 | For equal files the agent and the hub compute equal digests |
| Encodings.OneFile | internal/deviceagent/sync.go:298-305 | One file is hashed as its path, its checksum and its size in decimal, a NUL after each |
| Encodings.ContentHash | internal/deviceagent/sync.go:294-307 | The agent hashes the canonical preimage of path, checksum and size of its files, for any result of sort.Slice |
| Encodings.RevisionContentHash | internal/catalog/save_store.go:202-215 | The hub hashes the canonical preimage of path, checksum and size of its files too |
| SyncOperations.Store.CompleteSyncOperation | internal/catalog/sync_session_store.go:558-581 | An open operation completes exactly when stored and the content is the expected one; other content makes it failed with hash_mismatch and is refused; decided operations stay, an equal repeat of a completion is answered with it |
| SyncOperations.Store.FailSyncOperation | internal/catalog/sync_session_store.go:583-595 | Any operation that is not complete becomes failed with this code; without a code nothing changes |
| SyncOperations.Store.RecalculateSyncSession | internal/catalog/sync_session_store.go:597-623 | Each counter of the stored row is the number of operations it counts; the session is open while one is, else partial exactly when one failed |
| SyncOperations.RunEvolves | internal/catalog/sync_session_store.go:558-595 | Over every run complete operations never change, failed ones stay failed, skipped ones stay skipped or fail |
| SyncOperations.CompletedAsExpected | internal/catalog/sync_session_store.go:572-575 | Over every run: an operation that has become complete got the content it expected |
| SyncOperations.RunsStayHonest | internal/catalog/sync_session_store.go:558-595 | Over every run: when operations are inserted honestly, every complete one has the content expected of it |
| SyncOperations.TotalsAreMonotone | internal/catalog/sync_session_store.go:597-605 | Over every run the pending count never rises and uploads, downloads and failures never fall |
| SyncOperations.ReplayedCompletion | internal/catalog/sync_session_store.go:563-568 | After any run, repeating a completion changes nothing and other arguments are refused |
| SyncOperations.PartialIsFinal | internal/catalog/sync_session_store.go:609-618 | A partial session stays partial over every run |
| SyncOperations.CompleteIsFinalIffNothingSkipped | internal/catalog/sync_session_store.go:583-618 | A complete session stays complete over all runs exactly when none of its operations was skipped |
| RevisionChain.AddSize | internal/catalog/save_store.go:195-200 | The running total is extended exactly when the sum stays within the limit; no 64-bit value overflows on the way |
| RevisionChain.CheckFiles | internal/catalog/save_store.go:277-302 | Files are accepted exactly when cleaned paths are distinct, fields are present and the exact total fits |
| RevisionChain.MakeRevision | internal/catalog/save_store.go:268-322 | The row is made exactly from a submittable input: a device, a known status, at most 4096 files with distinct cleaned paths that fit in 240 MiB; an explicit parent goes before the base, a status before the conflict flag, and a missing hash is that of the listed files |
| RevisionChain.Store.AddSaveRevision | internal/catalog/save_store.go:268-351 | The exact condition for success, the inserted row as the input says, the superseded ones, and when the input is invalid |
| RevisionChain.Store.CurrentStreamRevision | internal/catalog/save_store.go:427-434 | Returns the stream's current revision, if any |
| RevisionChain.InsertStatuses | internal/catalog/save_store.go:330-334 | Every insert keeps each status equal to the inserted one, or superseded by a later current revision |
| RevisionChain.CurrentIsLast | internal/catalog/save_store.go:330-338 | The current revision is the last one inserted as current |
| RevisionChain.CurrentIsUnique | internal/catalog/save_store.go:330-338 | A stream has at most one current revision |
| RevisionChain.HasCurrentIff | internal/catalog/save_store.go:427-434 | A stream has a current revision exactly when one was ever inserted |
| RevisionChain.AcyclicIffNoSelfParent | internal/catalog/save_store.go:306-338 | No revision is its own ancestor exactly when none was inserted as its own parent |
| Heartbeats.RequirementsFor | internal/catalog/save_compatibility_store.go:274-311 | The list holds, once each, exactly the identities enabled members for this device ask for, cores before drivers, then by id and contract |
| Heartbeats.MemberFitsIff | internal/catalog/save_compatibility_store.go:274-300 | A member fits a device exactly when it runs on devices, on the same system (Linux and handheld Linux stand for each other) and under a name of the same architecture |
| Heartbeats.Validate | internal/catalog/save_compatibility_store.go:358-415 | A report is accepted exactly when it is well formed, its runtime is enabled with this contract, and it is asked for; it is read without white space and with the digest in lower case |
| Heartbeats.OversizeIsAccepted | internal/catalog/save_compatibility_store.go:358-363 | The input: a report of a file above the documented 512 MiB that is accepted |
| Heartbeats.ValidateAll | internal/catalog/save_compatibility_store.go:437-448 | A list of reports is accepted exactly when each is and no identity comes twice |
| Heartbeats.Hub.RecordDeviceHeartbeat | internal/catalog/save_compatibility_store.go:420-495 | The device's attestations become exactly the accepted reports, or nothing changes |
| Heartbeats.Hub.DeleteDevice | internal/catalog/device_store.go:158-174 | Exactly when the device exists and has no save revisions it goes, with its attestations and its heartbeat; else nothing changes |
| Heartbeats.Hub.BindingAuthorized | internal/catalog/save_compatibility_store.go:497-536 | An enabled binding of this profile is authorized for its own driver, and across drivers exactly when a member of the enabled group matches the last accepted heartbeat of the device; never without a stream |
| Heartbeats.Hub.AuthorizedStreams | internal/catalog/save_compatibility_store.go:538-557 | Exactly the streams of authorized bindings |
| Heartbeats.SnapshotSays | internal/catalog/save_compatibility_store.go:452-458 | The stored attestation of an identity is what its one report says |
| Heartbeats.HeartbeatsDecide | internal/catalog/save_compatibility_store.go:497-529 | Cross-driver authority from stored attestations is the match of the reports they came from, by contract, digest and size |
| InventoryMatching.NormalizeTakes | internal/catalog/sync_session_store.go:20-43 | An item is taken exactly with a client id of at most 256 bytes, a platform, a size that is not negative, and no digest or one of 64 hexadecimal characters |
| InventoryMatching.NormalizeTells | internal/catalog/sync_session_store.go:20-27 | Two items are the same exactly when they agree but for outer white space and the case of platform and digest |
| InventoryMatching.IdentityTells | internal/catalog/sync_session_store.go:97-111 | Equal identity hashes mean equal platform, digest, size and, up to case, identifiers |
| InventoryMatching.CandidatesAre | internal/catalog/sync_session_store.go:49-77 | The candidates are exactly the platform's editions that carry the identifier up to case, a digest as that of an artifact that is not missing |
| InventoryMatching.MatchCanonical | internal/catalog/sync_session_store.go:131-161 | The result is decided by the first identifier with any candidates: digest, serial, product code, title id |
| InventoryMatching.CandidateHasPlatform | internal/catalog/sync_session_store.go:521-527 | A candidate always has the platform of the item, so the last check of a confirmation cannot fail |
| InventoryMatching.Store.MatchForDevice | internal/catalog/sync_session_store.go:173-198 | Unique candidate, ambiguity, or a confirmed edition exactly when identity, platform, tier and candidates of the confirmation still hold |
| InventoryMatching.Store.Confirm | internal/catalog/sync_session_store.go:467-547 | Succeeds exactly for complete arguments, a stored row and candidates that still agree, and a commit; stores the override and the new result of the row; the exact errors, which leave everything unchanged |
| InventoryMatching.MatchIsUnique | internal/catalog/sync_session_store.go:173-198 | These conditions determine the result: matching never guesses |
| InventoryMatching.ConfirmedIsReturnedIff | internal/catalog/sync_session_store.go:467-547 | After a confirmation on an unchanged catalog the confirmed edition is returned exactly when all stronger tiers are silent |
| InventoryMatching.StrongerTierWins | internal/catalog/sync_session_store.go:505-520 | The input: an item stored as ambiguous by serial whose digest has found an edition since; confirming succeeds, matching returns the other edition |
| InventoryMatching.ChangedCandidatesCancel | internal/catalog/sync_session_store.go:185-188 | A changed candidate set never gives a confirmed match |
| Catalog.PutTitles | internal/catalog/library_store.go:66-77 | Inserts every usable title or fails on a clash, whatever order the map is walked in; titles and locales are stored without outer white space, blank ones not at all |
| Catalog.FirstEdition | internal/catalog/library_store.go:299-299 | The edition ORDER BY sort_order, lower(default_title), id puts first, or none |
| Catalog.SortsByColumns | internal/catalog/library_store.go:299-299 | The order of editions is that of the columns sort_order, lower(default_title), id |
| Catalog.AddKeeps | internal/catalog/library_store.go:103-112 | A new edition, primary if the game had none, keeps the catalog consistent |
| Catalog.MoveKeeps | internal/catalog/library_store.go:296-306 | Moving an edition keeps both games' primary editions right |
| Catalog.DeleteKeeps | internal/catalog/library_store.go:337-345 | Deleting an edition with its titles keeps the catalog consistent |
| Catalog.GameDeleteKeeps | internal/catalog/library_store.go:349-369 | Deleting a game leaves no title without an owner |
| Catalog.GameDeletedMeans | internal/catalog/library_store.go:349-369 | Exactly the rows of the game and of its editions are gone |
| CatalogStore.Store.CreateGame | internal/catalog/library_store.go:13-36 | One new game with its titles and no primary edition, exactly when fields, id and titles are in order; else nothing |
| CatalogStore.Store.UpdateGame | internal/catalog/library_store.go:38-64 | New title, platform and titles, exactly when the game exists and its titles do not clash; the primary edition stays |
| CatalogStore.Store.AddEdition | internal/catalog/library_store.go:79-123 | One new edition with its titles, exactly when it fits; it becomes primary exactly when the game had none, which else keeps its own |
| CatalogStore.Store.AddEditionWithArtifact | internal/catalog/library_store.go:129-195 | The edition and its hashed artifact exactly when both fit, or neither; a library artifact without a source path has its path as that |
| CatalogStore.Store.UpdateEdition | internal/catalog/library_store.go:236-270 | The row and its titles change, its game does not |
| CatalogStore.Store.MoveEdition | internal/catalog/library_store.go:272-309 | Within one platform; the source game's primary edition becomes the first remaining one only if it was the moved one, the target's becomes the moved one only if it had none |
| CatalogStore.Store.SetPrimaryEdition | internal/catalog/library_store.go:311-321 | Only an edition of the game can become primary |
| CatalogStore.Store.DeleteEdition | internal/catalog/library_store.go:327-347 | Exactly the rows of the edition go; the primary edition becomes the first remaining one only if it was the deleted one |
| CatalogStore.Store.DeleteGame | internal/catalog/library_store.go:349-369 | Exactly the rows of the game and of its editions go, nothing else changes |
| CatalogStore.Store.ImportGame | internal/catalog/import_store.go:37-222 | Exactly when everything fits: one edition appended to an existing or new game with artifacts, media and memberships, every other row as before; a duplicate exactly when a path, source path or content is catalogued; a platform mismatch exactly then; nothing changes otherwise |
| CatalogStore.InsertMemberships | internal/catalog/import_store.go:192-220 | Missing memberships are added, existing ones never rewritten |
| CatalogStore.Store.MergeGames | internal/catalog/game_merge.go:90-125 | A checked merge is refused as stale exactly when the rebuilt plan differs; the exact condition for success, then the tables become the merge |
| GameMerge.MergeGamesTx | internal/catalog/game_merge.go:127-168 | The ordered updates with the final cascading delete equal the one-step merge; the exact errors |
| GameMerge.CascadeTakesNothing | internal/catalog/game_merge.go:161-166 | When the source game is deleted nothing hangs off it any more |
| GameMerge.MergedIs | internal/catalog/game_merge.go:139-163 | Row by row: what moves to the target, and that its own titles and memberships win |
| GameMerge.MergeKeeps | internal/catalog/game_merge.go:139-166 | The merge keeps primary editions, titles and foreign keys right |
| GameMerge.MergeConserves | internal/catalog/game_merge.go:139-150 | The target ends up with all editions, artifacts and artwork of both games |
| MergePreview.BuildGameMergePlan | internal/catalog/game_merge.go:170-355 | The counting loops give the sizes of the row sets and the fingerprint; the exact errors |
| MergePreview.PlanMeans | internal/catalog/game_merge.go:191-227 | Every counter is the size of a set of rows before the merge |
| MergePreview.PreviewPredicts | internal/catalog/game_merge.go:317-352 | The counters tell how many editions, titles, memberships, artifacts and media the target has after the merge |
| MergePreview.PreviewIsStable | internal/catalog/game_merge.go:193-199 | Previewing an unchanged catalog again gives the same rows in the same order |
| MergeFingerprint.FingerprintDecides | internal/catalog/game_merge.go:30-44 | Two fingerprints are equal exactly when every row the merge can touch is equal |
| ReadModel.BatchedQuery | internal/catalog/read_models.go:298-299 | One owner's part of a batched, ordered query is that owner's own query |
| ReadModel.ReadGameShows | internal/catalog/library_store.go:496-561 | A game that was read shows what is stored: its rows, each list complete and in its order, and as display title the stored one for the locale, else for its language, else the row's own |
| ReadModel.ResolvedIsDisplayed | internal/catalog/library_store.go:792-804 | The displayed title is the stored one for the locale, else the one for the text before its first '-' or '_', else the row's own |
| ReadModel.StringBatches | internal/catalog/read_models.go:499-508 | An exact partition into consecutive batches, all full but the last, none empty |
| Hydration.Append | internal/catalog/read_models.go:317-317 | Appending extends the slice in place or in a new copy; old cells keep their contents |
| Hydration.LoadEditions | internal/catalog/read_models.go:298-331 | After all appends of a batch every pointer leads to the slice element of its edition, for this and all earlier batches |
| Hydration.LoadEditionBatch | internal/catalog/read_models.go:216-226 | Writing through the pointers completes exactly the editions of the batch |
| Hydration.FinishedIsReadGame | internal/catalog/library_store.go:496-561 | The hydrated game equals the one read row by row, with titles, media, editions and artifacts in order |
| Hydration.LoadGamesByIDs | internal/catalog/read_models.go:187-239 | For ids of which none comes in two batches of 200 the batched loader returns, in order, what GetGame returns for each, and that shows what is stored; where GetGame finds none, a game with only its id |

## Left out

- Hard links: the model gives every path its own bytes, so a write through one of two linked names (`os.WriteFile` into an existing linked file) is not captured.
- Symbolic links, empty directories, non-regular files, directory modes, and other processes changing files during a build or an install.
- The files of a package changing between planning and building; unreadable regular files.
- Frontend exporters: they write arbitrary bytes at planned metadata paths.
- Preflight.CheckSpace: sums do not wrap at 64 bits, and how free space is found out is a parameter; the texts of findings are not modelled.
- JSON and the manifest's round trip through it; the merge digest uses its own length-prefixed stream, which is modelled.
- PathTemplates.RenderBindingPath: ends before the rendered text is cleaned and checked against roots and links; white space beyond ASCII is not trimmed as Go does.
- SaveInstall.Volume.InstallDirectoryExclusive: assumes its own clean-up removals succeed; created directories are not modelled, so leftovers of a failed install directory are not either.
- SaveInstall.Volume.Verify: the permission bits of installed files are not modelled.
- ROM inventory with its cache, upload and download transfers, heartbeat HTTP, sync status records.
- The hub's choice of upload, download, noop or conflict, and the validation before `CreateSyncSession`; a request that is turned away creates nothing.
- SessionProtocol.Hub.CreateSyncSession: the operation and inventory rows of the session are inserted in `SyncOperations` and `InventoryMatching`, not in this table.
- RevisionChain.Store.AddSaveRevision: the stream is resolved by the caller, and file rows are part of their revision.
- CatalogStore.Store.ImportGame: runtime hints and the titles of new series.
- SessionProtocol.NeverConflicts: random keys have no white space around them; the hub's request hash is taken as a function of the request; it normalizes platform ids through the platform table, whose changes are not modelled.
- MergePreview.BuildGameMergePlan: timestamps (`created_at`, `updated_at`) are not columns of the model, so the rows of the preview and of its fingerprint lack them; display titles of the preview are omitted.
- MergeFingerprint.FingerprintDecides: covers every column but timestamps; assumes the schema's fixed number of columns and that no id reads `<null>`.
- `DeleteAll`, series titles, runtime hints, pairing, save streams and bindings, and other tables that reference editions; a refused delete is a call that does not commit.
- Hydration.LoadGamesByIDs: no id comes in two batches, for its parts would be appended twice; the callers pass distinct ids, read from a primary key. `loadSeriesByIDs` and paging are not modelled.
- Interleaving of the read and the write inside one store call.
