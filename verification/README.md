# A verified model of upac-lib

`upac-lib` is an atomic package manager: a system image and a configuration image, both stored in a composefs
repository, are replaced as a whole, and a failed operation leaves nothing behind. This project models the parts of
it where that promise is made and proves, in Dafny 4.11, what they do for every input, every run and every reachable
state. `dafny verify dfyconfig.toml` checks everything.

## How it is organised

Code that changes things step by step is modelled as classes and methods with loops, each proved against a
specification that does not mention how the work is done; what the program promises is then proved of the
specification. What a specification function makes of its arguments is spelled out in lemmas of its own, by values
and without naming the function's parts (`ChangesByContent`, `MergeRecords`, `NextDigit`, `IdentityLayout`).

| files | what they model |
|---|---|
| `Paths`, `Trees` | directory trees over an append-only leaf table, and the edits of a `FileHandle`; everything is stated through `View`, the flat map from a path to what is found there |
| `Diff`, `Merge` | the recursive difference of two trees and the three-way merge of `/etc` |
| `Overlay`, `UpperOverlay`, `Import`, `Removals`, `ConfigStep` | laying trees and overlay upper directories over trees, importing directories, and the whole configuration step of install, update and uninstall |
| `Disk`, `Orchestrator`, `Pipeline` | atomic writes and hook primitives with their undo, the cursor, the rollback stack, whole runs, and queue stages |
| `Deploys`, `Sysroot`, `RecordFiles` | deploy records, retention and garbage collection: the state machine, the source's loops proved to implement it, and records as guarded files of the orchestrator's disk |
| `Types`, `Versions`, `Codec` | stored values, the order of versions, and the binary encoding |
| `Database`, `Packages`, `PackageHistory` | the package tables with their indexes, the steps that remove, replace and install one package, and histories of such steps |
| `Basics` | optional values and bytes |

Nondeterminism of the source stays nondeterminism here: the order of `read_dir`, the order in which records are read
and the deploys are queued are picked arbitrarily, so what is proved holds for every order. A run of the orchestrator
is given by a script saying, for each execution of a stage, what it writes without a guard, what it does under one,
whether it fails, and whether the run has been cancelled by then; everything is proved for every script.

Where the source does not keep a promise in every case, the model keeps the source's behaviour and the exact
condition is proved:

- **Merge.** It goes through exactly under `MergeSucceeds`. Besides a missing parent directory, a `.upac-new` copy
  that takes the place of a directory above a later change of the user makes it fail. Two sides that write the same
  content still count as a conflict.
- **Merge.** A user's file that stands where the old configuration had a device, fifo or socket is not a change in
  the sense of the diff, and is lost (`UnchangedPackageKeepsLive`).
- **Diff.** A tree with a sparse file, or a file without a verity digest, differs from itself (`DiffOfSelf`).
- **Upper overlay.** A plain upper directory over a lower leaf is refused, although an overlay mount shows the
  directory (`ApplyOverlayUpper`).
- **Rename in a tree.** The entry is taken out before the new parent is looked up; a rename that fails there has
  lost the entry (`RenameInTree`).
- **Undo.** Rolling back atomic writes is exact precisely when no written path was a symbolic link; rolling back
  hook steps is exact precisely when no move overwrote its target and no touch went through a dangling link.
- **Garbage collection.** The configuration of the genesis record is not in its history, so it is collected after
  the first commit (`GenesisConfigIsLost`).
  A collection fails if a deploy directory holds no record, also after the pruning that precedes it has been done.
- **Retention.** A deploy put in place for the next boot is kept if it is booted, next older, pinned or among the
  newest, and no other rule protects it. A run that merges into a deploy that has a record already, or rolls back to
  one, keeps its old sequence number, so the retention pass ending that run can remove it
  (`StagedDeployCanBeRemoved`). With a retention depth of 0, which the settings accept, every new deploy that is not
  the booted one is removed by its own run (`NothingNewSurvivesDepthZero`). `TargetSurvives` is the exact condition
  for all of these runs and every depth.
- **Failure after retention.** A run that fails once its retention pass has removed a deploy cannot restore that
  deploy's record (`FailRun`).
- **Undo of whole runs.** A run that only writes files under guards is undone exactly if none of them was a symbolic
  link before it. With hooks the condition proved, that each execution was reversible when it started, is sufficient
  but not necessary (`ReversibleIsNotNeeded`).
- **Unguarded writes.** The sequence counter and the boot entries are written without a guard, so a failed run leaves
  them; `RunUndone` says that it leaves exactly them.
- **Path index.** Removing a file deletes the index entry of its path even if another package has a row for that
  path (`SharedPathIsForgotten`); rows and index agree both ways exactly until an insertion takes a path that leads
  to another package.
- **Installing twice.** Installing never looks the identity up: installing one that is there re-points the identity
  index and leaves the older package without an entry (`InstallAgrees`).
- **Import.** Every directory of a package is inserted, and the insertion of composefs replaces what was there: files
  of other packages in a directory of the same name at the top of the tree are gone (`FileSurvivesImport`,
  `ImportKeepsOthers`).
- **Import.** Paths are recorded relative to the package's `usr` and `etc` trees. A path that occurs in both is
  recorded as configuration only, so the system file is no longer known to belong to the package
  (`RowsOfReplaced`, `SystemRowsAreKept`).
- **Codec.** A text or list of 2^32 or more bytes or elements never comes back (`ComesBackAnywhere` is an
  if-and-only-if).
- **Versions.** Ties of the order are not equality of the values (`TiesNeedNotBeEqual`).

## Model

| member | source | states |
|---|---|---|
| `Paths.SortNames` | lib/lib/src/composefs/diff.rs:57-58 | directory entries are listed once each, in strictly increasing name order |
| `Paths.LessIsLexicographic` | lib/lib/src/composefs/diff.rs:57-58 | the order of names: a proper prefix first, or the smaller character at the first difference |
| `Trees.EditIsLocal` | lib/lib/src/composefs/file.rs:60-72 | an edit of one directory changes no path that does not pass through it |
| `Trees.PutPlaces` | lib/lib/src/composefs/file.rs:61-66 | inserting at a path replaces the whole subtree there and nothing else |
| `Trees.PutGrafts` | lib/lib/src/composefs/file.rs:110-124 | putting an inode at a path puts everything below it there, and changes no other path |
| `Trees.PushKeepsView` | lib/lib/src/composefs/file.rs:76-101 | growing the leaf table changes what no path leads to: leaf ids keep their meaning |
| `Trees.ViewFollowsEntries` | lib/lib/src/composefs/file.rs:60-72 | a path leads through nested directories to a directory or, by its id, to a leaf of the table |
| `Trees.WalkErrorIs` | lib/lib/src/composefs/file.rs:60-72 | a walk fails because something on the way is no directory, or else because something is missing, each exactly then |
| `Trees.PlacedShows` | lib/lib/src/composefs/file.rs:60-101 | placing a node means: it is found at the path, nothing below it, and everything else as it was |
| `Trees.MovedShows` | lib/lib/src/composefs/file.rs:110-124 | after a move the new path leads, all the way down, to what the old one led to, and the old one nowhere |
| `Trees.FileSystem.PushLeaf` | lib/lib/src/composefs/file.rs:77-77 | appends one leaf, returns its id, and keeps every view |
| `Trees.FileHandle.InsertInTree` | lib/lib/src/composefs/file.rs:61-66 | an empty directory takes the place of whatever was there, or the error of the missing parent and no change |
| `Trees.FileHandle.UpdateInTree` | lib/lib/src/composefs/file.rs:68-72 | only the stat of that directory changes; fails exactly if it is not one |
| `Trees.FileHandle.PlaceLeaf` | lib/lib/src/composefs/file.rs:74-83 | a new leaf takes the place of whatever was there; the leaf table grows by it in any case |
| `Trees.FileHandle.HardlinkInTree` | lib/lib/src/composefs/file.rs:85-93 | both paths lead to the same leaf id; errors in the order of the source |
| `Trees.FileHandle.CopyFromTree` | lib/lib/src/composefs/file.rs:95-108 | the leaf of the other tree takes the place of whatever was there, with the exact error otherwise |
| `Trees.FileHandle.RenameInTree` | lib/lib/src/composefs/file.rs:110-124 | the subtree moves; succeeds exactly if it exists and the new parent is a directory outside it; otherwise an existing entry is gone |
| `Trees.FileHandle.RemoveInTree` | lib/lib/src/composefs/file.rs:126-131 | the path and everything below it is gone; a missing parent is an error, a missing entry is not |
| `Diff.MatchingIsEquality` | lib/lib/src/composefs/diff.rs:140-153 | content matches exactly if equal and of a comparable kind, whatever the stat |
| `Diff.DiffReports` | lib/lib/src/composefs/diff.rs:44-54 | a diff is sound and complete against the two flat views |
| `Diff.ChangesByContent` | lib/lib/src/composefs/diff.rs:136-153 | from the two nodes at a path, case by case, which kind is reported there and that no other is: regular files and links only, modified exactly if contents differ or cannot be compared |
| `Diff.RetargetedLinkIsReported` | lib/lib/src/composefs/diff.rs:136-153 | a link that points elsewhere, or a file in the place of a link, is reported as modified |
| `Diff.EachPathOnce` | lib/lib/src/composefs/diff.rs:44-127 | no path is reported twice |
| `Diff.DiffIsUnique` | lib/lib/src/composefs/diff.rs:44-127 | the views and the reporting order determine the list of changes |
| `Diff.BeforeAndAbove` | lib/lib/src/composefs/diff.rs:102-109 | a removal below a path comes before an addition at it, and the other way round |
| `Diff.DiffOfSelf` | lib/lib/src/composefs/diff.rs:140-153 | a tree does not differ from itself if and only if all its files are comparable |
| `Diff.DiffIsReversible` | lib/lib/src/composefs/diff.rs:44-127 | the diff the other way reports the same paths with added and removed exchanged |
| `Diff.AppendEntry` | lib/lib/src/composefs/diff.rs:63-87 | what one step of the merge-join adds extends the diff of the entries before it |
| `Diff.JoinOneSided` | lib/lib/src/composefs/diff.rs:105-108 | removals of one side followed by additions of the other are the diff of a directory and a leaf |
| `Diff.TreeDiff.Run` | lib/lib/src/composefs/diff.rs:44-54 | returns the diff of any two valid trees |
| `Diff.TreeDiff.CompareDirectories` | lib/lib/src/composefs/diff.rs:56-87 | the two-cursor loop terminates and appends exactly the diff of the two directories |
| `Diff.TreeDiff.CompareMatchedEntry` | lib/lib/src/composefs/diff.rs:89-110 | appends exactly the diff of two entries of one name |
| `Diff.TreeDiff.MarkSubtree` | lib/lib/src/composefs/diff.rs:112-127 | appends every file of the subtree as removed or added |
| `Merge.MergeConfig` | lib/lib/src/config/merge.rs:23-55 | succeeds exactly under MergeSucceeds; the tree is the pointwise merge, the conflicts are exactly the user's changes to files the package wrote, each once |
| `Merge.ReplayChange` | lib/lib/src/config/merge.rs:32-51 | one round: the next user change is replayed, or the merge cannot succeed |
| `Merge.CollectChanges` | lib/lib/src/config/merge.rs:27-27 | the package's changes as a map |
| `Merge.SucceedsIffApplicable` | lib/lib/src/config/merge.rs:32-51 | the condition on the three trees is that no replayed edit ever lacks its parent directory |
| `Merge.ReplayIsMerge` | lib/lib/src/config/merge.rs:32-51 | replaying the edits one by one is the pointwise merge |
| `Merge.ConflictsAreComplete` | lib/lib/src/config/merge.rs:36-38 | the collected conflicts are exactly the conflicts, without repetition |
| `Merge.ConflictsByContent` | lib/lib/src/config/merge.rs:36-47 | from the nodes of the three trees: a conflict is a file the package writes and the user writes or takes away |
| `Merge.CopyIsFound` | lib/lib/src/config/merge.rs:40-47 | where both sides write a file the user's stands under its name; with conflict files allowed the package's is found under the name followed by the nine characters of the suffix, with the exact exception |
| `Merge.UntouchedConfigBecomesNew` | lib/lib/src/config/merge.rs:23-55 | without user changes the result is the package's tree and nothing conflicts |
| `Merge.UnchangedPackageKeepsLive` | lib/lib/src/config/merge.rs:23-55 | without package changes the user's files survive, with the exact exception |
| `Overlay.ApplyTreeOverlay` | lib/lib/src/composefs/overlay.rs:63-92 | succeeds exactly if no overlay directory sits on a base leaf, and then every path holds the layered node |
| `Overlay.LayDirectory` | lib/lib/src/composefs/overlay.rs:64-89 | the same for one directory and everything below it |
| `Overlay.LayEntry` | lib/lib/src/composefs/overlay.rs:70-86 | the same for one entry, whatever has been laid before |
| `Overlay.FitsEntryByEntry` | lib/lib/src/composefs/overlay.rs:67-86 | a directory fits exactly if each of its entries does |
| `Overlay.LayersShow` | lib/lib/src/composefs/overlay.rs:63-92 | the overlay's nodes show, nothing shows below its leaves, everything else is the base's; what makes it fail |
| `Overlay.LayeringIsIdempotent` | lib/lib/src/composefs/overlay.rs:63-92 | laying the same tree again changes nothing and cannot fail |
| `UpperOverlay.ApplyOverlayUpper` | lib/lib/src/composefs/overlay.rs:18-61 | whiteouts hide, opaque directories replace, directories merge, files replace, in any reading order; fails exactly if a plain directory lands on a visible leaf |
| `UpperOverlay.Recurse` | lib/lib/src/composefs/overlay.rs:21-58 | the same for one directory |
| `UpperOverlay.ApplyEntry` | lib/lib/src/composefs/overlay.rs:26-55 | the same for one entry, whatever has been applied before |
| `UpperOverlay.FitsEveryEntry` | lib/lib/src/composefs/overlay.rs:26-55 | a directory can be applied exactly if each of its entries can |
| `UpperOverlay.MountShows` | lib/lib/src/composefs/overlay.rs:18-61 | entry kind by entry kind, what is visible at a path, what is hidden below a whiteout, a file or an opaque directory, and where the source refuses |
| `UpperOverlay.LookupFollowsEntries` | lib/lib/src/composefs/overlay.rs:21-58 | a path is looked up entry by entry |
| `Removals.RemoveAll` | lib/lib/src/mutated/update/merge.rs:56-60 | removing paths in order succeeds exactly if each parent is there and not below an earlier path; then exactly these subtrees are gone |
| `Removals.RemovableNext` | lib/lib/src/mutated/update/merge.rs:56-60 | one more path can be removed exactly if its parent survived the others |
| `Removals.CutShows` | lib/lib/src/mutated/update/merge.rs:56-60 | the removed paths and everything below them are gone, all else is as it was; when every removal finds its parent |
| `ConfigStep.NextConfig` | lib/lib/src/mutated/update/merge.rs:49-63 | succeeds exactly if the upper directory, the removals, the new defaults and the merge each go through, the trees in between being determined by base, upper directory, removed paths and defaults; yields their pointwise merge and the exact conflicts |
| `ConfigStep.UserFileSurvives` | lib/lib/src/mutated/update/merge.rs:49-63 | a regular file or link the user wrote, new or with other content than before, is in the next configuration, whatever packages bring |
| `ConfigStep.UserDeletionHolds` | lib/lib/src/mutated/installer/merge.rs:47-66 | for both settings of the flag: a file the user deleted is absent unless the packages changed it too; then their node is there, save for a copy of a conflicting file, and it is a conflict exactly if they wrote it |
| `ConfigStep.PackagesDecideElsewhere` | lib/lib/src/mutated/installer/merge.rs:47-66 | for both settings of the flag: where the upper directory says nothing the result is the packages', save for copies of conflicting files, and nothing conflicts |
| `ConfigStep.ShadowedHoldsCopy` | lib/lib/src/config/merge.rs:43-45 | what such a copy makes of a path: the packages' version of the conflicting file, or nothing below it |
| `ConfigStep.UninstallOnlyRemoves` | lib/lib/src/mutated/uninstaller/merge.rs:45-59 | uninstalling makes no conflicts and no copies; untouched paths hold the base without the removed files |
| `Disk.LastWriteWins` | lib/lib/src/fs.rs:26-35 | after any writes each path holds its last content |
| `Disk.UndoneWrites` | lib/lib/src/fs.rs:25-72 | what every path holds after any writes and their last-first undoing |
| `Disk.WritesUndoExactly` | lib/lib/src/fs.rs:60-72 | undo restores the disk if and only if no written path was a symbolic link |
| `Disk.StepEffect` | lib/lib/src/scripts/primitive.rs:66-118 | what each primitive achieves, and that it leaves other paths alone |
| `Disk.WhenRefused` | lib/lib/src/scripts/primitive.rs:66-118 | a touch is refused exactly for a loop of links, a move exactly for a missing source, a link exactly where something is |
| `Disk.WhenNotUndone` | lib/lib/src/scripts/primitive.rs:66-118 | on any disk: when rolling back a primitive fails, and what it does otherwise |
| `Disk.RunStepsTrace` | lib/lib/src/scripts/file.rs:61-73 | steps go through the disks of a trace that ends exactly at the first step refused in the state its predecessors leave; the run is complete exactly if the trace is |
| `Disk.StepUndo` | lib/lib/src/scripts/primitive.rs:66-118 | rolling back one executed step gives back the disk exactly if the step lost nothing |
| `Disk.StepsUndoExactly` | lib/lib/src/scripts/primitive.rs:48-56 | rolling back all executed steps gives back the disk exactly if none lost anything |
| `Disk.DiskState.WriteAll` | lib/lib/src/fs.rs:16-23 | a group of writes and what is needed to undo it |
| `Disk.DiskState.RollbackWrites` | lib/lib/src/fs.rs:60-72 | pops and restores every written file, last first |
| `Disk.DiskState.RollbackSteps` | lib/lib/src/scripts/primitive.rs:48-56 | pops and rolls back steps, last first, stopping at the first that fails |
| `Disk.DiskState.RunHook` | lib/lib/src/scripts/file.rs:53-77 | fails exactly if the hook is critical and a step is refused in the state its predecessors leave; otherwise the disk is the last of the trace and every executed step is kept for undo; a failing hook whose steps lose nothing leaves the disk unchanged |
| `Orchestrator.Cursor.Find` | lib/lib/src/orchestrator/cursor.rs:28-33 | the nearest earlier stage of the type, or there is none |
| `Orchestrator.Cursor.MoveBy` | lib/lib/src/orchestrator/cursor.rs:51-62 | advances, stays, or jumps strictly back to the nearest such stage |
| `Orchestrator.Cursor.Next` | lib/lib/src/orchestrator/cursor.rs:37-49 | what runs next; a missing target and a cancellation unwind everything |
| `Orchestrator.Context.Unwind` | lib/lib/src/orchestrator/mod.rs:144-148 | every guard is rolled back once, last first, and the stack is empty |
| `Orchestrator.Context.RunHooks` | lib/lib/src/orchestrator/mod.rs:285-310 | the disk and the guards are exactly those of the hooks in order; it fails exactly if a critical hook is refused a step, and then everything is unwound |
| `Orchestrator.HooksRunInOrder` | lib/lib/src/orchestrator/mod.rs:285-310 | every hook of a list is run on the disk the one before left, with one guard for its executed steps, up to a critical one that is refused a step; it fails exactly then |
| `Orchestrator.SequentialOrchestrator.RunStage` | lib/lib/src/orchestrator/mod.rs:224-243 | the disk, the guards and the outcome are exactly those of the turn; on failure everything has been unwound |
| `Orchestrator.TurnGoesThrough` | lib/lib/src/orchestrator/mod.rs:224-243 | an execution goes through exactly if neither it nor a hook fails; what it writes and which guards it hands over in each case |
| `Orchestrator.SequentialOrchestrator.Run` | lib/lib/src/orchestrator/mod.rs:209-222 | for every script: the visited stages follow the results; disk, stack and handed guards are exactly those of the executed turns; a failure, for each of its three reasons, rolls each guard back once, last first, and leaves the disk before the run with exactly the writes made without a guard, if the rest was reversible |
| `Orchestrator.RunGoesThrough` | lib/lib/src/orchestrator/mod.rs:209-222 | executions happen one after the other, each on the disk the one before left; all must go through, and the guards are theirs in order |
| `Orchestrator.RunUndone` | lib/lib/src/orchestrator/mod.rs:144-148 | unwinding a run of reversible executions takes back everything except exactly the writes made without a guard; a sufficient condition |
| `Orchestrator.WritingRunUndoneExactly` | lib/lib/src/fs.rs:60-72 | a run that only writes files under guards is undone if and only if none of them was a symbolic link before the run |
| `Orchestrator.ReversibleIsNotNeeded` | lib/lib/src/scripts/primitive.rs:110-118 | with hooks, a run can be undone although one of its executions was not reversible |
| `Orchestrator.TurnUndone` | lib/lib/src/orchestrator/mod.rs:230-243 | unwinding one reversible execution leaves exactly its unguarded writes |
| `Orchestrator.LooseWritesStay` | lib/lib/src/database/record.rs:85-87 | unguarded writes to paths no guard is about survive the unwinding unchanged |
| `Orchestrator.HooksUndone` | lib/lib/src/scripts/file.rs:53-77 | unwinding hooks that lost nothing gives back the disk, failing critical hook included |
| `Orchestrator.Validate` | lib/lib/src/orchestrator/mod.rs:174-186 | passes exactly if every stage finds what it needs among the initial slots and what earlier stages provide |
| `Orchestrator.AvailableIs` | lib/lib/src/orchestrator/mod.rs:174-186 | available to a stage is what is there at the start or provided by an earlier stage, not what it provides itself |
| `Pipeline.RunAsScript` | lib/lib/src/orchestrator/mod.rs:209-222 | a pipeline of queue stages, run by the orchestrator, finishes having executed each stage once for each item of its queue, or fails at the first empty queue |
| `Pipeline.RunQueues` | lib/lib/src/mutated/gc/collect.rs:27-47 | the stages themselves give exactly these turns and report exactly their items |
| `Pipeline.WalkIsForced` | lib/lib/src/orchestrator/cursor.rs:51-62 | results that only advance or repeat leave the cursor no choice |
| `Pipeline.ReportsInOrder` | lib/lib/src/mutated/gc/collect.rs:27-47 | a queue stage handles every item once, in queue order |
| `Pipeline.ProgressIsSound` | lib/lib/src/mutated/update/import.rs:115-123 | progress is reported exactly once for each place of each queue, never past the total |
| `Deploys.StepKeepsInvariant` | lib/lib/src/database/record.rs:54-134 | every operation keeps records well formed and everything they refer to in the store |
| `Deploys.EveryRunKeepsImages` | lib/lib/src/mutated/gc/collect.rs:27-50 | in every interleaving of operations, including runs that fail before, during or after their retention pass, each surviving record's images and configurations stay in the store |
| `Deploys.RecordsContinue` | lib/lib/src/database/record.rs:54-69 | a surviving record's history only grows at the end; it can only lose a working configuration its history lacks |
| `Deploys.CreatedRecords` | lib/lib/src/mutated/installer/merge.rs:76-106 | merge stages create records whose working configuration is in their history; committing files copies the booted deploy's |
| `Deploys.MergeRecords` | lib/lib/src/mutated/update/merge.rs:72-101 | the whole record a merge leaves: the merged configuration in use and last in the history unless it was in use, a new record with subject, message, time and number; all other records as they were |
| `Deploys.RefusedMerge` | lib/lib/src/mutated/update/merge.rs:31-63 | a merge that cannot open the configuration in use changes no record |
| `Deploys.FilesRecords` | lib/lib/src/mutated/files/commit.rs:55-89 | the whole record a files commit makes: history and working configuration are the booted record's |
| `Deploys.ConfigRecords` | lib/lib/src/mutated/commit/transaction.rs:24-58 | the whole booted record after a configuration commit, the others as they were |
| `Deploys.RollbackRecords` | lib/lib/src/mutated/rollback/merge.rs:17-38 | after a rollback the record works with the requested configuration; history, order, pin and every other record are kept |
| `Deploys.PinRecords` | lib/lib/src/mutated/pin/stage.rs:19-36 | the pin has the requested value and nothing else changed |
| `Deploys.RefusedEvents` | lib/lib/src/database/record.rs:104-142 | the commits, rollbacks and pins that change no record |
| `Deploys.UnwoundRecords` | lib/lib/src/database/record.rs:48-52 | after an unwound event the records are the earlier ones, in the directories that are still there; images, directories and sequence numbers stay |
| `Deploys.HistoriesGrow` | lib/lib/src/database/record.rs:54-69 | the same over whole runs |
| `Deploys.GenesisConfigIsLost` | lib/setup/src/genesis/deploy.rs:42-51 | the genesis configuration is gone after one commit and one collection |
| `Deploys.SequenceNumbersIncrease` | lib/lib/src/database/record.rs:78-88 | numbers handed out strictly increase over every run, failed operations included |
| `Deploys.PruneIsIdempotent` | lib/lib/src/deploy/mod.rs:121-162 | a second retention pass removes nothing |
| `Deploys.PruneRecords` | lib/lib/src/deploy/mod.rs:121-162 | on sequence numbers: which deploys a retention pass removes, the others as they were |
| `Deploys.InterruptedRecords` | lib/lib/src/deploy/mod.rs:151-161 | a pass that failed part of the way has removed those it reached |
| `Deploys.CollectedImages` | lib/lib/src/mutated/gc/cleaning.rs:17-29 | the images a collection keeps: system images, working configurations and histories of the deploys left, and what the repository refers to |
| `Deploys.TargetSurvives` | lib/lib/src/deploy/mod.rs:121-162 | for merges, file commits and rollbacks and every depth, 0 included: the deploy a run puts in place survives the retention pass that ends the run exactly if it was kept already, or is new and the depth is at least one or it is booted |
| `Deploys.StagedDeployCanBeRemoved` | lib/lib/src/mutated/rollback/mod.rs:94-107 | of three deploys, the oldest is removed by the very run that merges into it or rolls back to it |
| `Deploys.NothingNewSurvivesDepthZero` | lib/types/src/settings.rs:13-22 | at depth 0 a new deploy that is not booted is removed by its own run |
| `Deploys.RestoredKeepsInvariant` | lib/lib/src/database/record.rs:48-52 | putting earlier records back after a retention pass keeps everything they refer to |
| `Sysroot.Sysroot.ReadAll` | lib/lib/src/database/record.rs:90-102 | every record once, directories without one skipped |
| `Sysroot.Sysroot.FailRun` | lib/lib/src/orchestrator/mod.rs:144-148 | the end of a failed run, before, during or after its retention pass: exactly the earlier records are back, in the directories that are still there |
| `Sysroot.Sysroot.SetWorkingConfig` | lib/lib/src/database/record.rs:54-69 | the record with its new configuration, undoable; nothing if it is the one in use |
| `RecordFiles.RecordIsWritten` | lib/lib/src/database/record.rs:48-52 | writing a record's file is writing the record, its guard remembers the record before, and restoring the file restores the records |
| `RecordFiles.TurnPerformsEvent` | lib/lib/src/mutated/update/merge.rs:72-101 | the guarded write of a stage does to the record files what its event does to the records, and is reversible |
| `RecordFiles.FailedRunRestoresRecords` | lib/lib/src/orchestrator/mod.rs:224-243 | a failed run of the orchestrator leaves on the disk the records that the state machine has after the unwound event |
| `Sysroot.Sysroot.MergeStage` | lib/lib/src/mutated/update/merge.rs:72-101 | performs the merge step of the state machine, with a guard that undoes the record |
| `Sysroot.Sysroot.CommitFiles` | lib/lib/src/mutated/files/commit.rs:55-89 | performs the files step, with a guard that undoes the record |
| `Sysroot.Sysroot.CommitConfig` | lib/lib/src/mutated/commit/transaction.rs:24-58 | performs the configuration commit, with a guard that undoes the record |
| `Sysroot.Sysroot.ResolveConfigDigest` | lib/lib/src/database/record.rs:104-142 | finds an owner exactly if there is one, and what it returns can be opened |
| `Sysroot.Sysroot.RollbackTo` | lib/lib/src/mutated/rollback/merge.rs:17-38 | None exactly if no record refers to the requested configuration; otherwise the owner's record works with it, all else is as it was, and a guard undoes the record |
| `Sysroot.Sysroot.SetPinned` | lib/lib/src/mutated/pin/stage.rs:19-36 | the record has the requested pin and nothing else changed, with a guard that undoes the record |
| `Sysroot.SortNewestFirst` | lib/lib/src/deploy/mod.rs:124-125 | the same records, newest first |
| `Sysroot.PlaceIsRule` | lib/lib/src/deploy/mod.rs:127-149 | being kept by place in the sorted list is being kept by the rule on sequence numbers |
| `Sysroot.KeepSet` | lib/lib/src/deploy/mod.rs:127-149 | the keep set is what is kept by place |
| `Sysroot.Sysroot.PruneDeploys` | lib/lib/src/deploy/mod.rs:121-162 | removes exactly the records that are not booted, next older to it, pinned or among the newest, newest first; if a removal fails, those before it are gone |
| `Sysroot.Sysroot.CollectRoots` | lib/lib/src/mutated/gc/collect.rs:18-53 | in any order, collects exactly what the records of all deploys refer to; fails exactly if a directory has no record or none is left |
| `Sysroot.Sysroot.CollectGarbage` | lib/lib/src/mutated/gc/cleaning.rs:17-29 | prunes, collects the roots and keeps exactly what they or the repository refer to |
| `Versions.ParseSaturating` | lib/types/src/lib.rs:142-142 | the decimal value, or the largest 64-bit number; what that means for digits is in the next rows |
| `Versions.NumberIsOneToken` | lib/types/src/lib.rs:137-143 | the usual digits of a number, behind any leading zeros, are that number as a token, or the largest 64-bit number if that is smaller |
| `Versions.NextDigit` | lib/types/src/lib.rs:142-142 | one more digit multiplies the number by ten and adds the digit, up to the same bound |
| `Versions.DigitsOfDecimal` | lib/types/src/lib.rs:142-142 | every run of digits is the digits of its value behind leading zeros |
| `Versions.RunsByCharacters` | lib/types/src/lib.rs:131-151 | the runs are the longest stretches of the characters 0 to 9, or of the letters |
| `Versions.TokensByCharacters` | lib/types/src/lib.rs:126-154 | the token of each run of any text: the word it is, or the number it spells |
| `Versions.WordIsOneToken` | lib/types/src/lib.rs:131-148 | a text of letters is one word, a text without letters and digits has no tokens |
| `Versions.Tokenize` | lib/types/src/lib.rs:126-154 | the tokens are those of all maximal digit and letter runs, in order |
| `Versions.RunsAreUnique` | lib/types/src/lib.rs:126-154 | a text has only one list of maximal runs |
| `Versions.TokensAreUnique` | lib/types/src/lib.rs:126-154 | hence only one list of tokens |
| `Versions.Cmp` | lib/types/src/lib.rs:97-122 | the loop computes the order |
| `Versions.TenIsNewerThanNine` | lib/types/src/lib.rs:97-122 | 1.10 is newer than 1.9, and ties with 1.010 |
| `Versions.OlderIsFirstDifference` | lib/types/src/lib.rs:97-122 | a version is older exactly by epoch or by the first different token: words before numbers, numbers by value, words bytewise, an ended version before a number and after a word |
| `Versions.CompareIsAntisymmetric` | lib/types/src/lib.rs:97-122 | swapping swaps; ties are exactly equal epoch and equal tokens |
| `Versions.CompareIsTransitive` | lib/types/src/lib.rs:97-122 | the order is transitive, also in its strict part |
| `Versions.TiesNeedNotBeEqual` | lib/types/src/lib.rs:50-54 | tied versions can be different values |
| `Codec.NumberComesBack` | lib/types/src/codec.rs:94-100 | little-endian bytes give back the number |
| `Codec.PlainLayouts` | lib/types/src/codec.rs:90-122 | the bytes of numbers, flags, scopes, texts and optional texts, one by one: lowest byte first, one byte for flag and scope |
| `Codec.FlagsAreRead` | lib/types/src/codec.rs:51-72 | any byte but zero is true; only the byte one is the configuration scope or announces a value |
| `Codec.TextIsLawful` | lib/types/src/codec.rs:102-105 | a text comes back if and only if its length fits in 32 bits |
| `Codec.FlagsAreLawful` | lib/types/src/codec.rs:90-122 | flags and scopes come back |
| `Codec.OptionIsLawful` | lib/types/src/codec.rs:51-72 | options of a lawful codec are lawful |
| `Codec.VecIsLawful` | lib/types/src/codec.rs:74-88 | lists of a lawful codec are lawful, the count included |
| `Codec.ListLayout` | lib/types/src/codec.rs:74-88 | a list is its length in four bytes and then its elements in order |
| `Codec.BothIsLawful` | lib/macro/src/redb_codec/mod.rs:58-74 | fields written one after the other are lawful if each is |
| `Codec.ViaIsLawful` | lib/macro/src/redb_codec/mod.rs:58-74 | a struct is as lawful as its fields |
| `Codec.VersionIsLawful` | lib/types/src/lib.rs:50-54 | versions come back if and only if the raw text is short |
| `Codec.FileEntryIsLawful` | lib/types/src/lib.rs:245-250 | file entries come back if and only if the path is short |
| `Codec.TriggerIsLawful` | lib/types/src/lib.rs:163-167 | triggers come back if and only if all texts and the list are short |
| `Codec.MetaIsLawful` | lib/types/src/lib.rs:190-203 | package rows come back if and only if all texts are short |
| `Codec.FieldsInOrder` | lib/macro/src/redb_codec/mod.rs:58-74 | the fields of versions, file entries and triggers stand in declaration order, nothing between them |
| `Codec.MetaInOrder` | lib/types/src/lib.rs:190-203 | the ten fields of a package row in declaration order |
| `Codec.ComesBackAnywhere` | lib/types/src/codec.rs:6-9 | at any offset inside any bytes the value is read back, advancing by its own length, if and only if it fits |
| `Codec.EncodingsArePrefixFree` | lib/types/src/codec.rs:6-9 | what follows an encoding cannot change the value read |
| `Codec.IdentityIsInjective` | lib/lib/src/database/meta.rs:21-29 | the identity buffer determines name, architecture and sub-architecture |
| `Codec.IdentityLayout` | lib/lib/src/database/meta.rs:21-29 | the identity buffer byte by byte: lengths, name, architecture, and one byte before an optional sub-architecture |
| `Codec.Writer.WriteLenPrefixed` | lib/types/src/codec.rs:102-105 | appends exactly the encoding of the text |
| `Codec.Writer.WriteOptStr` | lib/types/src/codec.rs:107-115 | appends exactly the encoding of the optional text |
| `Codec.Writer.WriteVec` | lib/types/src/codec.rs:75-81 | the loop appends exactly the encoding of the list |
| `Codec.Writer.WriteFileEntry` | lib/macro/src/redb_codec/mod.rs:61-63 | field by field, appends exactly the encoding of the entry |
| `Codec.Writer.WriteTrigger` | lib/macro/src/redb_codec/mod.rs:61-63 | the same for triggers |
| `Codec.Writer.WriteMeta` | lib/macro/src/redb_codec/mod.rs:61-63 | the same for package rows |
| `Codec.Writer.WriteIdentity` | lib/lib/src/database/meta.rs:22-26 | builds exactly the identity buffer |
| `Codec.Reader.ReadStr` | lib/types/src/codec.rs:138-149 | reads as the decoder says, or panics as it says |
| `Codec.Reader.ReadOption` | lib/types/src/codec.rs:62-72 | the same for options of any codec |
| `Codec.Reader.ReadVec` | lib/types/src/codec.rs:83-88 | the loop reads as the decoder of lists says |
| `Codec.Reader.ReadFileEntry` | lib/macro/src/redb_codec/mod.rs:65-71 | field by field, as the decoder of entries says |
| `Codec.Reader.ReadTrigger` | lib/macro/src/redb_codec/mod.rs:65-71 | the same for triggers |
| `Codec.Reader.ReadMeta` | lib/macro/src/redb_codec/mod.rs:65-71 | the same for package rows |
| `Database.StepStaysSound` | lib/lib/src/database/files.rs:80-147 | every operation keeps rows keyed by their path and index entries leading to rows |
| `Database.EveryRunIsSound` | lib/lib/src/database/files.rs:80-147 | from any sound state every run ends in one |
| `Database.ReachableIsSound` | lib/lib/src/database/mod.rs:69-75 | in every state reachable from the empty database no index entry dangles |
| `Database.ReachableAgrees` | lib/lib/src/database/mod.rs:69-75 | in every state reachable without taking a path or an identity the tables agree both ways |
| `Database.PathsStayAgreed` | lib/lib/src/database/files.rs:81-102 | agreement of rows and paths is lost exactly by an insertion that takes another package's path |
| `Database.NamesStayAgreed` | lib/lib/src/database/meta.rs:82-135 | agreement of packages and identities is lost exactly by inserting an identity that is there |
| `Database.EveryRunAgrees` | lib/lib/src/database/meta.rs:82-135 | without such insertions the tables agree both ways throughout |
| `Database.OwnerIsTheOne` | lib/lib/src/database/files.rs:38-43 | under agreement the owner found is the package that has the row |
| `Database.PackageIsTheOne` | lib/lib/src/database/meta.rs:53-58 | under agreement the package found is the one with that identity |
| `Database.SharedPathIsForgotten` | lib/lib/src/database/files.rs:108-126 | removing one of two rows of a path leaves the other without an index entry |
| `Database.UserRowSurvivesStep` | lib/lib/src/database/files.rs:81-147 | a user row disappears exactly by being removed as one, and is never overwritten |
| `Database.UserRowSurvives` | lib/lib/src/database/files.rs:81-147 | the same over every run |
| `Database.AttributionIsTheOne` | lib/lib/src/database/attribution.rs:17-38 | under agreement a file is attributed exactly to the installed package that has it |
| `Database.MemoryDatabase.RowsFrom` | lib/lib/src/database/files.rs:50-50 | the keys from a package's first possible one on, in key order |
| `Database.MemoryDatabase.ListPackageFiles` | lib/lib/src/database/files.rs:45-62 | the scan that stops at the first foreign row returns exactly the package's rows, in hash order |
| `Database.MemoryDatabase.InsertPackageFile` | lib/lib/src/database/files.rs:81-102 | row and index entry are the given ones, unless the row is the user's: then nothing changes |
| `Database.MemoryDatabase.InsertPackageMeta` | lib/lib/src/database/meta.rs:82-95 | row and index entry are the given ones |
| `Database.MemoryDatabase.RemovePackageFile` | lib/lib/src/database/files.rs:108-126 | row and index entry go and nothing else; not found exactly if there is no row, denied exactly if it is the user's, and then nothing changes |
| `Database.MemoryDatabase.RemoveUserFile` | lib/lib/src/database/files.rs:128-147 | the same for user rows: denied exactly if the row is not the user's |
| `Database.MemoryDatabase.UpdatePackageMeta` | lib/lib/src/database/meta.rs:97-111 | replaces the row of the identity, or fails |
| `Database.MemoryDatabase.RemovePackageMeta` | lib/lib/src/database/meta.rs:113-135 | removes row and entry together, or neither |
| `Database.MemoryDatabase.AttributeFile` | lib/lib/src/database/attribution.rs:18-37 | the chain of lookups and the search find the row the index leads to |
| `Import.ImportDirectory` | lib/lib/src/composefs/file.rs:212-246 | in any reading order: each entry of the source is in the tree with nothing else in its place, every other path is as it was, and the files are listed once each |
| `Import.ImportEntry` | lib/lib/src/composefs/file.rs:222-242 | the same for one entry, whatever has been imported before |
| `Import.FileSurvivesImport` | lib/lib/src/composefs/file.rs:230-233 | a file of the tree survives exactly if its topmost directory is not in the source or the source has the same file |
| `Import.ImportShows` | lib/lib/src/composefs/file.rs:212-246 | what is found at each path after an import, from what the source has there, and that exactly the files are listed, symbolic links included |
| `Import.FindFollowsEntries` | lib/lib/src/composefs/file.rs:212-246 | a path is found in the source entry by entry |
| `Packages.RemovePackage` | lib/lib/src/mutated/uninstaller/remove.rs:35-88 | how it ends, for every database: no row is ever missing or refused; leaves exactly the specified tables, tree and configuration paths |
| `Packages.RemoveNextRow` | lib/lib/src/mutated/uninstaller/remove.rs:45-64 | one round of its loop |
| `Packages.WhatRemovalLeaves` | lib/lib/src/mutated/uninstaller/remove.rs:35-88 | only the user's rows remain, or none; no package, identity or triggers; other packages are untouched even where paths are shared |
| `Packages.RemovalKeepsAgreement` | lib/lib/src/mutated/uninstaller/remove.rs:35-88 | no index entry dangles afterwards, and agreement is kept where there was any |
| `Packages.UninstallPackage` | lib/lib/src/mutated/uninstaller/preparation.rs:38-44 | looked up by identity; goes through exactly if its files can be removed in order; then its package row and triggers are gone, of its rows only the user's remain or none, and the tree has lost exactly its files |
| `Packages.ConfigPathsAre` | lib/lib/src/mutated/uninstaller/remove.rs:54-56 | the collected paths are exactly the removed configuration files |
| `Packages.TreePathsAre` | lib/lib/src/mutated/uninstaller/remove.rs:45-64 | the paths that leave the tree are exactly those of the leaving system files |
| `Packages.ReplacePackage` | lib/lib/src/mutated/update/import.rs:44-113 | refuses unknown packages, downgrades and packages with user files, each exactly then; otherwise the package row and triggers are the new ones under the old uuid and identity, the rows are those of the new files, and both trees hold the new files over what the removal left |
| `Packages.TakeIn` | lib/lib/src/mutated/update/import.rs:76-88 | both directories are imported and listed; only a cancellation stops it |
| `Packages.ImportKeepsOthers` | lib/lib/src/mutated/update/import.rs:78-79 | a file the package does not bring is gone after its import exactly if its topmost directory is one of the package's |
| `Packages.ImportBringsFiles` | lib/lib/src/mutated/update/import.rs:76-88 | every file of the package's two directories is in its tree with its content and is listed |
| `Packages.RemoveOldFiles` | lib/lib/src/mutated/update/import.rs:61-74 | goes through exactly if no row is the user's and the files can be removed in order |
| `Packages.RemoveOldRow` | lib/lib/src/mutated/update/import.rs:63-74 | one round of its loop |
| `Packages.RowsOfReplaced` | lib/lib/src/mutated/update/import.rs:93-113 | the package row and triggers are the new ones, the identity index is kept, there is exactly one row for each imported path with the scope it was imported last under, and rows of other packages are untouched |
| `Packages.SystemRowsAreKept` | lib/lib/src/mutated/update/import.rs:93-113 | every system file has its row exactly if no configuration file has its path |
| `Packages.RowsOfInstalled` | lib/lib/src/mutated/installer/import.rs:64-87 | package row and triggers are the given ones, there is exactly one row for each imported path, and rows of other packages are untouched |
| `Packages.InstallPackage` | lib/lib/src/mutated/installer/import.rs:64-87 | only a cancellation stops it; otherwise row, identity entry and triggers are the package's under the new uuid and both trees hold its files |
| `Packages.InsertFiles` | lib/lib/src/mutated/update/import.rs:93-102 | the loop inserts the paths in order |
| `PackageHistory.EveryHistoryIsSound` | lib/lib/src/mutated/update/import.rs:44-113 | whatever is installed, upgraded and removed, no index entry dangles |
| `PackageHistory.VersionAfterOne` | lib/lib/src/mutated/update/import.rs:48-59 | no operation takes a package's version back |
| `PackageHistory.VersionsNeverGoBack` | lib/lib/src/mutated/update/import.rs:48-59 | over any history without allowed downgrades an installed package's version never decreases |
| `PackageHistory.InstallAgrees` | lib/lib/src/mutated/installer/import.rs:64-87 | installing keeps the tables agreed exactly if it takes no path and no identity |
| `PackageHistory.ReplaceAgrees` | lib/lib/src/mutated/update/import.rs:61-113 | upgrading keeps them agreed exactly if it takes no path |
| `PackageHistory.EveryHistoryAgrees` | lib/lib/src/mutated/uninstaller/remove.rs:35-88 | without clashes every history keeps rows and packages the ones their indexes lead to |

## Left out

- The composefs crate's directory operations (splitting a path, inserting with replacement, removing a missing entry
  without error, the error kinds) are taken as `Trees` states them; composefs is not part of this model.
- The object store, EROFS images, redb and hash functions: a store is a set of digests, a transaction that is not
  committed changes nothing, and hashes of paths and identities are injective where a lemma says so.
- Orchestrator.Context.RunHooks: hooks run one after the other; the parallel runner lets them interleave, and on an
  early return drops the guards of hooks still running.
- Orchestrator.SequentialOrchestrator.RunStage: what a stage does to the disk is a list of unguarded writes followed by
  guarded writes or hooks; unguarded removals, the typed slots of the context and the progress messages are not
  modelled.
- Rollback errors: restoring a written file always succeeds; a step that cannot be rolled back ends the rollback of
  its own guard only.
- Directories, permissions, hard links, directory-level symbolic links and concurrent writers on the disk.
- Paths inside trees are sequences of components; `.`, `..`, repeated separators and names that are not UTF-8 are not
  modelled, nor are lossy conversions.
- Deploys.SequenceNumbersIncrease: the counter is unbounded; an unreadable or malformed counter file is not modelled.
- RecordFiles.FailedRunRestoresRecords: only failures before a retention pass, since turns have no removal of directories;
  `FailRun` covers the others.
- Sysroot.Sysroot.PruneDeploys: a removal that fails removes nothing of its directory; the booted digest and the depth
  are inputs.
- Sysroot.Sysroot.MergeStage: the digests of the new system image and of the merged configuration are inputs; how they
  come about is in `ConfigStep`.
- Packages.ReplacePackage: how a stored path splits into components and how components join are parameters; what a
  stopped import leaves in the working trees, which the failed run discards, is not described.
- Packages.InstallPackage: a new uuid is an input that no installed package has.
- Codec.TextIsLawful: texts are byte sequences; decoding bytes that are not UTF-8 with replacement characters is not
  modelled, since every encoded text is UTF-8.
- Codec.Reader.ReadStr: the same replacement is left out of reading.
- Pipeline.RunAsScript: queue stages hand over no guard, as in the source; queues are given at the start, not filled by
  earlier stages, and the run is not cancelled.
- PackageHistory.VersionsNeverGoBack: only packages that stay installed; a package that is removed and installed again
  has another uuid.
- `Version::parse`, `symlink_target_in_tree`, `stat_in_tree`, `read_file` and the listing of all
  files or packages: lookups and library calls that would only add easy members.
- The C ABI, mounts, boot entries, the lock, signing, archive decoders, localisation and the command line.
