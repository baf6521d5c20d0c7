# githttp-fs in Dafny

A model of githttp-fs, a service that keeps every tenant's files in a git repository of its own and serves them over
HTTP, and proofs about what it promises. `dafny verify dfyconfig.toml` checks the project.

What is modelled, file by file:

- **Trees and operations** (`Trees`, `Operations`, `Commits`, `Effects`, `Success`, `Labels`, `History`). A tenant is a
  finite map from path to blob. Every committing operation (writing, deleting and moving files and folders, the order
  index routes, revert and rollback) returns the updated tree and the list of changes it reports; when it goes through
  and what it does are stated path by path. The main result follows a receiver that applies the hook events of every
  commit over a whole history of requests: its two tables, files and orders, always hold exactly what HEAD shows.
- **Hooks** (`HookJob`, `HookQueue`, `HookDelivery`). How a commit's changes become events, the per-repository queue
  with commits, replays, losses, crashes and drift interleaved, and a replay's content read when its chunk is delivered.
  The main result is that two replays repair any drift.
- **Order index and traversal** (`OrderIndex`, `OrderRendering`, `Traverse`, `Sorting`). Ranking by a stored index,
  moving one entry inside it, and the order paths are delivered in.
- **Listings** (`BuildTree`, `Search`, `Subtrees`, `Listing`, `ListingOrder`, `Dates`, `Seek`). Building a nested
  listing from flat paths, the one-variable name search, the paged listing that opens no off-page folder, dates read off
  history, and the line window of a file read.
- **Replication** (`Objects`, `PackImport`, `RepositoryIndex`, `Follower`, `DrainOutcome`, `Convergence`, `ReplicaRun`,
  `Worker`, `Bootstrap`). Packs over the object graph, the import with a crash possible after any step, the head index
  under concurrent scans, and the replica's reconcile, drain, locks, deletion guard, bootstrap gate and loop. The main
  results are over a replica's whole life, with frames, polls, drains, crashes, restarts and maintenance in any order:
  what it holds is always whole, nothing is deleted that a complete listing did not leave out, one pass makes up for
  whatever was missed, and a cold replica opens for reads only when what was listed has been seen to or its catch-up has
  stalled.
- **Maintenance** (`Repack`). The consolidating repack as a sequence of file operations that may stop anywhere.

Code that changes things step by step is a method, or a class with those fields, proved against a function of its inputs or
of the old state; the properties are lemmas about that function. A state machine's steps are a predicate `Next`, and its
results hold over every sequence of steps.

A commit, tree or blob is its own content, so equal ids are equal objects and history has no cycles. A JSON order document
is a blob that parses to its order; `serialize` writes one spelling of it. What libgit2 answers along the way (a subtree
walk, a diff with its rename pairs, a directory listing) is a parameter constrained by what it must mean, and rename pairing
is arbitrary.

## Where the code does less than its comments say

Each of these is a lemma; the property is proved in the exact form the code does meet.

- A revert removes a whole folder when one now sits at a path the commit had added (with `checkout_files` off), and reports
  the removal of one file: `RevertRestoresIff`, `RevertMirrorsIff`, `RevertOntoFolderDropsIt`, `RevertOntoFolderKeepsRow`.
- A hook job loses an order event when an index that parsed is overwritten by one that does not, and a rename that pairs an
  index with an ordinary file is classified by its destination alone: `JobMirrorsIffClassified`.
- Replays never erase an order row: `NoReplayErasesOrders`.
- A reorder writes `guides-old` before `guides` where the listing shows them the other way round:
  `ReorderKeepsRenderedIff`, `OldSiblingChangesPlaces`.
- Unlisting an entry that is not listed commits all the same where the folder's index file is empty, does not parse, or is
  spelled otherwise than this service spells it: `UnlistUnlistedIff`.
- A revert labels its changes by what the reverted commit did, not by what HEAD holds, so it may report a creation of a file
  that is there: `RevertTruthfulIff`.
- A rename loses its place in the index when a stale earlier entry already spells the new name: `RenameKeepsPlaceIff`.
- A removal leaves no mark in the repository index, so a scan under way lists the repository again, at an older head than
  the listing had shown, and two scans at once can drop one that exists: `ListedHeadsGrow`, `RemovedDuringScanComesBack`,
  `OverlappingScansLoseOne`.
- A commit that an interrupted import stored, but did not move HEAD to, is taken for a fork; the repository is locked and
  polling never lifts the lock while the master stays at that commit: `RelationMisjudgesIff`, `InterruptedImportLocks`,
  `StuckUntilMasterMoves`. Interrupted imports, and answers that do not name the commit their pack was built for, are the
  only causes: `UninterruptedLifeConverges`.
- A local copy an operator removes is only missed if the repository was locked; one in step stays listed in the index and
  is not cloned again until the index is rescanned: `LockedRemovalReclones`, `RemovedInStepStays`.
- A late frame for an older commit locks a repository that is in step: `LateFrameLocks`.
- A deletion queued before a drain was held back is not withdrawn by a later listing, so two listings that each delete half
  can delete everything under the guard, which otherwise bounds the loss: `GuardBoundsLoss`, `HeldBackDrainDefeatsGuard`.
- A destructive prune overlooks what a reference leads to short of a commit, such as the inner tag of a tag of a tag:
  `PruneHonoursRefsIff`, `NestedTagPruned`.
- A folder holding nothing but its order index has a row at the root of a listing and none further down: `SubtreeFolderIff`,
  `BareFolderShownAtRootOnly`.
- A creation date from a walk that ran out of its budget may be too late: `CreatedIsFinalIff`.

## Model

| member | source | states |
|---|---|---|
| `Trees.CreateUpdatedPrefixFree` | src/git.rs:3130-3150 | an accepted tree update never leaves a file doubling as a folder |
| `OperationEffects.WriteFileEffect` | src/git.rs:3071-3184 | a write stores that content at that path and touches nothing else; the same write again makes no commit |
| `OperationEffects.DeleteFileEffect` | src/git.rs:3198-3284 | a deleted file is gone, its folder's index no longer names it and keeps the other entries in order, all else is as before |
| `OperationEffects.DeleteDirectoryEffect` | src/git.rs:3308-3400 | nothing is left beneath a deleted folder, its parent's index drops it, all else is as before |
| `OperationEffects.MoveFileEffect` | src/git.rs:3424-3596 | a move carries the content over, frees the old path, and moves the index entry: same slot within a folder, tail of an index that exists otherwise |
| `OperationEffects.MoveFileBack` | src/git.rs:3424-3596 | moving there and back restores every path but the two parents' indexes |
| `OperationEffects.MoveDirectoryEffect` | src/git.rs:3628-3832 | every path under the old folder is found, with its own content, at its relocated path and nowhere under the old one |
| `OperationEffects.RenameKeepsPlaceIff` | src/git.rs:4711-4744 | a renamed entry keeps its place exactly when no earlier index entry already spells the new name |
| `OperationEffects.StoreOrderEffect` | src/git.rs:4579-4622 | storing an index stores exactly it, or none for no entries, and storing it again makes no commit |
| `OperationEffects.CanonicalNames` | src/git.rs:4037-4075 | a written order keeps its names and sequence, each spelled with a slash exactly when it is a folder in HEAD |
| `OperationEffects.WriteOrderEffect` | src/git.rs:4001-4115 | a written order reads back entry by entry and no other path changes |
| `OperationEffects.ReorderEffect` | src/git.rs:4150-4330 | a reorder or an unlisting touches only the folder's index, the slot asked for, clamped, or its absence is read back from it, and the same request on the resulting HEAD makes no commit |
| `OperationEffects.UnlistUnlistedIff` | src/git.rs:4162-4330 | unlisting an entry no index lists makes no commit exactly when there is no index file, or one that lists something in the spelling this service writes |
| `OperationSuccess.WriteFileSucceedsIff` | src/git.rs:3071-3184 | a write commits exactly new text at a file's path or at a free one, no index; at the text already there it makes no commit |
| `OperationSuccess.DeleteFileSucceedsIff` | src/git.rs:3198-3284 | a file is deleted exactly when it is there and is no index |
| `OperationSuccess.DeleteDirectorySucceedsIff` | src/git.rs:3308-3400 | a folder is deleted exactly when it is there |
| `OperationSuccess.MoveFileSucceedsIff` | src/git.rs:3424-3596 | a move commits exactly a text file, no index, to a free path that is no index; the destination's folder need not exist |
| `OperationSuccess.MoveDirectorySucceedsIff` | src/git.rs:3628-3832 | a folder moves exactly when it is there, all text, and its destination is free and not inside it |
| `OperationSuccess.StoreOrderSucceedsIff` | src/git.rs:4579-4622 | storing an index makes no commit exactly when HEAD holds it already, and is refused exactly where a folder has its name or a file is above it |
| `OperationSuccess.WriteOrderSucceedsIff` | src/git.rs:4001-4115 | an order is accepted exactly for a folder that is there, when it is valid, names only what is in it and no folder has the index's name; it commits exactly unless stored already |
| `OperationSuccess.ReorderSucceedsIff` | src/git.rs:4176-4330 | when a reorder or an unlisting is accepted, and when it makes no commit |
| `OperationSuccess.DeleteOrderEffect` | src/git.rs:4335-4396 | an index is deleted exactly when there is one, nothing else is touched, and it cannot be deleted again |
| `ChangeLabels.RequestTruthful` | src/git.rs:3071-5834 | every request but a revert reports a creation, update, deletion or move for what it was against HEAD |
| `ChangeLabels.RevertTruthfulIff` | src/git.rs:5400-5507 | a revert's labels are true of HEAD exactly when HEAD holds, of the touched paths, just those the reverted commit left |
| `ChangeLabels.RollbackMovesIff` | src/git.rs:5585-5834 | a rename is rolled back as one move exactly where HEAD has the file under its old name alone |
| `Operations.MoveDirectoryBlobByBlob` | src/git.rs:3628-3832 | the loop over the folder's blobs makes the relocation, or refuses the whole of it, as specified |
| `Operations.ValidateOrder` | src/order.rs:194-263 | accepted exactly when non-empty, every entry a valid component and none named twice in either spelling |
| `OperationLaws.WriteFileDescribed` | src/git.rs:3071-3184 | the reported changes take HEAD's tree to the committed one |
| `OperationLaws.DeleteFileDescribed` | src/git.rs:3198-3284 | the same for deleting a file, index upkeep included |
| `OperationLaws.DeleteDirectoryDescribed` | src/git.rs:3308-3400 | the same for deleting a folder, one reported deletion a file |
| `OperationLaws.MoveFileDescribed` | src/git.rs:3424-3596 | the same for moving a file, both indexes included |
| `OperationLaws.MoveDirectoryDescribed` | src/git.rs:3628-3832 | the same for moving a folder, one reported move a file |
| `OperationLaws.StoreOrderDescribed` | src/git.rs:4001-4330 | the same for writing and reordering an index |
| `OperationLaws.DeleteOrderDescribed` | src/git.rs:4335-4396 | the same for deleting an index |
| `Commits.RevertDeltaByDelta` | src/git.rs:5400-5507 | staging inverse after inverse gives the specified revert, stopping at content that is not text |
| `Commits.RollbackDeltaByDelta` | src/git.rs:5585-5834 | restoring and removing path after path gives the specified rollback |
| `CommitLaws.RevertSucceedsIff` | src/git.rs:5323-5536 | for any rename pairing, a revert goes through exactly when the paths it writes and removes fit HEAD and its content is text |
| `CommitLaws.RevertRestoresIff` | src/git.rs:5400-5507 | a revert that went through leaves the parent's state on every touched path and HEAD's elsewhere exactly when no folder sits at a path the commit brought in |
| `CommitLaws.RevertHeadIsParent` | src/git.rs:5323-5536 | reverting HEAD itself yields its parent's tree |
| `CommitLaws.RollbackSucceedsIff` | src/git.rs:5571-5834 | for any pairing, when a rollback goes through, and that it makes no commit exactly when HEAD already agrees |
| `CommitLaws.RollbackRestores` | src/git.rs:5571-5834 | a rollback leaves the target's state on every touched path and HEAD's elsewhere, and repeating it, under any other pairing, makes no commit |
| `CommitLaws.RollbackWellFormed` | src/git.rs:5585-5834 | a rollback's reported changes touch no path twice and remove only what is there |
| `History.EveryRunMirrors` | src/git.rs:3071-5863 | after any sequence of requests the receiver holds exactly HEAD's files and orders |
| `History.StepMirrors` | src/hooks.rs:378-479 | one request keeps the mirror equal to HEAD's |
| `History.CommitsFeedTheQueue` | src/hooks.rs:211-297 | every commit's job restates exactly the rows the commit changed, as the delivery queue needs |
| `History.RevertMirrorsIff` | src/git.rs:5400-5507 | a revert that went through is mirrored by its job exactly when no folder sits at a path the commit brought in |
| `History.RevertOntoFolderDropsIt` | src/git.rs:5400-5507 | a concrete revert that drops a folder from HEAD |
| `History.RevertOntoFolderKeepsRow` | src/hooks.rs:211-297 | after which the receiver keeps a row HEAD does not have |
| `Receiver.DeliverAllRow` | src/hooks.rs:378-479 | after a batch each row is as its last toucher left it |
| `Receiver.FaithfulIffMirrored` | src/hooks.rs:378-479 | events take the old mirror to the new one exactly when each row's last event states the new tree's value and unnamed rows did not change |
| `HookJobs.NewHookJob` | src/hooks.rs:211-297 | the two lists built by the loop are the file events, then the order events, of the changes |
| `HookJobs.SplitPreservesEffect` | src/hooks.rs:211-297 | sending all file events before all order events does to each row what sending change by change would |
| `HookJobs.JobMirrorsIffClassified` | src/hooks.rs:211-297 | the job mirrors the commit exactly when no change hides a parsing index or pairs an index with an ordinary file |
| `HookQueues.HookQueue.Enqueue` | src/hooks.rs:327-344 | a job goes to the end of its own repository's queue and no other's |
| `HookQueues.InScopeIff` | src/routes/replay.rs:218-231 | a replay's scope prunes hidden names below its prefix only |
| `HookQueues.SanitizeFiles` | src/routes/replay.rs:365-418 | a replay's file list is accepted exactly when non-empty, in scope, free of indexes and of repeats |
| `HookQueues.DeliveryKeeps` | src/hooks.rs:350-362 | delivering, reading a chunk and finishing a job never change what a row is destined to |
| `HookQueues.ResolvedInTurn` | src/hooks.rs:506-723 | a replay is worked off front to back, files while there are any and then orders, a full chunk at a time |
| `HookQueues.CommitKeeps` | src/hooks.rs:327-344 | a commit landing while replays wait keeps every settled row settled |
| `HookQueues.RequestQueues` | src/routes/replay.rs:202-295 | a request queues one job at the tail with exactly the files and folders it covers, each once and in delivery order, or nothing when it covers nothing |
| `HookQueues.RequestEffect` | src/routes/replay.rs:202-295 | what a request does to each row: a covered file is erased or stated as HEAD shows it, a covered order stated, every other row left |
| `HookQueues.RequestKeeps` | src/routes/replay.rs:202-295 | what a request settles: the named paths HEAD lacks, the named paths it shows, or all that it shows; a file not named is left to what was queued |
| `HookQueues.RunsAreHonest` | src/hooks.rs:327-362 | whatever was lost, the queue never sets a row wrong |
| `HookQueues.ReplayRepairsDrift` | src/routes/replay.rs:202-295 | from any drift, a delete replay of the receiver's own list and a full create replay leave its files equal to HEAD's once the queue drains |
| `HookQueues.NoReplayErasesOrders` | src/hooks.rs:506-723 | no replay reaches the row of an order HEAD does not hold |
| `HookDelivery.DeliverWithRetries` | src/hooks.rs:830-879 | sent exactly when some attempt succeeds, no attempt after a success, a doubling and saturating pause between attempts only |
| `HookDelivery.BackoffDoubles` | src/hooks.rs:868-876 | the first pause is the configured one and each further one doubles, saturating, until the doubling stops |
| `HookDelivery.DeliverReplay` | src/hooks.rs:506-723 | chunk after chunk, files before orders, each phase behind its own subscription |
| `HookDelivery.FilePhaseEffect` | src/hooks.rs:506-723 | wherever HEAD moves between chunks, the file phase leaves each row as the last path that speaks of it says, each path by the HEAD of its own chunk |
| `HookDelivery.OrderPhaseEffect` | src/hooks.rs:506-723 | the same of the order phase, which erases nothing |
| `HookDelivery.ReplayEffect` | src/hooks.rs:506-723 | a whole replay tells file rows in its file phase and order rows in its order phase, each only where subscribed to |
| `HookDelivery.StillFilePhase` | src/hooks.rs:506-723 | where HEAD stands still, however many chunks, the file phase does to each row what the queue holds the replay to do |
| `HookDelivery.StillOrderPhase` | src/hooks.rs:506-723 | and so does the order phase |
| `HookDelivery.StatedAsRead` | src/hooks.rs:732-786 | a replayed file is stated with the content HEAD had when its chunk was read |
| `OrderIndex.OrderRanks` | src/git.rs:1804-1814 | the table holds the first position of every name, in either spelling |
| `OrderIndex.CollectDirectoryEntries` | src/git.rs:4497-4547 | the loop yields folders sorted with their slash, then files, without the index |
| `OrderIndex.MaterializedMembers` | src/git.rs:4456-4484 | the materialised entries are exactly the eligible ones, each once |
| `OrderIndex.ReorderReadsBack` | src/git.rs:4176-4330 | the read route reports the slot an entry was placed at, clamped to the tail |
| `OrderIndex.ReorderTwiceIsOnce` | src/git.rs:4170-4330 | repeating a reorder on the index it wrote writes that index, though the directory may now hold the index file it did not hold before |
| `OrderIndex.CompleteIndexMaterializes` | src/git.rs:4456-4484 | an index naming every eligible entry materialises to itself |
| `ListingOrders.MaterializedExactly` | src/git.rs:4456-4484 | a reorder materialises a folder's own entries, hidden ones only if asked for or listed |
| `ListingOrders.MaterializedInOrder` | src/git.rs:4456-4484 | each at the rank the listing gives it, folders before files and ascending among unlisted ones |
| `OrderRendering.ReorderKeepsRenderedIff` | src/git.rs:4532-4541 | a reorder writes the rendered rows with the entry moved exactly when no two folders ranked by base order alone sort differently with and without the slash |
| `OrderRendering.SpelledSortIffNoClash` | src/git.rs:4532-4541 | sorting folder names with and without their slash agrees exactly when no name extends another by a byte below the slash |
| `OrderRendering.OldSiblingChangesPlaces` | src/git.rs:1674-1674 | a folder and its `-old` sibling are such a pair |
| `Bytewise.SlashOrder` | src/git.rs:4532-4541 | how comparing slash-terminated names differs from comparing names |
| `Bytewise.LessIff` | src/git.rs:1674-1675 | bytewise order: one name extends the other, or the first difference decides |
| `Traverse.ComparePaths` | src/traverse.rs:62-95 | the loop over two component iterators computes the comparator on component sequences |
| `Traverse.ComponentsOfJoined` | src/traverse.rs:99-101 | splitting a joined path gives its components back |
| `Traverse.DeliveryOrders` | src/traverse.rs:38-95 | both comparators are total orders on component sequences |
| `Traverse.FilesPart` | src/traverse.rs:62-95 | where two file paths part, a folder's own file comes first, then hidden names, then names ascending |
| `Traverse.FoldersPart` | src/traverse.rs:38-48 | where two folder paths part, hidden names come first, then names ascending |
| `Traverse.FolderFirst` | src/traverse.rs:66-74 | a folder comes before everything beneath it, the root first of all |
| `Traverse.OwnFilesFirst` | src/traverse.rs:62-95 | a folder's own files come before anything deeper in it |
| `Traverse.FolderIsConvex` | src/traverse.rs:62-95 | whatever sorts between two paths of a folder is in the folder |
| `Traverse.SortedIsOnion` | src/traverse.rs:50-57 | a sorted file list is a permutation in which every folder is one block led by its own files |
| `TreeBuilding.BuildTree` | src/git.rs:647-767 | the nested listing is the one that shows exactly the given paths and stubs |
| `TreeBuilding.FindInserted` | src/git.rs:664-692 | inserting a path changes what is at its own prefixes within the depth and nothing else |
| `TreeBuilding.FindStubbed` | src/git.rs:697-713 | inserting a stub makes it and its folders directories and changes nothing else |
| `TreeBuilding.ListingOrdered` | src/git.rs:718-767 | at every level directories come before files, each group bytewise ascending, no name twice |
| `TreeBuilding.ListingShows` | src/git.rs:647-767 | a path is a file in the listing exactly when given and within the depth, a directory exactly when a folder of one or of a stub |
| `TreeBuilding.ListingUnique` | src/git.rs:647-767 | input order and duplicates leave no trace |
| `TreeBuilding.DepthIsCut` | src/git.rs:2410-2414 | building to a depth is building in full and cutting there |
| `NameSearch.Walker.Visit` | src/git.rs:2029-2097 | what the walk's callback records at one entry and where it leaves the remembered folder |
| `NameSearch.Walker.Walk` | src/git.rs:2020-2097 | the walk that remembers one matched folder finds what the recursive definition finds |
| `NameSearch.FoundFileIff` | src/git.rs:2011-2097 | a file is found exactly when present, visible, within the depth, no index, and it or a folder above it matches |
| `NameSearch.FoundAtLimitIff` | src/git.rs:2061-2076 | a depth stub is exactly a visible folder at the limit that matches or sits in a match |
| `NameSearch.FoundFolderIff` | src/git.rs:2078-2084 | a matched folder short of the limit is recorded exactly when it is the outermost match |
| `Subtrees.SearchCompatible` | src/git.rs:2271-2375 | what a search finds in a git tree never names a path as file and folder at once |
| `Subtrees.SearchListingFiles` | src/git.rs:1999-2112 | the listing built from a search shows exactly the files the search is for |
| `Subtrees.SubtreeFiles` | src/git.rs:1900-1970 | a subtree listing shows exactly the visible files within the depth, indexes left out |
| `Subtrees.SubtreeFolderIff` | src/git.rs:1918-1970 | a folder in a subtree is shown exactly for what the walk found in it |
| `Subtrees.WholeListingShows` | src/git.rs:1631-1794 | the whole listing, subtrees collected and levels ordered, shows exactly the visible files within the depth, every visible root folder and the deeper folders that lead to something |
| `Subtrees.BareFolderShownAtRootOnly` | src/git.rs:1644-1675 | a folder holding only its index has a row at the root and none below |
| `Listings.ApplyOrder` | src/git.rs:1850-1894 | sorting a level before opening its folders arranges every level by its own index |
| `Subtrees.ArrangedShows` | src/git.rs:1850-1894 | ordering moves rows about within their level and shows nothing more and nothing less |
| `Listings.ListFiles` | src/git.rs:1638-1794 | slicing before any subtree is opened gives the page, and the has-more flag, of the listing built and ordered in full |
| `ListingOrders.WholeListingInOrder` | src/git.rs:1640-1780 | the whole listing of which a page is cut: unordered, folders before files, each ascending, at the root as at every level; ordered, every level as its own index says |
| `ListingOrders.ArrangedInOrder` | src/git.rs:1816-1894 | by an index, listed rows ascend by position, unlisted ones stand at the implicit index above the entry listed there and keep their base order, and every row carries its position |
| `Listings.RootRowsFinish` | src/git.rs:1690-1780 | sorting unopened root entries and finishing the rows afterwards is building every row and ordering every level |
| `Listings.PagesConcatenate` | src/git.rs:1677-1682 | pages concatenate to the listing without gap or repeat, and has-more says exactly whether rows are left |
| `FileDates.WalkHistory` | src/git.rs:2592-2704 | a finished walk dates every path truly, early exit included; an exhausted walk by update holds true dates only |
| `FileDates.RetainByDate` | src/git.rs:2499-2556 | a finished date filter keeps exactly the files dated in the window; an exhausted one by update keeps some of them and no other |
| `FileDates.WindowsPartition` | src/git.rs:2499-2556 | a date window is half open: cut in two, the parts share nothing and miss nothing |
| `FileDates.ListedIsDated` | src/git.rs:2489-2490 | every file HEAD holds was added by some commit, so it has both dates |
| `FileDates.UpdatedIsFinal` | src/git.rs:2621-2625 | a latest touch stays the latest however much older history is read |
| `FileDates.CreatedIsFinalIff` | src/git.rs:2577-2581 | a creation date from part of history is true exactly when no unread commit adds the path |
| `Utf8.SplitAfterNewline` | src/seek.rs:277-282 | cutting well-formed UTF-8 after a newline cuts between characters (section 4 of RFC 3629) |
| `Seek.Build` | src/seek.rs:216-265 | which filters are accepted |
| `Seek.MarkerSpelled` | src/seek.rs:311-332 | each placeholder in an end marker is the first start marker, in the given order, that the line starts with, and the text around it stays |
| `Seek.ApplyReader` | src/seek.rs:285-359 | the scan returns the declared window, reads no line past it once it is complete, and never fails on well-formed content |
| `Seek.ScanUnique` | src/seek.rs:178-199 | the declaration fixes the window returned and how far the content is read |
| `Seek.NoFilterKeepsAll` | src/seek.rs:267-271 | with no filter the window is the file |
| `Seek.WindowIsUtf8` | src/seek.rs:277-282 | windows of well-formed files are well formed |
| `Packs.PackCompletes` | src/git.rs:6197-6254 | a pack holds whatever the head leads to and the replica's reported head does not |
| `PackImport.Repository.ImportPack` | src/git.rs:6315-6388 | objects first, ref last: what an import does, and what it leaves when interrupted in between |
| `PackImport.JudgementIff` | src/git.rs:6344-6388 | which of the two heads descends from which decides the judgement of a stored commit |
| `PackImport.RelationForeseesJudgement` | src/git.rs:6513-6543 | the check before a download foresees the import's judgement, but for a stored commit HEAD could move forward to |
| `PackImport.HeadMovesForward` | src/git.rs:6344-6388 | a visible HEAD only moves to a descendant; refusals, crashes and repacks leave it alone |
| `PackImport.HeadAlwaysWhole` | src/git.rs:6260-6312 | over every run with a crash possible after any step, whatever HEAD readers find is there with all it leads to |
| `PackImport.HistoryOnlyGrows` | src/git.rs:6344-6388 | over every run HEAD only gains history |
| `PackImport.IncrementalPackTearsFreshClone` | src/git.rs:1056-1098 | why a pack must land where it was asked for |
| `PackImport.RelationMisjudgesIff` | src/git.rs:6513-6543 | the check before a download misjudges exactly the commits already stored that HEAD could move forward to |
| `RepositoryIndexes.MergeScan` | src/replication.rs:1352-1370 | the loop folds a scan in, keeping what was announced since it began |
| `RepositoryIndexes.RepositoryIndex.FoldScan` | src/replication.rs:1319-1381 | the index after a scan |
| `RepositoryIndexes.HeadsNeverGoBack` | src/replication.rs:1199-1228 | no step moves an indexed head back |
| `RepositoryIndexes.IndexSafe` | src/replication.rs:1312-1381 | over every run an indexed head never exceeds the disk's, and a complete listing misses no announced repository |
| `RepositoryIndexes.ListedHeadsGrow` | src/replication.rs:1312-1381 | between any two moments at which a key is listed its head has not decreased, however often it was dropped and listed again, unless its removal was announced during a scan |
| `RepositoryIndexes.StaysListedIff` | src/replication.rs:1221-1381 | a listed key leaves the index exactly by its announced deletion, or by a complete fold that did not see it and had nothing announced of it since the scan began |
| `RepositoryIndexes.BecomesListedIff` | src/replication.rs:1199-1381 | a key enters it exactly by an announced commit or a fold of a scan that saw it |
| `RepositoryIndexes.FoldedEntry` | src/replication.rs:1319-1381 | the entry a fold leaves: the announced one, else the seen one, else the old one unless the scan was complete |
| `RepositoryIndexes.UnlistedSince` | src/replication.rs:1340-1350 | over every run a key is unlisted in one of those two ways only |
| `RepositoryIndexes.OnDiskStaysListed` | src/replication.rs:1340-1350 | a repository on disk throughout is unlisted only by a complete fold while a write of it is still to be announced |
| `RepositoryIndexes.QuietScanIsExact` | src/replication.rs:1319-1381 | a complete scan with nothing else going on makes the index the disk |
| `RepositoryIndexes.OverlappingScansLoseOne` | src/replication.rs:1312-1317 | two overlapping scans drop a repository that exists |
| `RepositoryIndexes.RemovedDuringScanComesBack` | src/replication.rs:1221-1228 | a whole run in which a removal announced during a scan lets the fold list the repository again, at an older head than before |
| `Followers.ReplicaFollower.Reconcile` | src/replication.rs:2354-2524 | the state after comparing a listing with the index: queue, lifted locks, guarded deletions, identity |
| `Followers.ReplicaFollower.SyncRepository` | src/replication.rs:2712-2758 | one repository's sync changes its own entries only |
| `Followers.ReplicaFollower.DrainPending` | src/replication.rs:2601-2695 | every queued key is synced on its own whatever the order, failures stay queued, and the counts are those of the keys that ended so |
| `Followers.DrainingKept` | src/replication.rs:2642-2680 | syncing one key leaves every other key's sync unaffected |
| `DrainOutcomes.LockedUnlessArrived` | src/replication.rs:2712-2978 | a queued head that left the queue is locked exactly when HEAD is not at the commit it was synced to, and against that commit |
| `DrainOutcomes.StaysQueuedIff` | src/replication.rs:2736-2758 | it stays queued exactly when its commit is unknown and no answer delivers one, with lock, HEAD and index entry as they were |
| `DrainOutcomes.NothingDestroyed` | src/replication.rs:2704-2712 | a refused pack never destroys anything: the copy stays with every object, and HEAD stays or moves to a descendant |
| `DrainOutcomes.DeletionDrained` | src/replication.rs:3086-3124 | a drained deletion takes the copy and its index entry; what is not queued is not touched |
| `DrainOutcomes.DrainFailedIff` | src/replication.rs:2269-2273 | a drain counts as failed exactly when some key failed and none was synced, however many were locked |
| `DrainOutcomes.ReconciledAt` | src/replication.rs:2354-2524 | a reconcile key by key: which lock and index entry it lifts, what it queues, and that it leaves the rest |
| `DrainOutcomes.GuardTripsIff` | src/replication.rs:2473-2490 | the guard refuses exactly a complete listing that leaves out more than it names of two or more held |
| `DrainOutcomes.ReconciledFlags` | src/replication.rs:3389-3466 | a first identity is pinned, the pinned one clears, any other or none only blocks; and when the guard's flag changes |
| `Convergence.SyncArrivesIff` | src/replication.rs:2773-2893 | when a sync brings a repository to the answered head |
| `Convergence.ListedConvergesIff` | src/replication.rs:2354-2893 | from any state, when one pass brings a listed repository to its listed head |
| `Convergence.UnlistedGone` | src/replication.rs:2455-2523 | what a complete listing omits is gone after one pass unless the guard refused |
| `Convergence.OnePassConverges` | src/replication.rs:2346-2551 | after one pass the held heads are the listed ones exactly when every listed repository could converge |
| `Convergence.PassKeepsIndex` | src/replication.rs:2354-2893 | a pass keeps the index equal to the disk and leaves no deletion queued |
| `Convergence.InterruptedImportLocks` | src/replication.rs:2779-2803 | an interrupted import is locked as a fork by the next pass |
| `Convergence.LateFrameLocks` | src/replication.rs:1724-1726 | a late frame for an older commit locks a repository in step and leaves its HEAD |
| `Convergence.StuckUntilMasterMoves` | src/replication.rs:2402-2425 | polling never lifts a lock while the master lists the same head |
| `Convergence.LockedRemovalReclones` | src/replication.rs:2406-2435 | a locked repository whose local copy was removed is cloned afresh by the next pass and unlocked |
| `Convergence.RemovedInStepStays` | src/replication.rs:2402-2404 | the same removal of a repository in step is not noticed while the index lists it |
| `Convergence.LostIff` | src/replication.rs:2455-2523 | a pass loses a held repository exactly when accepted deletions name it or an earlier queued deletion stands |
| `Convergence.PassLeavesHalf` | src/replication.rs:2473-2523 | with the guard on and nothing queued before, at least half of two or more remain |
| `Convergence.HeldBackKeepsDeletion` | src/replication.rs:2605-2613 | a drain held back leaves its deletion queued |
| `Convergence.HeldBackDrainDefeatsGuard` | src/replication.rs:2402-2404 | after which a second listing, within the guard, completes the deletion of everything |
| `ReplicaRuns.AnswerComplete` | src/git.rs:6197-6254 | a pack and the repository it was asked for hold together all that the answered commit leads to |
| `ReplicaRuns.EveryLifeIsSound` | src/replication.rs:2216-2893 | over every life, crashes between objects and ref included, each repository has all its HEAD leads to and the index states the disk's heads |
| `ReplicaRuns.HeadOnlyGrows` | src/git.rs:6344-6388 | from one moment of a life to a later one, the repository held throughout, its HEAD only gained history, whatever the master answered |
| `ReplicaRuns.AnswersDeliver` | src/git.rs:6197-6254 | a pack built for what a sound repository reported always brings the answered commit, in the pack or already stored |
| `ReplicaRuns.EveryLifeConverges` | src/replication.rs:2346-2353 | after any life, one reconcile and drain make the held heads the listed ones exactly when no repository is one the rule leaves behind |
| `ReplicaRuns.UninterruptedLifeConverges` | src/replication.rs:2346-2353 | where no import was cut short, a listed repository ends at its listed head exactly when it is new or its HEAD is an ancestor, whatever frames were lost, repeated or reordered |
| `ReplicaRuns.PinnedForLife` | src/replication.rs:3426-3466 | over every life a pinned identity is never replaced or forgotten |
| `ReplicaRuns.GoneMeansCondemned` | src/replication.rs:3347-3369 | a held repository disappears only after a complete listing of the pinned master, within the guard, left it out, and the deletion it queued stood until then |
| `ReplicaRuns.GuardBoundsLoss` | src/replication.rs:2473-2523 | over any stretch of a life, frames, drains, crashes and restarts included, k accepted listings leave at least the k-th half of what was kept, provided each finds two or more held and no deletion still queued |
| `ReplicaRuns.KeptUnlessAccepted` | src/replication.rs:2473-2523 | no event of a life takes a key out of what is kept but a listing's accepted deletions |
| `Workers.GateOpensIff` | src/replication.rs:2261-2321 | a cold replica is open exactly when some pass, at or after a successful reconcile, left nothing queued or was the second stalled one with something landed |
| `Workers.NothingLandedNothingServed` | src/replication.rs:2293-2300 | a replica that landed nothing opens only with nothing left to do |
| `Workers.ReplicaWorker.TurnOnce` | src/replication.rs:2238-2329 | one turn of the loop: its reconcile, its drain and their outcome, what it does to the gate, when it goes straight round, and that it then shortened the queue |
| `Workers.ReplicaWorker.RunUntilIdle` | src/replication.rs:2238-2345 | without new frames the loop reaches its sleep, with the queue empty or nothing landed in its last pass |
| `Bootstraps.LeavesQueueSettled` | src/replication.rs:2601-2695 | short of the process ending, a key leaves the queue only by a drain that synced or locked it, whatever frames, hellos and reconciles come in between |
| `Bootstraps.ListedSeenTo` | src/replication.rs:2354-2695 | once a listed key is out of the queue it was in step, or locked at the listed head with its copy there, or has been synced or locked since; a deletion synced in its stead comes from a later listing that left it out |
| `Bootstraps.SeenToServed` | src/replication.rs:2282-2300 | and its repository is then held, unless a later listing left it out or a deletion was queued for it already |
| `Bootstraps.WorkerTurnIsTurn` | src/replication.rs:2238-2329 | what the loop's turn does is what a turn of a life is |
| `Bootstraps.OpenGateServes` | src/replication.rs:2238-2345 | over any life, a cold replica opens only once a listing has held and either all that each such listing names has been seen to and is held, but for what was dropped since, or the catch-up stalled after landing something |
| `Maintenance.ObjectStore.Run` | src/git.rs:1209-1253 | wherever the pass stops and whatever removals fail, every object, or with pruning every object the walk inserts, is still found |
| `Maintenance.ObjectStore.Repack` | src/git.rs:1277-1358 | the same for the repack itself, a reused pack name included, and the exact store a finished one leaves |
| `Maintenance.RemoveFiles` | src/git.rs:1314-1355 | removals one by one up to a crash |
| `Maintenance.PruneHonoursRefsIff` | src/git.rs:1364-1398 | a prune keeps all its references lead to exactly when what they lead to short of a commit is kept for another reason |
| `Maintenance.NestedTagPruned` | src/git.rs:1375-1391 | the inner tag of a tag of a tag is pruned |

## Left out

- libgit2's own work: object encoding, delta and similarity scoring, merging in the tree updater. The updater is modelled as
  a partial map update that refuses an absent removal, a file where a folder is needed and the reverse; a commit whose own
  updates nest one path beneath another is taken to be refused.
- The files mirrored on disk (`WorkingTree`, src/checkout.rs) decide no outcome and are not modelled. With `checkout_files`
  on, a revert onto a folder fails there instead of dropping the folder.
- HTTP, JSON bodies, configuration, tracing, clocks and timeouts. A time budget is the number of commits it affords, a retry
  pause is a number, a failed request is an absent answer.
- Concurrency inside one drain: keys are synced one after the other in an arbitrary order, which the independence of keys
  justifies. The convergence results are of a reconcile and the drain right after it; the guard, lock, deletion and gate
  results allow events in between.
- An operator removing a copy under a running replica is not an event of `ReplicaRuns`' lives; what it leads to is stated by
  the two lemmas about it in `Convergence`.
- Files a maintenance removal takes besides a pack itself (`.idx`, `.rev`, `.keep`): a pack counts as gone with its first
  file. Another process repacking at the same moment is not modelled.
- A removal of a repository that fails on disk, and a directory without a repository that a clone adopts, on the follower's
  side; the import's own state machine has the latter.
- A pack whose objects cannot be read back, and commits of history that cannot be read in the date walk, which skips them.
- Case folding in name search: matching is a predicate on names. Tree entries whose names are not UTF-8 are not modelled.
- The date filter over depth stubs in the filtered listing, exact-path selection, and counting files: the same walks and the
  same listing with another predicate.
- Per-commit diffs and file history (`list_commits_by_file`): they depend on similarity detection.
- Health reports, the replica registry and connection bookkeeping: no property beyond reading one body.
- `std`'s sorting algorithm: a stable sort is a stable insertion sort with the same comparator.
- HookQueues.ReplayRepairsDrift: promises files only; an order row whose index HEAD no longer holds stays, as the code
  leaves it.
- ReplicaRuns.GuardBoundsLoss: bounds how many repositories are kept, not how many of the first ones, since a listing may
  bring new ones in between.
- FileDates.WalkHistory: on a linear history, the only kind this service writes; merge commits made by hand are not modelled.
