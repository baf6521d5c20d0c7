/** What each operation does for its caller, path by path. */
module OperationEffects {
  import opened Wrappers
  import opened Paths
  import opened Trees
  import opened Receiver
  import opened HookJobs
  import opened OrderIndex
  import opened Sorting
  import opened Operations
  import opened OperationLaws
  import opened CommitLaws

  ghost predicate SameBut(before: Tree, after: Tree, paths: set<Path>) {
    forall p | p !in paths :: At(before, p) == At(after, p)
  }

  /** The indexes of the two folders a move is between. */
  function ParentIndexes(fromPath: Path, toPath: Path): set<Path>
    requires fromPath != [] && toPath != []
  {
    {OrderFilePath(Parent(fromPath)), OrderFilePath(Parent(toPath))}
  }

  predicate Succeeded(result: Result<Outcome, Error>) {
    result.Ok? && result.value.Committed?
  }

  lemma WrittenAt(changes: seq<FileChange>, before: Tree, after: Tree, i: nat, p: Path)
    requires Describes(changes, before, after) && i < |changes| && p in TouchedPaths(changes[i])
    ensures At(after, p) == At(Changed(before, changes[i]), p)
  {
    ChangedAt(changes, before, p, i);
  }

  lemma KeptAt(changes: seq<FileChange>, before: Tree, after: Tree, p: Path)
    requires Describes(changes, before, after) && forall c | c in changes :: p !in TouchedPaths(c)
    ensures At(after, p) == At(before, p)
  {
    ChangedAt(changes, before, p, |changes|);
  }

  /** A write stores exactly that content at exactly that path; writing it again makes no commit. */
  lemma WriteFileEffect(tree: Tree, path: Path, content: Blob)
    requires PrefixFree(tree) && path != [] && !content.NotUtf8? && Succeeded(WriteFile(tree, path, content))
    ensures var after := WriteFile(tree, path, content).value.tree;
      && At(after, path) == Some(content) && SameBut(tree, after, {path}) && PrefixFree(after)
      && WriteFile(after, path, content) == Ok(Unchanged)
  {
    var committed := WriteFile(tree, path, content).value;
    var after := committed.tree;
    WriteFileDescribed(tree, path, content);
    assert |committed.changes| == 1 && TouchedPaths(committed.changes[0]) == {path};
    WrittenAt(committed.changes, tree, after, 0, path);
    forall p | p != path
      ensures At(tree, p) == At(after, p)
    {
      KeptAt(committed.changes, tree, after, p);
    }
    CreateUpdatedPrefixFree(tree, AllUpdates(committed.changes));
  }

  /** Deleting a file takes it out of the tree and out of its folder's index, which keeps its other entries in
      order; nothing else changes. */
  lemma DeleteFileEffect(tree: Tree, path: Path)
    requires PrefixFree(tree) && Succeeded(DeleteFile(tree, path))
    ensures var after := DeleteFile(tree, path).value.tree;
      var parent := Parent(path);
      && path !in after && SameBut(tree, after, {path, OrderFilePath(parent)})
      && IndexAfterRemoval(StoredOrder(tree, parent), StoredOrder(after, parent), Leaf(path))
  {
    var committed := DeleteFile(tree, path).value;
    var after := committed.tree;
    var upkeep := StageEntryRemoved(tree, Parent(path), Leaf(path));
    DeleteFileDescribed(tree, path);
    assert committed.changes == [Deleted(path)] + upkeep && committed.changes[0] == Deleted(path);
    WrittenAt(committed.changes, tree, after, 0, path);
    RemovedIndex(tree, after, committed.changes, Parent(path), Leaf(path), 1);
    forall p | p !in {path, OrderFilePath(Parent(path))}
      ensures At(tree, p) == At(after, p)
    {
      KeptAt(committed.changes, tree, after, p);
    }
  }

  /** An index that named the entry no longer does, in either spelling, and names the rest as before; one that would
      be left empty is gone. */
  predicate IndexAfterRemoval(before: Option<seq<Name>>, after: Option<seq<Name>>, name: Name) {
    if before.None? then after.None?
    else
      var rest := Without(before.value, name);
      after == if rest == [] && before.value != [] then None else Some(rest)
  }

  lemma {:induction false} WithoutShorter(stored: seq<Name>, name: Name)
    ensures |Without(stored, name)| <= |stored| && (|Without(stored, name)| == |stored| ==> Without(stored, name) == stored)
  {
    FilterShorter(stored, (e: Name) => EntryName(e) != name);
  }

  lemma {:induction false} FilterShorter(xs: seq<Name>, keep: Name -> bool)
    ensures |Filter(xs, keep)| <= |xs| && (|Filter(xs, keep)| == |xs| ==> Filter(xs, keep) == xs)
  {
    if xs != [] {
      FilterShorter(xs[1..], keep);
      assert xs == [xs[0]] + xs[1..];
    }
  }

  /** The removal's upkeep, wherever it sits in the commit. */
  lemma RemovedIndex(tree: Tree, after: Tree, changes: seq<FileChange>, directory: Path, name: Name, at: nat)
    requires Describes(changes, tree, after)
    requires var upkeep := StageEntryRemoved(tree, directory, name);
      && (upkeep != [] ==> at < |changes| && changes[at] == upkeep[0])
      && (upkeep == [] ==> forall c | c in changes :: OrderFilePath(directory) !in TouchedPaths(c))
    ensures IndexAfterRemoval(StoredOrder(tree, directory), StoredOrder(after, directory), name)
  {
    var index := OrderFilePath(directory);
    var upkeep := StageEntryRemoved(tree, directory, name);
    if upkeep == [] {
      KeptAt(changes, tree, after, index);
      if StoredOrder(tree, directory).Some? { WithoutShorter(StoredOrder(tree, directory).value, name); }
    } else {
      WrittenAt(changes, tree, after, at, index);
    }
  }

  /** Deleting a folder takes everything beneath it, and its entry in the parent's index. */
  lemma DeleteDirectoryEffect(tree: Tree, directory: Path, blobs: seq<Path>)
    requires PrefixFree(tree) && Walks(blobs, tree, directory) && Succeeded(DeleteDirectory(tree, directory, blobs))
    ensures var after := DeleteDirectory(tree, directory, blobs).value.tree;
      var parent := Parent(directory);
      && !Exists(after, directory)
      && (forall p | p != OrderFilePath(parent) && !Under(p, directory) :: At(tree, p) == At(after, p))
      && IndexAfterRemoval(StoredOrder(tree, parent), StoredOrder(after, parent), Leaf(directory))
  {
    var committed := DeleteDirectory(tree, directory, blobs).value;
    DeleteDirectoryDescribed(tree, directory, blobs);
    FolderDeleted(tree, committed.tree, committed.changes, directory, blobs);
  }

  /** The same of any commit with these changes. */
  lemma FolderDeleted(tree: Tree, after: Tree, changes: seq<FileChange>, directory: Path, blobs: seq<Path>)
    requires directory != [] && directory !in tree && Walks(blobs, tree, directory) && Describes(changes, tree, after)
    requires changes == DeletedChanges(blobs) + StageEntryRemoved(tree, Parent(directory), Leaf(directory))
    ensures !Exists(after, directory)
    ensures forall p | p != OrderFilePath(Parent(directory)) && !Under(p, directory) :: At(tree, p) == At(after, p)
    ensures IndexAfterRemoval(StoredOrder(tree, Parent(directory)), StoredOrder(after, Parent(directory)), Leaf(directory))
  {
    assert changes[|blobs|..] == StageEntryRemoved(tree, Parent(directory), Leaf(directory));
    FolderIndexRemoved(tree, after, changes, directory, blobs);
    FolderOthersKept(tree, after, changes, directory, blobs);
    FolderGone(tree, after, changes, directory, blobs);
  }

  lemma FolderOthersKept(tree: Tree, after: Tree, changes: seq<FileChange>, directory: Path, blobs: seq<Path>)
    requires directory != [] && directory !in tree && Walks(blobs, tree, directory) && Describes(changes, tree, after)
    requires changes == DeletedChanges(blobs) + StageEntryRemoved(tree, Parent(directory), Leaf(directory))
    ensures directory !in after
    ensures forall p | p != OrderFilePath(Parent(directory)) && !Under(p, directory) :: At(tree, p) == At(after, p)
  {
    var upkeep := StageEntryRemoved(tree, Parent(directory), Leaf(directory));
    var index := OrderFilePath(Parent(directory));
    forall c | c in changes
      ensures (TouchedPaths(c) == {index} && index in tree) || (TouchedPaths(c) == {c.path} && Under(c.path, directory))
    {
      if c in DeletedChanges(blobs) { DeletesHeld(tree, directory, blobs, c); }
    }
    KeptAt(changes, tree, after, directory);
    forall p | p != index && !Under(p, directory)
      ensures At(tree, p) == At(after, p)
    {
      KeptAt(changes, tree, after, p);
    }
  }

  lemma FolderIndexRemoved(tree: Tree, after: Tree, changes: seq<FileChange>, directory: Path, blobs: seq<Path>)
    requires directory != [] && Walks(blobs, tree, directory) && Describes(changes, tree, after)
    requires changes == DeletedChanges(blobs) + StageEntryRemoved(tree, Parent(directory), Leaf(directory))
    ensures IndexAfterRemoval(StoredOrder(tree, Parent(directory)), StoredOrder(after, Parent(directory)), Leaf(directory))
  {
    var index := OrderFilePath(Parent(directory));
    assert Parent(index) == Parent(directory);
    OutsideOwnFolder(index, directory);
    forall c | c in DeletedChanges(blobs)
      ensures index !in TouchedPaths(c)
    {
      DeletesHeld(tree, directory, blobs, c);
    }
    RemovedIndex(tree, after, changes, Parent(directory), Leaf(directory), |blobs|);
  }

  lemma FolderGone(tree: Tree, after: Tree, changes: seq<FileChange>, directory: Path, blobs: seq<Path>)
    requires directory != [] && Walks(blobs, tree, directory) && Describes(changes, tree, after)
    requires DeletedChanges(blobs) <= changes
    requires forall c | c in changes[|blobs|..] :: TouchedPaths(c) == {OrderFilePath(Parent(directory))}
    ensures forall p | Under(p, directory) :: p !in after
  {
    var index := OrderFilePath(Parent(directory));
    assert Parent(index) == Parent(directory);
    OutsideOwnFolder(index, directory);
    SplitAt(changes, |blobs|, changes[|blobs|..]);
    forall p | Under(p, directory)
      ensures p !in after
    {
      if p in tree {
        var i :| 0 <= i < |blobs| && blobs[i] == p;
        assert changes[i] == DeletedChanges(blobs)[i] == Deleted(p);
        WrittenAt(changes, tree, after, i, p);
      } else {
        forall c | c in changes
          ensures p !in TouchedPaths(c)
        {
          if c in DeletedChanges(blobs) { DeletesHeld(tree, directory, blobs, c); }
        }
        KeptAt(changes, tree, after, p);
      }
    }
  }

  lemma DeletesHeld(tree: Tree, directory: Path, blobs: seq<Path>, c: FileChange)
    requires Walks(blobs, tree, directory) && c in DeletedChanges(blobs)
    ensures TouchedPaths(c) == {c.path} && c.path in tree && Under(c.path, directory)
  {
    var i :| 0 <= i < |blobs| && DeletedChanges(blobs)[i] == c;
    assert blobs[i] in blobs;
  }

  // Moves

  /** The index of a folder something was renamed in: the old entry's slot now spells the new one. */
  predicate IndexAfterRename(before: Option<seq<Name>>, after: Option<seq<Name>>, fromName: Name, entry: Name) {
    if before.None? then after.None?
    else
      var slot := PositionOf(before.value, fromName);
      after == Some(if slot < 0 then before.value else before.value[slot := entry])
  }

  /** The index of a folder something arrived in: at the tail, unless already named. */
  predicate IndexAfterArrival(before: Option<seq<Name>>, after: Option<seq<Name>>, entry: Name) {
    if before.None? then after.None?
    else after == Some(if Listed(before.value, entry) then before.value else before.value + [entry])
  }

  ghost predicate IndexesAfterMove(tree: Tree, after: Tree, fromPath: Path, toPath: Path, entry: Name)
    requires fromPath != [] && toPath != []
  {
    var from, to := Parent(fromPath), Parent(toPath);
    if from == to then IndexAfterRename(StoredOrder(tree, from), StoredOrder(after, from), Leaf(fromPath), entry)
    else
      && IndexAfterRemoval(StoredOrder(tree, from), StoredOrder(after, from), Leaf(fromPath))
      && IndexAfterArrival(StoredOrder(tree, to), StoredOrder(after, to), entry)
  }

  /** The changes before `at` leave both parents' indexes alone. */
  ghost predicate LeavesIndexes(changes: seq<FileChange>, at: nat, fromPath: Path, toPath: Path)
    requires fromPath != [] && toPath != [] && at <= |changes|
  {
    forall c | c in changes[..at] ::
      OrderFilePath(Parent(fromPath)) !in TouchedPaths(c) && OrderFilePath(Parent(toPath)) !in TouchedPaths(c)
  }

  lemma SplitAt(changes: seq<FileChange>, at: nat, upkeep: seq<FileChange>)
    requires at <= |changes| && changes[at..] == upkeep
    ensures forall c | c in changes :: c in changes[..at] || c in upkeep
    ensures |changes| == at + |upkeep| && forall i | 0 <= i < |upkeep| :: changes[at + i] == upkeep[i]
  {
    assert changes == changes[..at] + upkeep;
  }

  lemma IndexPathsDiffer(d: Path, e: Path)
    ensures OrderFilePath(d) == OrderFilePath(e) ==> d == e
  {
    assert Parent(OrderFilePath(d)) == d && Parent(OrderFilePath(e)) == e;
  }

  /** The upkeep of a move, at the end of the commit's changes. */
  lemma MovedIndexes(tree: Tree, after: Tree, changes: seq<FileChange>, fromPath: Path, toPath: Path, entry: Name,
                     at: nat)
    requires fromPath != [] && toPath != [] && Describes(changes, tree, after)
    requires at <= |changes| && changes[at..] == StageEntryMoved(tree, fromPath, toPath, entry)
    requires LeavesIndexes(changes, at, fromPath, toPath)
    ensures IndexesAfterMove(tree, after, fromPath, toPath, entry)
  {
    var from, to := Parent(fromPath), Parent(toPath);
    SplitAt(changes, at, StageEntryMoved(tree, fromPath, toPath, entry));
    if from == to {
      RenamedIndex(tree, after, changes, from, Leaf(fromPath), entry, at);
    } else {
      IndexPathsDiffer(from, to);
      var removed, arrived := StageEntryRemoved(tree, from, Leaf(fromPath)), StageEntryAppended(tree, to, entry);
      assert forall c | c in removed :: TouchedPaths(c) == {OrderFilePath(from)};
      assert forall c | c in arrived :: TouchedPaths(c) == {OrderFilePath(to)};
      RemovedIndex(tree, after, changes, from, Leaf(fromPath), at);
      if arrived != [] { assert changes[at + |removed|] == (removed + arrived)[|removed|]; }
      ArrivedIndex(tree, after, changes, to, entry, at + |removed|);
    }
  }

  lemma RenamedIndex(tree: Tree, after: Tree, changes: seq<FileChange>, directory: Path, fromName: Name,
                     entry: Name, at: nat)
    requires Describes(changes, tree, after)
    requires var upkeep := StageEntryRenamed(tree, directory, fromName, entry);
      && (upkeep != [] ==> at < |changes| && changes[at] == upkeep[0])
      && (upkeep == [] ==> forall c | c in changes :: OrderFilePath(directory) !in TouchedPaths(c))
    ensures IndexAfterRename(StoredOrder(tree, directory), StoredOrder(after, directory), fromName, entry)
  {
    if StageEntryRenamed(tree, directory, fromName, entry) == [] {
      KeptAt(changes, tree, after, OrderFilePath(directory));
    } else {
      WrittenAt(changes, tree, after, at, OrderFilePath(directory));
    }
  }

  lemma ArrivedIndex(tree: Tree, after: Tree, changes: seq<FileChange>, directory: Path, entry: Name, at: nat)
    requires Describes(changes, tree, after)
    requires var upkeep := StageEntryAppended(tree, directory, entry);
      && (upkeep != [] ==> at < |changes| && changes[at] == upkeep[0])
      && (upkeep == [] ==> forall c | c in changes :: OrderFilePath(directory) !in TouchedPaths(c))
    ensures IndexAfterArrival(StoredOrder(tree, directory), StoredOrder(after, directory), entry)
  {
    if StageEntryAppended(tree, directory, entry) == [] {
      KeptAt(changes, tree, after, OrderFilePath(directory));
    } else {
      WrittenAt(changes, tree, after, at, OrderFilePath(directory));
    }
  }

  /** The upkeep of a move touches the two parents' indexes and nothing else. */
  lemma UpkeepTouches(tree: Tree, fromPath: Path, toPath: Path, entry: Name)
    requires fromPath != [] && toPath != []
    ensures forall c | c in StageEntryMoved(tree, fromPath, toPath, entry) ::
      TouchedPaths(c) <= ParentIndexes(fromPath, toPath)
  {
    MovedUpkeep(tree, fromPath, toPath, entry);
  }

  /** Moving a file takes its content from one path to the other, and its entry from one index to the other. */
  lemma MoveFileEffect(tree: Tree, fromPath: Path, toPath: Path)
    requires PrefixFree(tree) && Succeeded(MoveFile(tree, fromPath, toPath))
    ensures var after := MoveFile(tree, fromPath, toPath).value.tree;
      && At(after, toPath) == At(tree, fromPath) && fromPath !in after && toPath !in tree
      && SameBut(tree, after, {fromPath, toPath} + ParentIndexes(fromPath, toPath))
      && IndexesAfterMove(tree, after, fromPath, toPath, Leaf(toPath))
  {
    var committed := MoveFile(tree, fromPath, toPath).value;
    var after, changes := committed.tree, committed.changes;
    var upkeep := StageEntryMoved(tree, fromPath, toPath, Leaf(toPath));
    MoveFileDescribed(tree, fromPath, toPath);
    UpkeepTouches(tree, fromPath, toPath, Leaf(toPath));
    assert changes == [Moved(fromPath, toPath, tree[fromPath])] + upkeep && changes[1..] == upkeep;
    MovedContent(tree, after, changes, fromPath, toPath);
    assert changes[..1] == [changes[0]] && TouchedPaths(changes[0]) == {fromPath, toPath};
    MovedIndexes(tree, after, changes, fromPath, toPath, Leaf(toPath), 1);
  }

  lemma MovedContent(tree: Tree, after: Tree, changes: seq<FileChange>, fromPath: Path, toPath: Path)
    requires fromPath != [] && toPath != [] && fromPath in tree && Describes(changes, tree, after)
    requires changes != [] && changes[0] == Moved(fromPath, toPath, tree[fromPath])
    requires forall c | c in changes[1..] :: TouchedPaths(c) <= ParentIndexes(fromPath, toPath)
    ensures At(after, toPath) == At(tree, fromPath) && fromPath !in after
    ensures SameBut(tree, after, {fromPath, toPath} + ParentIndexes(fromPath, toPath))
  {
    assert changes[0] in changes && WellTargeted(changes[0], tree);
    WrittenAt(changes, tree, after, 0, fromPath);
    WrittenAt(changes, tree, after, 0, toPath);
    forall p | p !in {fromPath, toPath} + ParentIndexes(fromPath, toPath)
      ensures At(tree, p) == At(after, p)
    {
      assert forall c | c in changes :: c == changes[0] || c in changes[1..];
      KeptAt(changes, tree, after, p);
    }
  }

  /** Moving a file there and back restores all content; only the indexes may remember the trip. */
  lemma MoveFileBack(tree: Tree, fromPath: Path, toPath: Path, there: Tree, back: Tree)
    requires PrefixFree(tree)
    requires Succeeded(MoveFile(tree, fromPath, toPath)) && MoveFile(tree, fromPath, toPath).value.tree == there
    requires Succeeded(MoveFile(there, toPath, fromPath)) && MoveFile(there, toPath, fromPath).value.tree == back
    ensures SameBut(tree, back, ParentIndexes(fromPath, toPath))
  {
    MoveFileEffect(tree, fromPath, toPath);
    MoveFilePrefixFree(tree, fromPath, toPath);
    MoveFileEffect(there, toPath, fromPath);
    SameThereAndBack(tree, there, back, fromPath, toPath,
                     ParentIndexes(fromPath, toPath));
  }

  lemma MoveFilePrefixFree(tree: Tree, fromPath: Path, toPath: Path)
    requires PrefixFree(tree) && Succeeded(MoveFile(tree, fromPath, toPath))
    ensures PrefixFree(MoveFile(tree, fromPath, toPath).value.tree)
  {
    CreateUpdatedPrefixFree(tree, AllUpdates(MoveFile(tree, fromPath, toPath).value.changes));
  }

  lemma SameThereAndBack(tree: Tree, there: Tree, back: Tree, from: Path, to: Path, indexes: set<Path>)
    requires SameBut(tree, there, {from, to} + indexes) && SameBut(there, back, {to, from} + indexes)
    requires At(there, to) == At(tree, from) && At(back, from) == At(there, to) && to !in back && to !in tree
    ensures SameBut(tree, back, indexes)
  {
  }

  /** A rename keeps the entry's place in the index exactly when no earlier entry already spells the new name. */
  lemma RenameKeepsPlaceIff(before: seq<Name>, fromName: Name, entry: Name)
    requires PositionOf(before, fromName) >= 0
    ensures var slot := PositionOf(before, fromName);
      PositionOf(before[slot := entry], EntryName(entry)) == slot
      <==> forall j | 0 <= j < slot :: EntryName(before[j]) != EntryName(entry)
  {
    var slot := PositionOf(before, fromName);
    var renamed := before[slot := entry];
    if forall j | 0 <= j < slot :: EntryName(before[j]) != EntryName(entry) {
      PositionUnique(renamed, EntryName(entry), slot);
    } else {
      var j :| 0 <= j < slot && EntryName(before[j]) == EntryName(entry);
      assert EntryName(renamed[j]) == EntryName(entry);
    }
  }

  // Whole folders

  /** A folder move that went through was let through, and reports its files' moves, then the indexes' upkeep. */
  lemma MoveDirectoryOutcome(tree: Tree, fromPath: Path, toPath: Path, blobs: seq<Path>)
    requires Walks(blobs, tree, fromPath) && Succeeded(MoveDirectory(tree, fromPath, toPath, blobs))
    ensures Movable(tree, fromPath, toPath)
    ensures MoveDirectory(tree, fromPath, toPath, blobs).value.changes
         == MovedChanges(tree, blobs, fromPath, toPath) + StageEntryMoved(tree, fromPath, toPath, DirectoryEntry(Leaf(toPath)))
  {
  }

  /** Moving a folder relocates every path beneath it, each with its own content, and leaves every other path alone. */
  lemma MoveDirectoryEffect(tree: Tree, fromPath: Path, toPath: Path, blobs: seq<Path>, after: Tree)
    requires fromPath != [] && toPath != [] && PrefixFree(tree) && Walks(blobs, tree, fromPath)
    requires Succeeded(MoveDirectory(tree, fromPath, toPath, blobs))
    requires MoveDirectory(tree, fromPath, toPath, blobs).value.tree == after
    ensures forall p | Under(p, fromPath) :: At(after, Relocated(p, fromPath, toPath)) == At(tree, p) && p !in after
    ensures forall p | !Under(p, fromPath) && !Under(p, toPath) && p !in ParentIndexes(fromPath, toPath) ::
      At(after, p) == At(tree, p)
    ensures IndexesAfterMove(tree, after, fromPath, toPath, DirectoryEntry(Leaf(toPath)))
  {
    var changes := MoveDirectory(tree, fromPath, toPath, blobs).value.changes;
    MoveDirectoryDescribed(tree, fromPath, toPath, blobs);
    MoveDirectoryOutcome(tree, fromPath, toPath, blobs);
    FolderMoved(tree, after, changes, fromPath, toPath, blobs);
  }

  /** The same of any commit with these changes. */
  lemma FolderMoved(tree: Tree, after: Tree, changes: seq<FileChange>, fromPath: Path, toPath: Path, blobs: seq<Path>)
    requires Movable(tree, fromPath, toPath) && Walks(blobs, tree, fromPath) && Describes(changes, tree, after)
    requires changes == MovedChanges(tree, blobs, fromPath, toPath)
                      + StageEntryMoved(tree, fromPath, toPath, DirectoryEntry(Leaf(toPath)))
    ensures forall p | Under(p, fromPath) :: At(after, Relocated(p, fromPath, toPath)) == At(tree, p) && p !in after
    ensures forall p | !Under(p, fromPath) && !Under(p, toPath) && p !in ParentIndexes(fromPath, toPath) ::
      At(after, p) == At(tree, p)
    ensures IndexesAfterMove(tree, after, fromPath, toPath, DirectoryEntry(Leaf(toPath)))
  {
    var moves := MovedChanges(tree, blobs, fromPath, toPath);
    var entry := DirectoryEntry(Leaf(toPath));
    UpkeepTouches(tree, fromPath, toPath, entry);
    assert changes[..|moves|] == moves && changes[|moves|..] == StageEntryMoved(tree, fromPath, toPath, entry);
    FolderIndexesLeft(tree, fromPath, toPath, blobs);
    MovedIndexes(tree, after, changes, fromPath, toPath, entry, |moves|);
    forall p | Under(p, fromPath)
      ensures At(after, Relocated(p, fromPath, toPath)) == At(tree, p) && p !in after
    {
      FolderPath(tree, after, changes, fromPath, toPath, blobs, p);
    }
    forall p | !Under(p, fromPath) && !Under(p, toPath) && p !in ParentIndexes(fromPath, toPath)
      ensures At(after, p) == At(tree, p)
    {
      FolderElsewhere(tree, after, changes, fromPath, toPath, blobs, p);
    }
  }

  /** Neither parent's index sits inside the folder moved or the folder it becomes. */
  lemma IndexesOutside(tree: Tree, fromPath: Path, toPath: Path)
    requires Movable(tree, fromPath, toPath)
    ensures forall folder, index | folder in {fromPath, toPath}
      && index in ParentIndexes(fromPath, toPath) :: !Under(index, folder)
  {
    var from, to := OrderFilePath(Parent(fromPath)), OrderFilePath(Parent(toPath));
    assert Parent(from) == Parent(fromPath) && Parent(to) == Parent(toPath);
    OutsideOwnFolder(from, fromPath);
    OutsideOwnFolder(to, toPath);
    SiblingUnder(to, toPath, fromPath);
    SiblingUnder(from, fromPath, toPath);
    var p :| p in tree && Under(p, fromPath);
    UnderTransitive(p, fromPath, toPath);
  }

  lemma FolderIndexesLeft(tree: Tree, fromPath: Path, toPath: Path, blobs: seq<Path>)
    requires Movable(tree, fromPath, toPath) && Walks(blobs, tree, fromPath)
    ensures forall c | c in MovedChanges(tree, blobs, fromPath, toPath) ::
      OrderFilePath(Parent(fromPath)) !in TouchedPaths(c) && OrderFilePath(Parent(toPath)) !in TouchedPaths(c)
  {
    IndexesOutside(tree, fromPath, toPath);
    var moves := MovedChanges(tree, blobs, fromPath, toPath);
    forall c | c in moves
      ensures OrderFilePath(Parent(fromPath)) !in TouchedPaths(c) && OrderFilePath(Parent(toPath)) !in TouchedPaths(c)
    {
      MoveTouches(tree, fromPath, toPath, blobs, c);
    }
  }

  /** A move inside a relocated folder touches one path beneath each of the two folders, the one from the other. */
  lemma MoveTouches(tree: Tree, fromPath: Path, toPath: Path, blobs: seq<Path>, c: FileChange)
    requires Movable(tree, fromPath, toPath) && Walks(blobs, tree, fromPath)
    requires c in MovedChanges(tree, blobs, fromPath, toPath)
    ensures c.Moved? && c.fromPath in tree && Under(c.fromPath, fromPath) && Under(c.toPath, toPath)
    ensures c.toPath == Relocated(c.fromPath, fromPath, toPath) && !Under(c.toPath, fromPath)
  {
    var moves := MovedChanges(tree, blobs, fromPath, toPath);
    var i :| 0 <= i < |moves| && moves[i] == c;
    assert blobs[i] in blobs;
    RelocatedIsFree(tree, fromPath, toPath, blobs[i]);
  }

  lemma FolderPath(tree: Tree, after: Tree, changes: seq<FileChange>, fromPath: Path, toPath: Path,
                   blobs: seq<Path>, p: Path)
    requires Movable(tree, fromPath, toPath) && Walks(blobs, tree, fromPath) && Describes(changes, tree, after)
    requires MovedChanges(tree, blobs, fromPath, toPath) <= changes
    requires forall c | c in changes[|blobs|..] :: TouchedPaths(c) <= ParentIndexes(fromPath, toPath)
    requires Under(p, fromPath)
    ensures At(after, Relocated(p, fromPath, toPath)) == At(tree, p) && p !in after
  {
    var moved := Relocated(p, fromPath, toPath);
    var moves := MovedChanges(tree, blobs, fromPath, toPath);
    assert Under(moved, toPath);
    if p in tree {
      var i :| 0 <= i < |blobs| && blobs[i] == p;
      assert changes[i] == moves[i] == Moved(p, moved, tree[p]);
      RelocatedIsFree(tree, fromPath, toPath, p);
      WrittenAt(changes, tree, after, i, p);
      WrittenAt(changes, tree, after, i, moved);
    } else {
      IndexesOutside(tree, fromPath, toPath);
      SplitAt(changes, |blobs|, changes[|blobs|..]);
      forall c | c in changes
        ensures p !in TouchedPaths(c) && moved !in TouchedPaths(c)
      {
        if c in moves {
          MoveTouches(tree, fromPath, toPath, blobs, c);
          RelocatedInjective(c.fromPath, p, fromPath, toPath);
          CommonExtension(p, fromPath, toPath);
          CommonExtension(moved, fromPath, toPath);
          NotBothFolders(tree, fromPath, toPath);
        }
      }
      KeptAt(changes, tree, after, p);
      KeptAt(changes, tree, after, moved);
    }
  }

  lemma NotBothFolders(tree: Tree, fromPath: Path, toPath: Path)
    requires Movable(tree, fromPath, toPath)
    ensures !Under(fromPath, toPath)
  {
    var p :| p in tree && Under(p, fromPath);
    UnderTransitive(p, fromPath, toPath);
  }

  lemma FolderElsewhere(tree: Tree, after: Tree, changes: seq<FileChange>, fromPath: Path, toPath: Path,
                        blobs: seq<Path>, p: Path)
    requires Movable(tree, fromPath, toPath) && Walks(blobs, tree, fromPath) && Describes(changes, tree, after)
    requires MovedChanges(tree, blobs, fromPath, toPath) <= changes
    requires forall c | c in changes[|blobs|..] :: TouchedPaths(c) <= ParentIndexes(fromPath, toPath)
    requires !Under(p, fromPath) && !Under(p, toPath)
    requires p !in ParentIndexes(fromPath, toPath)
    ensures At(after, p) == At(tree, p)
  {
    SplitAt(changes, |blobs|, changes[|blobs|..]);
    forall c | c in changes
      ensures p !in TouchedPaths(c)
    {
      if c in MovedChanges(tree, blobs, fromPath, toPath) { MoveTouches(tree, fromPath, toPath, blobs, c); }
    }
    KeptAt(changes, tree, after, p);
  }

  // Orders

  /** Storing an index stores exactly it, touches nothing else, and is done once it is stored. */
  lemma StoreOrderEffect(tree: Tree, directory: Path, entries: seq<Name>)
    requires PrefixFree(tree) && Succeeded(StoreOrder(tree, directory, entries))
    ensures var after := StoreOrder(tree, directory, entries).value.tree;
      && StoredOrder(after, directory) == (if entries == [] then None else Some(entries))
      && SameBut(tree, after, {OrderFilePath(directory)})
      && StoreOrder(after, directory, entries) == Ok(Unchanged)
  {
    var committed := StoreOrder(tree, directory, entries).value;
    var after := committed.tree;
    var index := OrderFilePath(directory);
    StoreOrderDescribed(tree, directory, entries);
    assert |committed.changes| == 1 && TouchedPaths(committed.changes[0]) == {index};
    WrittenAt(committed.changes, tree, after, 0, index);
    forall p | p != index
      ensures At(tree, p) == At(after, p)
    {
      KeptAt(committed.changes, tree, after, p);
    }
  }

  /** The order read back names what was written, entry by entry, spelled for what each entry is. */
  lemma {:induction false} CanonicalNames(tree: Tree, directory: Path, order: seq<Name>)
    requires CanonicalOrder(tree, directory, order).Some?
    requires forall e | e in order :: '/' !in EntryName(e)
    ensures var canonical := CanonicalOrder(tree, directory, order).value;
      && |canonical| == |order|
      && forall i | 0 <= i < |order| ::
           && EntryName(canonical[i]) == EntryName(order[i])
           && Exists(tree, directory + [EntryName(order[i])])
           && (canonical[i] == EntryName(order[i]) <==> directory + [EntryName(order[i])] in tree)
  {
    if order != [] {
      CanonicalNames(tree, directory, order[1..]);
      assert order[0] in order;
    }
  }

  /** A written order reads back as written, and writing it again makes no commit. */
  lemma WriteOrderEffect(tree: Tree, directory: Path, order: seq<Name>, allowHidden: bool)
    requires PrefixFree(tree) && Succeeded(WriteOrder(tree, directory, order, allowHidden))
    ensures var after := WriteOrder(tree, directory, order, allowHidden).value.tree;
      && StoredOrder(after, directory).Some? && |StoredOrder(after, directory).value| == |order|
      && (forall i | 0 <= i < |order| :: EntryName(StoredOrder(after, directory).value[i]) == EntryName(order[i]))
      && SameBut(tree, after, {OrderFilePath(directory)})
  {
    var canonical := CanonicalOrder(tree, directory, order).value;
    CanonicalNames(tree, directory, order);
    StoreOrderEffect(tree, directory, canonical);
  }

  /** HEAD's tree after a request that went through, commit or no commit. */
  function TreeAfter(tree: Tree, outcome: Outcome): Tree {
    if outcome.Committed? then outcome.tree else tree
  }

  /** Storing an index, whether or not it took a commit, leaves that index, and every further storing makes none. */
  lemma StoreOrderSettles(tree: Tree, directory: Path, entries: seq<Name>, after: Tree)
    requires PrefixFree(tree) && StoreOrder(tree, directory, entries).Ok?
    requires after == TreeAfter(tree, StoreOrder(tree, directory, entries).value)
    ensures StoredOrder(after, directory) == (if entries == [] then None else Some(entries))
    ensures SameBut(tree, after, {OrderFilePath(directory)})
    ensures StoreOrder(after, directory, entries) == Ok(Unchanged)
  {
    if Succeeded(StoreOrder(tree, directory, entries)) {
      StoreOrderEffect(tree, directory, entries);
    }
  }

  /** Writing a folder's index changes no other row of its listing. */
  lemma IndexAside(tree: Tree, after: Tree, directory: Path, children: seq<Child>, later: seq<Child>)
    requires SameBut(tree, after, {OrderFilePath(directory)})
    requires Lists(children, tree, directory) && Lists(later, after, directory)
    ensures SameEntries(children, later)
  {
    forall c: Child | c.name != ORDER_FILE_NAME
      ensures c in children <==> c in later
    {
      var path := directory + [c.name];
      assert Leaf(path) == c.name && Leaf(OrderFilePath(directory)) == ORDER_FILE_NAME;
      SameFileAndFolder(tree, after, OrderFilePath(directory), path);
      match c {
        case File(name) =>
        case Folder(name) =>
      }
    }
  }

  /** A path no longer than the one rewritten, and not that one, is a file or a folder as before. */
  lemma SameFileAndFolder(tree: Tree, after: Tree, rewritten: Path, path: Path)
    requires SameBut(tree, after, {rewritten}) && path != rewritten && |path| >= |rewritten| > 0
    ensures path in tree <==> path in after
    ensures IsDirectory(tree, path) <==> IsDirectory(after, path)
  {
    assert At(tree, path) == At(after, path);
    forall p | Under(p, path)
      ensures p in tree <==> p in after
    {
      assert At(tree, p) == At(after, p);
    }
  }

  /** Moving an entry to a slot, or out of the index, touches nothing but the index; the slot read back is the one asked
      for, clamped to the tail, or none; and asking again, of the folder as it is by then, makes no commit. */
  lemma ReorderEffect(tree: Tree, path: Path, position: OrderPosition, implicitIndex: Option<int>, again: Option<int>,
                      allowHidden: bool, allowFolder: bool, children: seq<Child>, later: seq<Child>, after: Tree)
    requires PrefixFree(tree) && path != [] && Lists(children, tree, Parent(path)) && Lists(later, after, Parent(path))
    requires var first := ReorderEntry(tree, path, position, implicitIndex, allowHidden, allowFolder, children);
      first.Ok? && after == TreeAfter(tree, first.value)
    ensures SameBut(tree, after, {OrderFilePath(Parent(path))})
    ensures var now := StoredOrder(after, Parent(path));
      match position
      case PlacedAt(slot) => now.Some? && PositionOf(now.value, Leaf(path)) == Min(slot, |now.value| - 1)
      case Unlisted => now.None? || PositionOf(now.value, Leaf(path)) == UNLISTED_POSITION
    ensures ReorderEntry(after, path, position, again, allowHidden, allowFolder, later) == Ok(Unchanged)
  {
    var entry, stored := EntryAt(tree, path), StoredOrder(tree, Parent(path));
    var entries := Reordered(children, stored, entry, position, implicitIndex, allowHidden);
    StoreOrderSettles(tree, Parent(path), entries, after);
    IndexAside(tree, after, Parent(path), children, later);
    EntryStays(tree, after, path, children);
    ReorderAgain(children, later, stored, entry, position, implicitIndex, again, allowHidden);
  }

  function EntryAt(tree: Tree, path: Path): Child
    requires path != []
  {
    if path in tree then File(Leaf(path)) else Folder(Leaf(path))
  }

  /** Rewriting a folder's index leaves its other entries files and folders as they were. */
  lemma EntryStays(tree: Tree, after: Tree, path: Path, children: seq<Child>)
    requires path != [] && !IsOrderFile(path) && Exists(tree, path) && Lists(children, tree, Parent(path))
    requires SameBut(tree, after, {OrderFilePath(Parent(path))})
    ensures EntryAt(tree, path) in children && EntryAt(after, path) == EntryAt(tree, path)
    ensures (path in tree <==> path in after) && (IsDirectory(tree, path) <==> IsDirectory(after, path))
  {
    assert path == Parent(path) + [Leaf(path)];
    IndexNamesOther(path);
    SameFileAndFolder(tree, after, OrderFilePath(Parent(path)), path);
  }

  lemma IndexNamesOther(path: Path)
    requires path != [] && !IsOrderFile(path)
    ensures path != OrderFilePath(Parent(path)) && |path| == |OrderFilePath(Parent(path))|
  {
    assert Leaf(OrderFilePath(Parent(path))) == ORDER_FILE_NAME;
  }

  /** The index a request writes shows the entry where it was asked for, and the same request on it writes it again. */
  lemma ReorderAgain(children: seq<Child>, later: seq<Child>, stored: Option<seq<Name>>, entry: Child,
                     position: OrderPosition, implicitIndex: Option<int>, again: Option<int>, allowHidden: bool)
    requires ValidChildren(children) && ValidChildren(later) && SameEntries(children, later)
    requires entry in children && entry.name != ORDER_FILE_NAME
    ensures var written := Reordered(children, stored, entry, position, implicitIndex, allowHidden);
      && PositionOf(written, entry.name) == (if position.PlacedAt? then Min(position.slot, |written| - 1) else UNLISTED_POSITION)
      && Reordered(later, if written == [] then None else Some(written), entry, position, again, allowHidden) == written
  {
    match position {
      case PlacedAt(slot) =>
        ReorderReadsBack(children, stored, entry, slot, implicitIndex, allowHidden);
        ReorderTwiceIsOnce(children, later, stored, entry, slot, implicitIndex, again, allowHidden);
      case Unlisted =>
        WithoutTwice(if stored.Some? then stored.value else [], entry.name);
    }
  }

  /** Unlisting what no index lists is the no-op it is meant to be exactly when the folder has no index file, or has one
      that lists something in the one spelling this service writes; any other index file is rewritten or removed. */
  lemma UnlistUnlistedIff(tree: Tree, path: Path, implicitIndex: Option<int>, allowHidden: bool, allowFolder: bool,
                          children: seq<Child>)
    requires PrefixFree(tree) && ReorderEntry(tree, path, Unlisted, implicitIndex, allowHidden, allowFolder, children).Ok?
    requires StoredOrder(tree, Parent(path)).Some? ==>
      PositionOf(StoredOrder(tree, Parent(path)).value, Leaf(path)) == UNLISTED_POSITION
    ensures ReorderEntry(tree, path, Unlisted, implicitIndex, allowHidden, allowFolder, children) == Ok(Unchanged)
       <==> var index := At(tree, OrderFilePath(Parent(path)));
            index.None? || (index.value.OrderDocument? && index.value.order != [] && index.value.spelling == 0)
  {
    var listed := if StoredOrder(tree, Parent(path)).Some? then StoredOrder(tree, Parent(path)).value else [];
    FilterAll(listed, (e: Name) => EntryName(e) != Leaf(path));
  }
}
