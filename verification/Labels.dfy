/** Whether the change a commit reports is the kind of change it was. */
module ChangeLabels {
  import opened Wrappers
  import opened Paths
  import opened Trees
  import opened Receiver
  import opened HookJobs
  import opened Sorting
  import opened OrderIndex
  import opened Operations
  import opened OperationLaws
  import opened Commits
  import opened CommitLaws
  import opened History

  /** A creation is of a path HEAD did not hold, an update or deletion of one it did, a move from one it did to one it
      did not. */
  predicate Truthful(change: FileChange, head: Tree) {
    match change
    case Created(path, _) => path !in head
    case Updated(path, _) => path in head
    case Deleted(path) => path in head
    case Moved(fromPath, toPath, _) => fromPath in head && toPath !in head
  }

  ghost predicate AllTruthful(changes: seq<FileChange>, head: Tree) {
    forall c | c in changes :: Truthful(c, head)
  }

  lemma UpkeepTruthful(changes: seq<FileChange>, tree: Tree)
    requires forall c | c in changes :: IsUpkeep(c, tree)
    ensures AllTruthful(changes, tree)
  {
  }

  lemma FolderDeletionTruthful(tree: Tree, directory: Path, blobs: seq<Path>)
    requires Walks(blobs, tree, directory)
    ensures AllTruthful(DeletedChanges(blobs), tree)
  {
    forall c | c in DeletedChanges(blobs)
      ensures Truthful(c, tree)
    {
      var i :| 0 <= i < |blobs| && DeletedChanges(blobs)[i] == c;
      assert blobs[i] in blobs;
    }
  }

  lemma FolderMoveTruthful(tree: Tree, fromPath: Path, toPath: Path, blobs: seq<Path>)
    requires Walks(blobs, tree, fromPath) && Movable(tree, fromPath, toPath)
    ensures AllTruthful(MovedChanges(tree, blobs, fromPath, toPath), tree)
  {
    var changes := MovedChanges(tree, blobs, fromPath, toPath);
    forall c | c in changes
      ensures Truthful(c, tree)
    {
      var i :| 0 <= i < |changes| && changes[i] == c;
      RelocatedIsFree(tree, fromPath, toPath, blobs[i]);
    }
  }

  lemma DeleteDirectoryTruthful(tree: Tree, directory: Path, blobs: seq<Path>)
    requires Walks(blobs, tree, directory)
    ensures var result := DeleteDirectory(tree, directory, blobs);
      result.Ok? && result.value.Committed? ==> AllTruthful(result.value.changes, tree)
  {
    if directory != [] {
      RemovedUpkeep(tree, directory);
      FolderDeletionTruthful(tree, directory, blobs);
    }
  }

  lemma DeleteFileTruthful(tree: Tree, path: Path)
    ensures var result := DeleteFile(tree, path);
      result.Ok? && result.value.Committed? ==> AllTruthful(result.value.changes, tree)
  {
    if path != [] { RemovedUpkeep(tree, path); }
  }

  lemma WritesTruthful(tree: Tree, path: Path, content: Blob, directory: Path, entries: seq<Name>)
    requires !content.NotUtf8?
    ensures var result := WriteFile(tree, path, content);
      result.Ok? && result.value.Committed? ==> AllTruthful(result.value.changes, tree)
    ensures var result := StoreOrder(tree, directory, entries);
      result.Ok? && result.value.Committed? ==> AllTruthful(result.value.changes, tree)
    ensures var result := DeleteOrder(tree, directory);
      result.Ok? && result.value.Committed? ==> AllTruthful(result.value.changes, tree)
  {
  }

  lemma MoveFileTruthful(tree: Tree, fromPath: Path, toPath: Path)
    ensures var result := MoveFile(tree, fromPath, toPath);
      result.Ok? && result.value.Committed? ==> AllTruthful(result.value.changes, tree)
  {
    var result := MoveFile(tree, fromPath, toPath);
    if result.Ok? {
      var upkeep := StageEntryMoved(tree, fromPath, toPath, Leaf(toPath));
      MovedUpkeep(tree, fromPath, toPath, Leaf(toPath));
      UpkeepTruthful(upkeep, tree);
      var moved := Moved(fromPath, toPath, tree[fromPath]);
      assert Truthful(moved, tree) && result.value.changes == [moved] + upkeep;
    }
  }

  lemma MoveDirectoryTruthful(tree: Tree, fromPath: Path, toPath: Path, blobs: seq<Path>)
    requires Walks(blobs, tree, fromPath)
    ensures var result := MoveDirectory(tree, fromPath, toPath, blobs);
      result.Ok? && result.value.Committed? ==> AllTruthful(result.value.changes, tree)
  {
    if Movable(tree, fromPath, toPath) {
      MovedUpkeep(tree, fromPath, toPath, DirectoryEntry(Leaf(toPath)));
      FolderMoveTruthful(tree, fromPath, toPath, blobs);
    }
  }

  lemma RollbackOfTruthful(delta: Delta, head: Tree, c: FileChange)
    requires c in RollbackOf(delta, head)
    ensures Truthful(c, head)
  {
  }

  lemma RollbackTruthful(deltas: seq<Delta>, head: Tree)
    ensures AllTruthful(Rollbacks(deltas, head), head)
  {
    forall c | c in Rollbacks(deltas, head)
      ensures Truthful(c, head)
    {
      RollbacksFrom(deltas, head, c);
      var d :| d in deltas && c in RollbackOf(d, head);
      RollbackOfTruthful(d, head, c);
    }
  }

  /** Every request but a revert reports its changes for what they are. */
  lemma RequestTruthful(run: Run, request: Request)
    requires run.trees != [] && Admissible(run, request) && !request.RevertCommit?
    ensures var result := Perform(run, request);
      result.Ok? && result.value.Committed? ==> AllTruthful(result.value.changes, Head(run))
  {
    var head := Head(run);
    match request {
      case Write(path, content) => WritesTruthful(head, path, content, [], []);
      case Delete(path) => DeleteFileTruthful(head, path);
      case DeleteFolder(path, blobs) => DeleteDirectoryTruthful(head, path, blobs);
      case Move(fromPath, toPath) => MoveFileTruthful(head, fromPath, toPath);
      case MoveFolder(fromPath, toPath, blobs) => MoveDirectoryTruthful(head, fromPath, toPath, blobs);
      case PutOrder(directory, order, allowHidden) =>
        var canonical := CanonicalOrder(head, directory, order);
        if canonical.Some? { WritesTruthful(head, [], Serialize([]), directory, canonical.value); }
      case Reorder(path, position, implicitIndex, allowHidden, _, children) =>
        if path != [] { ReorderTruthful(head, path, position, implicitIndex, allowHidden, children); }
      case DropOrder(directory) => WritesTruthful(head, [], Serialize([]), directory, []);
      case RollbackCommit(_, deltas) => RollbackTruthful(deltas, head);
    }
  }

  lemma ReorderTruthful(tree: Tree, path: Path, position: OrderPosition, implicitIndex: Option<int>, allowHidden: bool,
                        children: seq<Child>)
    requires path != []
    ensures forall allowFolder: bool :: var result := ReorderEntry(tree, path, position, implicitIndex, allowHidden, allowFolder, children);
      result.Ok? && result.value.Committed? ==> AllTruthful(result.value.changes, tree)
  {
    var entry := if path in tree then File(Leaf(path)) else Folder(Leaf(path));
    var entries := Reordered(children, StoredOrder(tree, Parent(path)), entry, position, implicitIndex, allowHidden);
    WritesTruthful(tree, [], Serialize([]), Parent(path), entries);
  }

  /** A revert labels each change by what its commit did, which is true exactly when HEAD still holds the touched paths the
      commit left there and none that it took away. */
  lemma RevertTruthfulIff(deltas: seq<Delta>, parent: Tree, target: Tree, head: Tree)
    requires IsDiff(deltas, parent, target)
    ensures AllTruthful(Inverses(deltas), head) <==> forall p | Touched(parent, target, p) :: p in head <==> p in target
  {
    if deltas != [] { InversesMember(deltas, 0); }
    if AllTruthful(Inverses(deltas), head) {
      forall p | Touched(parent, target, p)
        ensures p in head <==> p in target
      {
        var d :| d in deltas && p in DeltaPaths(d);
        var i :| 0 <= i < |deltas| && deltas[i] == d;
        InversesMember(deltas, i);
        assert Inverses(deltas)[i] in Inverses(deltas) && DeltaHolds(d, parent, target);
      }
    } else {
      var c :| c in Inverses(deltas) && !Truthful(c, head);
      var i :| 0 <= i < |Inverses(deltas)| && Inverses(deltas)[i] == c;
      InversesMember(deltas, if i < |deltas| then i else 0);
      assert deltas[i] in deltas && DeltaHolds(deltas[i], parent, target);
      InverseWrites(deltas[i], parent, target);
      var p := if c.Moved? then if c.fromPath !in head then c.fromPath else c.toPath else c.path;
      assert p in DeltaPaths(deltas[i]) && Touched(parent, target, p);
    }
  }

  /** A rename in the rolled-back diff is reported as one move exactly where HEAD still has the file under its old name
      alone. */
  lemma RollbackMovesIff(deltas: seq<Delta>, parent: Tree, target: Tree, head: Tree, oldPath: Path, newPath: Path, blob: Blob)
    requires IsDiff(deltas, parent, target)
    ensures Moved(oldPath, newPath, blob) in Rollbacks(deltas, head) <==>
      && oldPath in head && newPath !in head
      && exists d :: d in deltas && d.Renamed? && d.oldPath == oldPath && d.newPath == newPath && d.newBlob == blob
  {
    var c := Moved(oldPath, newPath, blob);
    if c in Rollbacks(deltas, head) {
      RollbacksFrom(deltas, head, c);
    }
    if d :| && d in deltas && d.Renamed? && d.oldPath == oldPath && d.newPath == newPath && d.newBlob == blob
            && oldPath in head && newPath !in head
    {
      assert c in RollbackOf(d, head);
      RollbacksHold(deltas, head, d, c);
    }
  }

  lemma {:induction false} RollbacksHold(deltas: seq<Delta>, head: Tree, d: Delta, c: FileChange)
    requires d in deltas && c in RollbackOf(d, head)
    ensures c in Rollbacks(deltas, head)
  {
    if d != deltas[|deltas| - 1] { RollbacksHold(deltas[..|deltas| - 1], head, d, c); }
  }
}
