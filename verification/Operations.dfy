/** The committing operations on files, folders and orders, each against HEAD's tree. */
module Operations {
  import opened Wrappers
  import opened Paths
  import opened Trees
  import opened Receiver
  import opened HookJobs
  import opened OrderIndex
  import opened Sorting

  datatype Error = FileNotFound | InvalidOperation | InvalidUtf8 | OrderNotFound | CommitNotFound | TreeRefused

  datatype Outcome = Committed(tree: Tree, changes: seq<FileChange>) | Unchanged

  function UpdatesOf(change: FileChange): seq<Update> {
    match change
    case Created(path, content) => [Upsert(path, content)]
    case Updated(path, content) => [Upsert(path, content)]
    case Deleted(path) => [Remove(path)]
    case Moved(fromPath, toPath, content) => [Remove(fromPath), Upsert(toPath, content)]
  }

  function AllUpdates(changes: seq<FileChange>): seq<Update> {
    if changes == [] then []
    else AllUpdates(changes[..|changes| - 1]) + UpdatesOf(changes[|changes| - 1])
  }

  function Commit(tree: Tree, updates: seq<Update>, changes: seq<FileChange>): Result<Outcome, Error> {
    match CreateUpdated(tree, updates)
    case None => Err(TreeRefused)
    case Some(updated) => Ok(Committed(updated, changes))
  }

  // Upkeep of the parent's index, in the same commit

  function StoredOrder(tree: Tree, directory: Path): Option<seq<Name>> {
    var index := OrderFilePath(directory);
    if index in tree then Parse(tree[index]) else None
  }

  function StageIndex(directory: Path, entries: seq<Name>, existed: bool): FileChange {
    var index := OrderFilePath(directory);
    if entries == [] then Deleted(index)
    else if existed then Updated(index, Serialize(entries))
    else Created(index, Serialize(entries))
  }

  function StageEntryRemoved(tree: Tree, directory: Path, name: Name): seq<FileChange> {
    match StoredOrder(tree, directory)
    case None => []
    case Some(stored) =>
      var retained := Without(stored, name);
      if |retained| == |stored| then [] else [StageIndex(directory, retained, true)]
  }

  function StageEntryAppended(tree: Tree, directory: Path, entry: Name): seq<FileChange> {
    match StoredOrder(tree, directory)
    case None => []
    case Some(stored) =>
      if Listed(stored, entry) then [] else [StageIndex(directory, stored + [entry], true)]
  }

  function StageEntryRenamed(tree: Tree, directory: Path, fromName: Name, entry: Name): seq<FileChange> {
    match StoredOrder(tree, directory)
    case None => []
    case Some(stored) =>
      var position := PositionOf(stored, fromName);
      if position < 0 then [] else [StageIndex(directory, stored[position := entry], true)]
  }

  /** Both parents' indexes after a move: the position is kept within one folder, otherwise the entry
      leaves one index and joins the tail of the other, if there is one. */
  function StageEntryMoved(tree: Tree, fromPath: Path, toPath: Path, entry: Name): seq<FileChange>
    requires fromPath != [] && toPath != []
  {
    if Parent(fromPath) == Parent(toPath) then StageEntryRenamed(tree, Parent(fromPath), Leaf(fromPath), entry)
    else StageEntryRemoved(tree, Parent(fromPath), Leaf(fromPath)) + StageEntryAppended(tree, Parent(toPath), entry)
  }

  // The operations. Paths are never the root: the routes refuse an empty path.

  function WriteFile(tree: Tree, path: Path, content: Blob): Result<Outcome, Error>
    requires !content.NotUtf8?
  {
    if IsOrderFile(path) then Err(InvalidOperation)
    else if path in tree then
      if tree[path] == content then Ok(Unchanged)
      else Commit(tree, AllUpdates([Updated(path, content)]), [Updated(path, content)])
    else if IsDirectory(tree, path) then Err(InvalidOperation)
    else Commit(tree, AllUpdates([Created(path, content)]), [Created(path, content)])
  }

  function DeleteFile(tree: Tree, path: Path): Result<Outcome, Error> {
    if path == [] || IsOrderFile(path) || path !in tree then Err(FileNotFound)
    else
      var changes := [Deleted(path)] + StageEntryRemoved(tree, Parent(path), Leaf(path));
      Commit(tree, AllUpdates(changes), changes)
  }

  /** `blobs` is the subtree walk: every file under `directory`, once, in some order. */
  ghost predicate Walks(blobs: seq<Path>, tree: Tree, directory: Path) {
    Distinct(blobs) && forall p :: p in blobs <==> p in tree && Under(p, directory)
  }

  function DeletedChanges(blobs: seq<Path>): seq<FileChange> {
    seq(|blobs|, i requires 0 <= i < |blobs| => Deleted(blobs[i]))
  }

  function DeleteDirectory(tree: Tree, directory: Path, blobs: seq<Path>): Result<Outcome, Error> {
    if directory == [] || directory in tree || !IsDirectory(tree, directory) then Err(FileNotFound)
    else if blobs == [] then Ok(Unchanged)
    else
      var upkeep := StageEntryRemoved(tree, Parent(directory), Leaf(directory));
      Commit(tree, [Remove(directory)] + AllUpdates(upkeep), DeletedChanges(blobs) + upkeep)
  }

  function MoveFile(tree: Tree, fromPath: Path, toPath: Path): Result<Outcome, Error> {
    if IsOrderFile(fromPath) then Err(FileNotFound)
    else if IsOrderFile(toPath) || fromPath == toPath then Err(InvalidOperation)
    else if fromPath == [] || fromPath !in tree then Err(FileNotFound)
    else if toPath == [] || Exists(tree, toPath) then Err(InvalidOperation)
    else if tree[fromPath].NotUtf8? then Err(InvalidUtf8)
    else
      var changes := [Moved(fromPath, toPath, tree[fromPath])] + StageEntryMoved(tree, fromPath, toPath, Leaf(toPath));
      Commit(tree, AllUpdates(changes), changes)
  }

  function Relocated(path: Path, fromPath: Path, toPath: Path): Path
    requires Under(path, fromPath)
  {
    toPath + path[|fromPath|..]
  }

  function MovedChanges(tree: Tree, blobs: seq<Path>, fromPath: Path, toPath: Path): seq<FileChange>
    requires forall p | p in blobs :: p in tree && Under(p, fromPath)
  {
    seq(|blobs|, i requires 0 <= i < |blobs| => Moved(blobs[i], Relocated(blobs[i], fromPath, toPath), tree[blobs[i]]))
  }

  function RelocatingUpdates(tree: Tree, blobs: seq<Path>, fromPath: Path, toPath: Path): seq<Update>
    requires forall p | p in blobs :: p in tree && Under(p, fromPath)
  {
    seq(|blobs|, i requires 0 <= i < |blobs| => Upsert(Relocated(blobs[i], fromPath, toPath), tree[blobs[i]]))
  }

  function MoveDirectory(tree: Tree, fromPath: Path, toPath: Path, blobs: seq<Path>): Result<Outcome, Error>
    requires forall p | p in blobs :: p in tree && Under(p, fromPath)
  {
    if fromPath == toPath || Under(toPath, fromPath) then Err(InvalidOperation)
    else if fromPath == [] || fromPath in tree || !IsDirectory(tree, fromPath) then Err(FileNotFound)
    else if toPath == [] || Exists(tree, toPath) then Err(InvalidOperation)
    else if blobs == [] then Ok(Unchanged)
    else if exists p | p in blobs :: tree[p].NotUtf8? then Err(InvalidUtf8)
    else
      var upkeep := StageEntryMoved(tree, fromPath, toPath, DirectoryEntry(Leaf(toPath)));
      Commit(tree, [Remove(fromPath)] + RelocatingUpdates(tree, blobs, fromPath, toPath) + AllUpdates(upkeep),
             MovedChanges(tree, blobs, fromPath, toPath) + upkeep)
  }

  /** The source's loop over the collected blobs. */
  method MoveDirectoryBlobByBlob(tree: Tree, fromPath: Path, toPath: Path, blobs: seq<Path>)
    returns (result: Result<Outcome, Error>)
    requires forall p | p in blobs :: p in tree && Under(p, fromPath)
    ensures result == MoveDirectory(tree, fromPath, toPath, blobs)
  {
    if fromPath == toPath || Under(toPath, fromPath) {
      return Err(InvalidOperation);
    }
    if fromPath == [] || fromPath in tree || !IsDirectory(tree, fromPath) {
      return Err(FileNotFound);
    }
    if toPath == [] || Exists(tree, toPath) {
      return Err(InvalidOperation);
    }
    if blobs == [] {
      return Ok(Unchanged);
    }
    var updates := [Remove(fromPath)];
    var changes: seq<FileChange> := [];
    for i := 0 to |blobs|
      invariant forall p | p in blobs[..i] :: !tree[p].NotUtf8?
      invariant updates == [Remove(fromPath)] + RelocatingUpdates(tree, blobs[..i], fromPath, toPath)
      invariant changes == MovedChanges(tree, blobs[..i], fromPath, toPath)
    {
      var destination := Relocated(blobs[i], fromPath, toPath);
      if tree[blobs[i]].NotUtf8? {
        return Err(InvalidUtf8);
      }
      updates := updates + [Upsert(destination, tree[blobs[i]])];
      changes := changes + [Moved(blobs[i], destination, tree[blobs[i]])];
    }
    assert blobs[..|blobs|] == blobs;
    var upkeep := StageEntryMoved(tree, fromPath, toPath, DirectoryEntry(Leaf(toPath)));
    result := Commit(tree, updates + AllUpdates(upkeep), changes + upkeep);
  }

  /** Structural validation of a caller's order (`validate_order`), each entry once. */
  predicate ValidOrder(order: seq<Name>, allowHidden: bool) {
    && order != []
    && (forall e | e in order :: ValidEntry(EntryName(e), allowHidden))
    && (forall i, j | 0 <= i < j < |order| :: EntryName(order[i]) != EntryName(order[j]))
  }

  predicate ValidEntry(name: Name, allowHidden: bool) {
    && name != [] && '/' !in name && name != "." && name != ".." && name != ".git" && name != ORDER_FILE_NAME
    && (allowHidden || name[0] != '.')
  }

  method ValidateOrder(order: seq<Name>, allowHidden: bool) returns (valid: bool)
    ensures valid <==> ValidOrder(order, allowHidden)
  {
    if order == [] {
      return false;
    }
    var seen: seq<Name> := [];
    for i := 0 to |order|
      invariant |seen| == i && forall k | 0 <= k < i :: seen[k] == EntryName(order[k])
      invariant forall k | 0 <= k < i :: ValidEntry(EntryName(order[k]), allowHidden)
      invariant forall k, l | 0 <= k < l < i :: EntryName(order[k]) != EntryName(order[l])
    {
      var name := EntryName(order[i]);
      if !ValidEntry(name, allowHidden) {
        return false;
      }
      if name in seen {
        return false;
      }
      seen := seen + [name];
    }
    return true;
  }

  /** The entry `name` resolves to in HEAD, in index spelling. */
  function Resolved(tree: Tree, directory: Path, name: Name): Option<Name> {
    if directory + [name] in tree then Some(name)
    else if IsDirectory(tree, directory + [name]) then Some(DirectoryEntry(name))
    else None
  }

  function CanonicalOrder(tree: Tree, directory: Path, entries: seq<Name>): Option<seq<Name>> {
    if entries == [] then Some([])
    else
      match (Resolved(tree, directory, EntryName(entries[0])), CanonicalOrder(tree, directory, entries[1..]))
      case (Some(entry), Some(rest)) => Some([entry] + rest)
      case _ => None
  }

  /** Storing `entries` as the index: nothing to do when HEAD already says so. */
  function StoreOrder(tree: Tree, directory: Path, entries: seq<Name>): Result<Outcome, Error> {
    var index := OrderFilePath(directory);
    if (if entries == [] then index !in tree else At(tree, index) == Some(Serialize(entries))) then Ok(Unchanged)
    else
      var change := StageIndex(directory, entries, index in tree);
      Commit(tree, AllUpdates([change]), [change])
  }

  function WriteOrder(tree: Tree, directory: Path, order: seq<Name>, allowHidden: bool): Result<Outcome, Error> {
    if !ValidOrder(order, allowHidden) then Err(InvalidOperation)
    else if directory in tree || !IsDirectory(tree, directory) then Err(FileNotFound)
    else
      match CanonicalOrder(tree, directory, order)
      case None => Err(InvalidOperation)
      case Some(canonical) => StoreOrder(tree, directory, canonical)
  }

  function DeleteOrder(tree: Tree, directory: Path): Result<Outcome, Error> {
    if OrderFilePath(directory) !in tree then Err(OrderNotFound)
    else
      var change := StageIndex(directory, [], true);
      Commit(tree, AllUpdates([change]), [change])
  }

  /** `children` is what the tree object of `directory` lists. */
  ghost predicate Lists(children: seq<Child>, tree: Tree, directory: Path) {
    && ValidChildren(children)
    && (forall name :: File(name) in children <==> directory + [name] in tree)
    && (forall name :: Folder(name) in children <==> directory + [name] !in tree && IsDirectory(tree, directory + [name]))
  }

  function ReorderEntry(tree: Tree, path: Path, position: OrderPosition, implicitIndex: Option<int>,
                        allowHidden: bool, allowFolder: bool, children: seq<Child>): Result<Outcome, Error>
  {
    if path == [] || IsOrderFile(path) then Err(FileNotFound)
    else if path in tree || (allowFolder && IsDirectory(tree, path)) then
      var entry := if path in tree then File(Leaf(path)) else Folder(Leaf(path));
      var entries := Reordered(children, StoredOrder(tree, Parent(path)), entry, position, implicitIndex, allowHidden);
      StoreOrder(tree, Parent(path), entries)
    else Err(FileNotFound)
  }
}

/** What the operations guarantee: the changes they report are exactly what they did to the tree. */
module OperationLaws {
  import opened Wrappers
  import opened Paths
  import opened Trees
  import opened Receiver
  import opened HookJobs
  import opened OrderIndex
  import opened Sorting
  import opened Operations

  /** The reported changes take `before` to `after`, and the hook job built from them loses none. */
  ghost predicate Describes(changes: seq<FileChange>, before: Tree, after: Tree) {
    && WellFormed(changes, before)
    && after == ChangedAll(before, changes)
    && forall c | c in changes :: Classified(c, before) && WritesParsable(c, before)
  }

  /** An index is only ever written a document that parses, or moved as it was. */
  predicate WritesParsable(change: FileChange, before: Tree) {
    match change
    case Deleted(_) => true
    case Moved(fromPath, toPath, content) =>
      IsOrderFile(toPath) ==> Parse(content).Some? || (IsOrderFile(fromPath) && At(before, fromPath) == Some(content))
    case _ => IsOrderFile(change.path) ==> Parse(change.content).Some?
  }

  ghost predicate Described(result: Result<Outcome, Error>, before: Tree) {
    result.Ok? && result.value.Committed? ==> Describes(result.value.changes, before, result.value.tree)
  }

  lemma {:induction false} AppliedAllConcat(base: Tree, us: seq<Update>, vs: seq<Update>)
    ensures AppliedAll(base, us + vs) == AppliedAll(AppliedAll(base, us), vs)
  {
    if vs == [] {
      assert us + vs == us;
    } else {
      assert (us + vs)[..|us + vs| - 1] == us + vs[..|vs| - 1];
      AppliedAllConcat(base, us, vs[..|vs| - 1]);
    }
  }

  lemma {:induction false} ChangedAllConcat(tree: Tree, cs: seq<FileChange>, ds: seq<FileChange>)
    ensures ChangedAll(tree, cs + ds) == ChangedAll(ChangedAll(tree, cs), ds)
  {
    if ds == [] {
      assert cs + ds == cs;
    } else {
      assert (cs + ds)[..|cs + ds| - 1] == cs + ds[..|ds| - 1];
      ChangedAllConcat(tree, cs, ds[..|ds| - 1]);
    }
  }

  /** Staging one change is making it, where nothing sits under a path it removes. */
  lemma AppliedIsChanged(tree: Tree, change: FileChange)
    requires change.Deleted? ==> forall p | p in tree :: !Under(p, change.path)
    requires change.Moved? ==> forall p | p in tree :: !Under(p, change.fromPath)
    ensures AppliedAll(tree, UpdatesOf(change)) == Changed(tree, change)
  {
    var us := UpdatesOf(change);
    if |us| == 1 {
      assert us[..0] == [];
      assert AppliedAll(tree, us) == Applied(tree, us[0]);
    } else {
      assert us[..1] == [us[0]] && [us[0]][..0] == [];
      assert AppliedAll(tree, [us[0]]) == Applied(tree, us[0]);
    }
  }

  lemma {:induction false} AllUpdatesMember(changes: seq<FileChange>, change: FileChange, u: Update)
    requires change in changes && u in UpdatesOf(change)
    ensures u in AllUpdates(changes)
  {
    if change != changes[|changes| - 1] {
      AllUpdatesMember(changes[..|changes| - 1], change, u);
    }
  }

  /** Staging a commit's changes through the tree updater makes exactly those changes. */
  lemma {:induction false} StagedIsChanged(tree: Tree, changes: seq<FileChange>)
    requires PrefixFree(tree) && WellFormed(changes, tree) && Accepts(tree, AllUpdates(changes))
    ensures AppliedAll(tree, AllUpdates(changes)) == ChangedAll(tree, changes)
  {
    if changes != [] {
      var front, last := changes[..|changes| - 1], changes[|changes| - 1];
      assert WellFormed(front, tree) by {
        forall i, j | 0 <= i < j < |front| ensures TouchedPaths(front[i]) !! TouchedPaths(front[j]) {
          assert TouchedPaths(changes[i]) !! TouchedPaths(changes[j]);
        }
      }
      StagedIsChanged(tree, front);
      AppliedAllConcat(tree, AllUpdates(front), UpdatesOf(last));
      var staged := AppliedAll(tree, AllUpdates(front));
      if last.Deleted? || last.Moved? {
        var gone := if last.Deleted? then last.path else last.fromPath;
        assert last in changes && gone in tree;
        forall p | p in staged ensures !Under(p, gone) {
          AppliedAllOrigin(tree, AllUpdates(front), p);
        }
      }
      AppliedIsChanged(staged, last);
    }
  }

  /** The common shape: changes staged one for one. */
  lemma CommitDescribed(tree: Tree, changes: seq<FileChange>)
    requires PrefixFree(tree) && WellFormed(changes, tree)
    requires forall c | c in changes :: Classified(c, tree) && WritesParsable(c, tree)
    ensures Described(Commit(tree, AllUpdates(changes), changes), tree)
  {
    if Accepts(tree, AllUpdates(changes)) {
      StagedIsChanged(tree, changes);
    }
  }

  /** A rewrite of an index that is there: dropped, or replaced by a document that parses. */
  predicate IsUpkeep(change: FileChange, tree: Tree) {
    && (change.Deleted? || change.Updated?)
    && IsOrderFile(change.path) && change.path in tree
    && (change.Updated? ==> change.content.OrderDocument?)
  }

  /** Upkeep touches at most one index in each of the two parents. */
  lemma MovedUpkeep(tree: Tree, fromPath: Path, toPath: Path, entry: Name)
    requires fromPath != [] && toPath != []
    ensures var upkeep := StageEntryMoved(tree, fromPath, toPath, entry);
      && Disjoint(upkeep)
      && forall c | c in upkeep :: IsUpkeep(c, tree) && (Parent(c.path) == Parent(fromPath) || Parent(c.path) == Parent(toPath))
  {
    var from, to := OrderFilePath(Parent(fromPath)), OrderFilePath(Parent(toPath));
    assert Parent(from) == Parent(fromPath) && Parent(to) == Parent(toPath);
    if from == to {
      assert Parent(fromPath) == Parent(toPath);
    }
  }

  lemma RemovedUpkeep(tree: Tree, path: Path)
    requires path != []
    ensures var upkeep := StageEntryRemoved(tree, Parent(path), Leaf(path));
      && |upkeep| <= 1
      && forall c | c in upkeep :: IsUpkeep(c, tree) && Parent(c.path) == Parent(path)
  {
    assert Parent(OrderFilePath(Parent(path))) == Parent(path);
  }

  lemma DisjointConcat(cs: seq<FileChange>, ds: seq<FileChange>)
    requires Disjoint(cs) && Disjoint(ds)
    requires forall c, d | c in cs && d in ds :: TouchedPaths(c) !! TouchedPaths(d)
    ensures Disjoint(cs + ds)
  {
    var all := cs + ds;
    forall i, j | 0 <= i < j < |all| ensures TouchedPaths(all[i]) !! TouchedPaths(all[j]) {
      if i < |cs| <= j { assert cs[i] in cs && ds[j - |cs|] in ds; }
    }
  }

  lemma WriteFileDescribed(tree: Tree, path: Path, content: Blob)
    requires PrefixFree(tree) && !content.NotUtf8?
    ensures Described(WriteFile(tree, path, content), tree)
  {
    if !IsOrderFile(path) {
      CommitDescribed(tree, if path in tree then [Updated(path, content)] else []);
      CommitDescribed(tree, if path in tree then [] else [Created(path, content)]);
    }
  }

  lemma DeleteFileDescribed(tree: Tree, path: Path)
    requires PrefixFree(tree)
    ensures Described(DeleteFile(tree, path), tree)
  {
    if path != [] && !IsOrderFile(path) && path in tree {
      var upkeep := StageEntryRemoved(tree, Parent(path), Leaf(path));
      RemovedUpkeep(tree, path);
      DisjointConcat([Deleted(path)], upkeep);
      CommitDescribed(tree, [Deleted(path)] + upkeep);
    }
  }

  lemma MoveFileDescribed(tree: Tree, fromPath: Path, toPath: Path)
    requires PrefixFree(tree)
    ensures Described(MoveFile(tree, fromPath, toPath), tree)
  {
    if MoveFile(tree, fromPath, toPath).Ok? {
      var upkeep := StageEntryMoved(tree, fromPath, toPath, Leaf(toPath));
      MovedUpkeep(tree, fromPath, toPath, Leaf(toPath));
      var moved := Moved(fromPath, toPath, tree[fromPath]);
      forall c | c in upkeep ensures TouchedPaths(c) == {c.path} && c.path != fromPath && c.path != toPath {
        assert IsUpkeep(c, tree);
      }
      DisjointConcat([moved], upkeep);
      var changes := [moved] + upkeep;
      forall c | c in changes ensures WellTargeted(c, tree) && Classified(c, tree) && WritesParsable(c, tree) {
        assert c == moved || (c in upkeep && IsUpkeep(c, tree));
      }
      CommitDescribed(tree, changes);
    }
  }

  lemma StoreOrderDescribed(tree: Tree, directory: Path, entries: seq<Name>)
    requires PrefixFree(tree)
    ensures Described(StoreOrder(tree, directory, entries), tree)
  {
    var index := OrderFilePath(directory);
    if entries != [] || index in tree {
      CommitDescribed(tree, [StageIndex(directory, entries, index in tree)]);
    }
  }

  lemma DeleteOrderDescribed(tree: Tree, directory: Path)
    requires PrefixFree(tree)
    ensures Described(DeleteOrder(tree, directory), tree)
  {
    if OrderFilePath(directory) in tree {
      CommitDescribed(tree, [StageIndex(directory, [], true)]);
    }
  }

  lemma {:induction false} ChangedAllDeletes(tree: Tree, blobs: seq<Path>)
    ensures ChangedAll(tree, DeletedChanges(blobs)) == tree - (set p | p in blobs)
  {
    var changes := DeletedChanges(blobs);
    if blobs == [] {
      assert changes == [];
    } else {
      var front := blobs[..|blobs| - 1];
      ChangedAllDeletes(tree, front);
      assert changes[..|changes| - 1] == DeletedChanges(front);
      assert blobs == front + [blobs[|blobs| - 1]];
    }
  }

  lemma UpkeepAfter(tree: Tree, staged: Tree, upkeep: seq<FileChange>)
    requires PrefixFree(tree) && Disjoint(upkeep)
    requires forall c | c in upkeep :: IsUpkeep(c, tree)
    requires forall c, p | c in upkeep && !c.Moved? && p in staged :: !Under(p, c.path)
    ensures AppliedAll(staged, AllUpdates(upkeep)) == ChangedAll(staged, upkeep)
  {
    if upkeep != [] {
      var front, last := upkeep[..|upkeep| - 1], upkeep[|upkeep| - 1];
      assert Disjoint(front) by {
        forall i, j | 0 <= i < j < |front| ensures TouchedPaths(front[i]) !! TouchedPaths(front[j]) {
          assert TouchedPaths(upkeep[i]) !! TouchedPaths(upkeep[j]);
        }
      }
      UpkeepAfter(tree, staged, front);
      AppliedAllConcat(staged, AllUpdates(front), UpdatesOf(last));
      assert IsUpkeep(last, tree);
      forall p | p in ChangedAll(staged, front) ensures !Under(p, last.path) {
        UpkeepOrigin(tree, staged, front, p);
        assert last in upkeep;
      }
      AppliedIsChanged(ChangedAll(staged, front), last);
    }
  }

  lemma {:induction false} UpkeepOrigin(tree: Tree, staged: Tree, upkeep: seq<FileChange>, path: Path)
    requires (forall c | c in upkeep :: IsUpkeep(c, tree)) && path in ChangedAll(staged, upkeep)
    ensures path in staged || path in tree
  {
    if upkeep != [] {
      assert IsUpkeep(upkeep[|upkeep| - 1], tree);
    }
    if upkeep != [] && path in ChangedAll(staged, upkeep[..|upkeep| - 1]) {
      UpkeepOrigin(tree, staged, upkeep[..|upkeep| - 1], path);
    }
  }

  lemma DeleteDirectoryChanges(tree: Tree, directory: Path, blobs: seq<Path>, upkeep: seq<FileChange>)
    requires Walks(blobs, tree, directory) && |upkeep| <= 1
    requires forall c | c in upkeep :: IsUpkeep(c, tree) && !Under(c.path, directory)
    ensures var changes := DeletedChanges(blobs) + upkeep;
      WellFormed(changes, tree) && forall c | c in changes :: Classified(c, tree) && WritesParsable(c, tree)
  {
    var deletes := DeletedChanges(blobs);
    forall c, d | c in deletes && d in upkeep ensures TouchedPaths(c) !! TouchedPaths(d) {
      assert c.path in blobs && IsUpkeep(d, tree);
    }
    DisjointConcat(deletes, upkeep);
    forall c | c in deletes + upkeep ensures WellTargeted(c, tree) && Classified(c, tree) && WritesParsable(c, tree) {
      if c in deletes {
        assert c.path in blobs;
      } else {
        assert IsUpkeep(c, tree);
      }
    }
  }

  lemma DeleteDirectoryTree(tree: Tree, directory: Path, blobs: seq<Path>, upkeep: seq<FileChange>)
    requires PrefixFree(tree) && Walks(blobs, tree, directory) && directory !in tree
    requires Disjoint(upkeep) && forall c | c in upkeep :: IsUpkeep(c, tree)
    ensures AppliedAll(tree, [Remove(directory)] + AllUpdates(upkeep)) == ChangedAll(tree, DeletedChanges(blobs) + upkeep)
  {
    var staged := Applied(tree, Remove(directory));
    ChangedAllDeletes(tree, blobs);
    assert staged == ChangedAll(tree, DeletedChanges(blobs));
    forall c, p | c in upkeep && !c.Moved? && p in staged ensures !Under(p, c.path) {
      assert IsUpkeep(c, tree);
    }
    UpkeepAfter(tree, staged, upkeep);
    ChangedAllConcat(tree, DeletedChanges(blobs), upkeep);
    AppliedAllConcat(tree, [Remove(directory)], AllUpdates(upkeep));
    AppliedOne(tree, Remove(directory));
  }

  lemma DeleteDirectoryDescribed(tree: Tree, directory: Path, blobs: seq<Path>)
    requires PrefixFree(tree) && Walks(blobs, tree, directory)
    ensures Described(DeleteDirectory(tree, directory, blobs), tree)
  {
    var result := DeleteDirectory(tree, directory, blobs);
    if result.Ok? && result.value.Committed? {
      var upkeep := StageEntryRemoved(tree, Parent(directory), Leaf(directory));
      RemovedUpkeep(tree, directory);
      forall c | c in upkeep ensures IsUpkeep(c, tree) && !Under(c.path, directory) {
        OutsideOwnFolder(c.path, directory);
      }
      DeleteDirectoryChanges(tree, directory, blobs, upkeep);
      DeleteDirectoryTree(tree, directory, blobs, upkeep);
    }
  }

  lemma AppliedOne(base: Tree, u: Update)
    ensures AppliedAll(base, [u]) == Applied(base, u)
  {
    assert [u][..0] == [];
  }

  /** A folder's sibling is not inside it. */
  lemma OutsideOwnFolder(path: Path, directory: Path)
    requires path != [] && directory != [] && Parent(path) == Parent(directory)
    ensures !Under(path, directory)
  {}

  /** The move the routes let through: the destination is free and neither folder is inside the other. */
  ghost predicate Movable(tree: Tree, fromPath: Path, toPath: Path) {
    && fromPath != [] && toPath != [] && fromPath != toPath && !Under(toPath, fromPath)
    && fromPath !in tree && IsDirectory(tree, fromPath) && !Exists(tree, toPath)
  }

  lemma RelocatedIsFree(tree: Tree, fromPath: Path, toPath: Path, path: Path)
    requires Movable(tree, fromPath, toPath) && path in tree && Under(path, fromPath)
    ensures var moved := Relocated(path, fromPath, toPath);
      && Under(moved, toPath) && moved !in tree && moved != fromPath && !Under(moved, fromPath)
      && IsOrderFile(moved) == IsOrderFile(path)
  {
    var moved := Relocated(path, fromPath, toPath);
    assert moved[..|toPath|] == toPath;
    CommonExtension(moved, fromPath, toPath);
    UnderTransitive(path, fromPath, toPath);
  }

  /** Two folders above one path are nested or the same. */
  lemma CommonExtension(path: Path, d: Path, e: Path)
    ensures Under(path, d) && Under(path, e) ==> d == e || Under(d, e) || Under(e, d)
  {
    if Under(path, d) && Under(path, e) {
      if |d| <= |e| {
        assert path[..|e|][..|d|] == path[..|d|];
        assert d == e || |d| < |e|;
      } else {
        assert path[..|d|][..|e|] == path[..|e|];
      }
    }
  }

  lemma UnderTransitive(path: Path, d: Path, e: Path)
    ensures Under(path, d) && Under(d, e) ==> Under(path, e)
  {
    if Under(path, d) && Under(d, e) {
      assert path[..|d|][..|e|] == path[..|e|];
    }
  }

  lemma RelocatedInjective(p: Path, q: Path, fromPath: Path, toPath: Path)
    requires Under(p, fromPath) && Under(q, fromPath)
    ensures Relocated(p, fromPath, toPath) == Relocated(q, fromPath, toPath) ==> p == q
  {
    assert Relocated(p, fromPath, toPath)[|toPath|..] == p[|fromPath|..];
    assert Relocated(q, fromPath, toPath)[|toPath|..] == q[|fromPath|..];
    assert p == p[..|fromPath|] + p[|fromPath|..] && q == q[..|fromPath|] + q[|fromPath|..];
  }

  lemma {:induction false} RelocatingMatchesMoves(tree: Tree, blobs: seq<Path>, fromPath: Path, toPath: Path)
    requires Movable(tree, fromPath, toPath) && forall p | p in blobs :: p in tree && Under(p, fromPath)
    ensures AppliedAll(Applied(tree, Remove(fromPath)), RelocatingUpdates(tree, blobs, fromPath, toPath))
         == Applied(ChangedAll(tree, MovedChanges(tree, blobs, fromPath, toPath)), Remove(fromPath))
  {
    var us, cs := RelocatingUpdates(tree, blobs, fromPath, toPath), MovedChanges(tree, blobs, fromPath, toPath);
    if blobs == [] {
      assert us == [] && cs == [];
    } else {
      var front, last := blobs[..|blobs| - 1], blobs[|blobs| - 1];
      var moved := Relocated(last, fromPath, toPath);
      assert last in blobs && forall p | p in front :: p in blobs;
      RelocatedIsFree(tree, fromPath, toPath, last);
      RelocatingMatchesMoves(tree, front, fromPath, toPath);
      assert us[..|us| - 1] == RelocatingUpdates(tree, front, fromPath, toPath);
      assert cs[..|cs| - 1] == MovedChanges(tree, front, fromPath, toPath);
      RelocatedOne(ChangedAll(tree, cs[..|cs| - 1]), fromPath, last, moved, tree[last]);
    }
  }

  lemma {:induction false} MovedOrigin(tree: Tree, blobs: seq<Path>, fromPath: Path, toPath: Path)
    requires Movable(tree, fromPath, toPath) && forall p | p in blobs :: p in tree && Under(p, fromPath)
    ensures forall p | p in ChangedAll(tree, MovedChanges(tree, blobs, fromPath, toPath)) ::
      (p in tree && p !in blobs) || (p !in tree && p != fromPath && !Under(p, fromPath))
  {
    var cs := MovedChanges(tree, blobs, fromPath, toPath);
    if blobs == [] {
      assert cs == [];
    } else {
      var front, last := blobs[..|blobs| - 1], blobs[|blobs| - 1];
      assert last in blobs && blobs == front + [last];
      RelocatedIsFree(tree, fromPath, toPath, last);
      MovedOrigin(tree, front, fromPath, toPath);
      assert cs[..|cs| - 1] == MovedChanges(tree, front, fromPath, toPath);
    }
  }

  /** One file relocated out of a folder, before or after the folder is removed. */
  lemma RelocatedOne(staged: Tree, fromPath: Path, path: Path, moved: Path, content: Blob)
    requires Under(path, fromPath) && moved != fromPath && !Under(moved, fromPath)
    ensures Applied(Applied(staged, Remove(fromPath)), Upsert(moved, content))
         == Applied(Changed(staged, Moved(path, moved, content)), Remove(fromPath))
  {
  }

  lemma MovesWellFormed(tree: Tree, fromPath: Path, toPath: Path, blobs: seq<Path>)
    requires Movable(tree, fromPath, toPath) && Walks(blobs, tree, fromPath)
    requires forall p | p in blobs :: !tree[p].NotUtf8?
    ensures var moves := MovedChanges(tree, blobs, fromPath, toPath);
      && WellFormed(moves, tree)
      && forall c | c in moves :: Classified(c, tree) && WritesParsable(c, tree)
           && c.Moved? && Under(c.fromPath, fromPath) && c.toPath !in tree
  {
    var moves := MovedChanges(tree, blobs, fromPath, toPath);
    forall i | 0 <= i < |moves|
      ensures moves[i].fromPath in tree && Under(moves[i].fromPath, fromPath) && moves[i].toPath !in tree
      ensures IsOrderFile(moves[i].toPath) == IsOrderFile(moves[i].fromPath)
    {
      assert blobs[i] in blobs;
      RelocatedIsFree(tree, fromPath, toPath, blobs[i]);
    }
    forall i, j | 0 <= i < j < |moves| ensures TouchedPaths(moves[i]) !! TouchedPaths(moves[j]) {
      assert blobs[i] in blobs && blobs[j] in blobs && blobs[i] != blobs[j];
      RelocatedInjective(blobs[i], blobs[j], fromPath, toPath);
    }
  }

  lemma SiblingUnder(path: Path, sibling: Path, directory: Path)
    requires path != [] && sibling != [] && directory != [] && Parent(path) == Parent(sibling)
    ensures Under(path, directory) ==> Under(sibling, directory)
  {
    if Under(path, directory) {
      assert |path| == |sibling|;
      assert path[..|directory|] == Parent(path)[..|directory|];
      assert sibling[..|directory|] == Parent(sibling)[..|directory|];
    }
  }

  lemma MoveUpkeepOutside(tree: Tree, fromPath: Path, toPath: Path, entry: Name)
    requires Movable(tree, fromPath, toPath)
    ensures forall c | c in StageEntryMoved(tree, fromPath, toPath, entry) :: IsUpkeep(c, tree) && !Under(c.path, fromPath)
    ensures Disjoint(StageEntryMoved(tree, fromPath, toPath, entry))
  {
    MovedUpkeep(tree, fromPath, toPath, entry);
    forall c | c in StageEntryMoved(tree, fromPath, toPath, entry) ensures IsUpkeep(c, tree) && !Under(c.path, fromPath) {
      if Parent(c.path) == Parent(fromPath) {
        SiblingUnder(c.path, fromPath, fromPath);
      } else {
        SiblingUnder(c.path, toPath, fromPath);
      }
    }
  }

  lemma MoveDirectoryChanges(tree: Tree, fromPath: Path, toPath: Path, blobs: seq<Path>, upkeep: seq<FileChange>)
    requires PrefixFree(tree) && Walks(blobs, tree, fromPath) && Movable(tree, fromPath, toPath)
    requires forall p | p in blobs :: !tree[p].NotUtf8?
    requires Disjoint(upkeep) && forall c | c in upkeep :: IsUpkeep(c, tree) && !Under(c.path, fromPath)
    ensures var changes := MovedChanges(tree, blobs, fromPath, toPath) + upkeep;
      WellFormed(changes, tree) && forall c | c in changes :: Classified(c, tree) && WritesParsable(c, tree)
  {
    var moves := MovedChanges(tree, blobs, fromPath, toPath);
    MovesWellFormed(tree, fromPath, toPath, blobs);
    forall c, d | c in moves && d in upkeep ensures TouchedPaths(c) !! TouchedPaths(d) {
      assert IsUpkeep(d, tree);
    }
    DisjointConcat(moves, upkeep);
    forall c | c in moves + upkeep ensures WellTargeted(c, tree) && Classified(c, tree) && WritesParsable(c, tree) {
      if c !in moves { assert IsUpkeep(c, tree); }
    }
  }

  lemma MoveDirectoryTree(tree: Tree, fromPath: Path, toPath: Path, blobs: seq<Path>, upkeep: seq<FileChange>)
    requires PrefixFree(tree) && Walks(blobs, tree, fromPath) && Movable(tree, fromPath, toPath)
    requires Disjoint(upkeep) && forall c | c in upkeep :: IsUpkeep(c, tree)
    requires forall u | u in RelocatingUpdates(tree, blobs, fromPath, toPath) :: !Clashes(tree, u)
    ensures AppliedAll(tree, [Remove(fromPath)] + RelocatingUpdates(tree, blobs, fromPath, toPath) + AllUpdates(upkeep))
         == ChangedAll(tree, MovedChanges(tree, blobs, fromPath, toPath) + upkeep)
  {
    var relocating := RelocatingUpdates(tree, blobs, fromPath, toPath);
    var moves := MovedChanges(tree, blobs, fromPath, toPath);
    var staged := ChangedAll(tree, moves);
    MovesStaged(tree, fromPath, toPath, blobs);
    forall c, p | c in upkeep && !c.Moved? && p in staged ensures !Under(p, c.path) {
      assert IsUpkeep(c, tree);
      if p !in tree {
        AppliedAllOrigin(Applied(tree, Remove(fromPath)), relocating, p);
        var u :| u in relocating && u.Upsert? && u.path == p;
        assert !Clashes(tree, u);
      }
    }
    UpkeepAfter(tree, staged, upkeep);
    ChangedAllConcat(tree, moves, upkeep);
    AppliedAllConcat(tree, [Remove(fromPath)] + relocating, AllUpdates(upkeep));
  }

  lemma MovesStaged(tree: Tree, fromPath: Path, toPath: Path, blobs: seq<Path>)
    requires Walks(blobs, tree, fromPath) && Movable(tree, fromPath, toPath)
    ensures var staged := ChangedAll(tree, MovedChanges(tree, blobs, fromPath, toPath));
      var relocating := RelocatingUpdates(tree, blobs, fromPath, toPath);
      && AppliedAll(tree, [Remove(fromPath)] + relocating) == staged
      && AppliedAll(Applied(tree, Remove(fromPath)), relocating) == staged
  {
    MovedOrigin(tree, blobs, fromPath, toPath);
    RelocatingMatchesMoves(tree, blobs, fromPath, toPath);
    var staged := ChangedAll(tree, MovedChanges(tree, blobs, fromPath, toPath));
    assert Applied(staged, Remove(fromPath)) == staged;
    AppliedAllConcat(tree, [Remove(fromPath)], RelocatingUpdates(tree, blobs, fromPath, toPath));
    AppliedOne(tree, Remove(fromPath));
  }

  lemma MoveDirectoryDescribed(tree: Tree, fromPath: Path, toPath: Path, blobs: seq<Path>)
    requires PrefixFree(tree) && Walks(blobs, tree, fromPath)
    ensures Described(MoveDirectory(tree, fromPath, toPath, blobs), tree)
  {
    var result := MoveDirectory(tree, fromPath, toPath, blobs);
    if result.Ok? && result.value.Committed? {
      var entry := DirectoryEntry(Leaf(toPath));
      var upkeep := StageEntryMoved(tree, fromPath, toPath, entry);
      var relocating := RelocatingUpdates(tree, blobs, fromPath, toPath);
      MoveUpkeepOutside(tree, fromPath, toPath, entry);
      MoveDirectoryChanges(tree, fromPath, toPath, blobs, upkeep);
      forall u | u in relocating ensures !Clashes(tree, u) {
        assert u in [Remove(fromPath)] + relocating + AllUpdates(upkeep);
      }
      MoveDirectoryTree(tree, fromPath, toPath, blobs, upkeep);
    }
  }
}
