/** When each operation goes through, judged from its paths and HEAD's tree. */
module OperationSuccess {
  import opened Wrappers
  import opened Paths
  import opened Trees
  import opened Receiver
  import opened HookJobs
  import opened OrderIndex
  import opened Sorting
  import opened Operations
  import opened OperationLaws
  import opened Commits
  import opened CommitLaws
  import opened OperationEffects

  /** Nothing is at the path, and no file stands where one of its folders would be. */
  predicate Free(tree: Tree, path: Path) {
    path != [] && !Exists(tree, path) && forall q | q in tree :: !Under(path, q)
  }

  predicate HoldsFolder(tree: Tree, path: Path) {
    path != [] && path !in tree && IsDirectory(tree, path)
  }

  /** Updates of files that are there never stand in the way of others that do not nest with them. */
  lemma AcceptsBeside(tree: Tree, mains: seq<Update>, upkeep: seq<Update>)
    requires PrefixFree(tree) && forall u | u in upkeep :: u.path in tree
    requires forall m | m in mains :: !Clashes(tree, m)
    requires forall m, n | m in mains && n in mains :: !Under(m.path, n.path)
    requires forall m, u | m in mains && u in upkeep :: !Under(m.path, u.path) && !Under(u.path, m.path)
    ensures Accepts(tree, mains + upkeep)
  {
    forall u | u in mains + upkeep
      ensures !Clashes(tree, u)
    {
      assert u in mains || u in upkeep;
    }
    forall u, v | u in mains + upkeep && v in mains + upkeep
      ensures !Under(u.path, v.path)
    {
      assert (u in mains || u in upkeep) && (v in mains || v in upkeep);
    }
  }

  /** Index upkeep rewrites index files that are there, each in one of the folders concerned. */
  lemma UpkeepThere(tree: Tree, upkeep: seq<FileChange>, parents: set<Path>)
    requires forall c | c in upkeep :: IsUpkeep(c, tree) && Parent(c.path) in parents
    ensures forall u | u in AllUpdates(upkeep) :: u.path in tree && u.path != [] && Parent(u.path) in parents
  {
    forall u | u in AllUpdates(upkeep)
      ensures u.path in tree && u.path != [] && Parent(u.path) in parents
    {
      var c := AllUpdatesOrigin(upkeep, u);
      assert UpdatesOf(c) == [u];
    }
  }

  /** A file that is there neither lies above a free path or another file, nor below one. */
  lemma ApartFromFile(tree: Tree, path: Path, file: Path)
    requires PrefixFree(tree) && file in tree && (path in tree || Free(tree, path))
    ensures !Under(path, file) && !Under(file, path)
  {
  }

  // Files

  /** A file is deleted exactly when it is there and is no index. */
  lemma DeleteFileSucceedsIff(tree: Tree, path: Path)
    requires PrefixFree(tree)
    ensures DeleteFile(tree, path).Ok? <==> Succeeded(DeleteFile(tree, path))
    ensures Succeeded(DeleteFile(tree, path)) <==> path in tree && !IsOrderFile(path)
  {
    if path in tree && !IsOrderFile(path) {
      var upkeep := StageEntryRemoved(tree, Parent(path), Leaf(path));
      RemovedUpkeep(tree, path);
      UpkeepThere(tree, upkeep, {Parent(path)});
      OneThenUpkeep(tree, Deleted(path), upkeep);
    }
  }

  /** One change of a file that is there or of a free path, and the upkeep with it. */
  lemma OneThenUpkeep(tree: Tree, change: FileChange, upkeep: seq<FileChange>)
    requires PrefixFree(tree) && (forall c | c in upkeep :: IsUpkeep(c, tree))
    requires change.Deleted? ==> change.path in tree
    requires change.Moved? ==> change.fromPath in tree && Free(tree, change.toPath)
    requires change.Created? || change.Updated? ==> change.path in tree || Free(tree, change.path)
    ensures Accepts(tree, AllUpdates([change] + upkeep))
  {
    var mains := UpdatesOf(change);
    assert [change][..0] == [];
    assert AllUpdates([change]) == mains;
    AllUpdatesConcat([change], upkeep);
    UpkeepThere(tree, upkeep, set c | c in upkeep && c.path != [] :: Parent(c.path));
    forall m, u | m in mains && u in AllUpdates(upkeep)
      ensures !Under(m.path, u.path) && !Under(u.path, m.path)
    {
      ApartFromFile(tree, m.path, u.path);
    }
    AcceptsBeside(tree, mains, AllUpdates(upkeep));
  }

  /** A write commits exactly new text at a file's path or at a free one, no index; at the same text it makes no commit. */
  lemma WriteFileSucceedsIff(tree: Tree, path: Path, content: Blob)
    requires PrefixFree(tree) && !content.NotUtf8?
    ensures Succeeded(WriteFile(tree, path, content)) <==>
      !IsOrderFile(path) && At(tree, path) != Some(content) && (path in tree || Free(tree, path))
    ensures WriteFile(tree, path, content) == Ok(Unchanged) <==> !IsOrderFile(path) && At(tree, path) == Some(content)
  {
    if !IsOrderFile(path) && At(tree, path) != Some(content) && !(path !in tree && IsDirectory(tree, path)) {
      var change := if path in tree then Updated(path, content) else Created(path, content);
      assert [change] + [] == [change];
      if path in tree || Free(tree, path) {
        OneThenUpkeep(tree, change, []);
      } else {
        UnderFileRefused(tree, change, path, content);
      }
    }
  }

  lemma UnderFileRefused(tree: Tree, change: FileChange, path: Path, content: Blob)
    requires UpdatesOf(change) == [Upsert(path, content)] && exists q :: q in tree && Under(path, q)
    ensures !Accepts(tree, AllUpdates([change]))
  {
    assert Upsert(path, content) in UpdatesOf(change);
    AllUpdatesMember([change], change, Upsert(path, content));
  }

  /** A move commits exactly a text file to a free path, neither being an index; the destination's folder need not be
      there. */
  lemma MoveFileSucceedsIff(tree: Tree, fromPath: Path, toPath: Path)
    requires PrefixFree(tree)
    ensures MoveFile(tree, fromPath, toPath).Ok? <==> Succeeded(MoveFile(tree, fromPath, toPath))
    ensures Succeeded(MoveFile(tree, fromPath, toPath)) <==>
      && fromPath in tree && !IsOrderFile(fromPath) && !tree[fromPath].NotUtf8?
      && !IsOrderFile(toPath) && Free(tree, toPath)
  {
    if && fromPath in tree && !IsOrderFile(fromPath) && !tree[fromPath].NotUtf8?
       && !IsOrderFile(toPath) && toPath != [] && !Exists(tree, toPath)
    {
      var upkeep := StageEntryMoved(tree, fromPath, toPath, Leaf(toPath));
      var moved := Moved(fromPath, toPath, tree[fromPath]);
      MovedUpkeep(tree, fromPath, toPath, Leaf(toPath));
      if Free(tree, toPath) {
        OneThenUpkeep(tree, moved, upkeep);
      } else {
        AllUpdatesMember([moved] + upkeep, moved, Upsert(toPath, tree[fromPath]));
      }
    }
  }

  // Folders

  /** A folder is deleted exactly when it is there. */
  lemma DeleteDirectorySucceedsIff(tree: Tree, directory: Path, blobs: seq<Path>)
    requires PrefixFree(tree) && Walks(blobs, tree, directory)
    ensures DeleteDirectory(tree, directory, blobs).Ok? <==> Succeeded(DeleteDirectory(tree, directory, blobs))
    ensures Succeeded(DeleteDirectory(tree, directory, blobs)) <==> HoldsFolder(tree, directory)
  {
    if HoldsFolder(tree, directory) {
      var p :| p in tree && Under(p, directory);
      assert p in blobs;
      var upkeep := StageEntryRemoved(tree, Parent(directory), Leaf(directory));
      RemovedUpkeep(tree, directory);
      UpkeepThere(tree, upkeep, {Parent(directory)});
      AcceptsBeside(tree, [Remove(directory)], AllUpdates(upkeep));
    }
  }

  /** A folder moves exactly when it is there, all text, and its destination is free and not inside it. */
  lemma MoveDirectorySucceedsIff(tree: Tree, fromPath: Path, toPath: Path, blobs: seq<Path>)
    requires PrefixFree(tree) && Walks(blobs, tree, fromPath)
    ensures MoveDirectory(tree, fromPath, toPath, blobs).Ok? <==> Succeeded(MoveDirectory(tree, fromPath, toPath, blobs))
    ensures Succeeded(MoveDirectory(tree, fromPath, toPath, blobs)) <==>
      && HoldsFolder(tree, fromPath) && Free(tree, toPath) && !Under(toPath, fromPath)
      && forall p | p in tree && Under(p, fromPath) :: !tree[p].NotUtf8?
  {
    if Movable(tree, fromPath, toPath) && forall p | p in tree && Under(p, fromPath) :: !tree[p].NotUtf8? {
      var q :| q in tree && Under(q, fromPath);
      assert q in blobs;
      var upkeep := StageEntryMoved(tree, fromPath, toPath, DirectoryEntry(Leaf(toPath)));
      var mains := [Remove(fromPath)] + RelocatingUpdates(tree, blobs, fromPath, toPath);
      if Free(tree, toPath) {
        FolderMoveAccepted(tree, fromPath, toPath, blobs, upkeep);
      } else {
        RelocationRefused(tree, fromPath, toPath, blobs, q);
        var u :| u in mains && Clashes(tree, u);
        assert u in mains + AllUpdates(upkeep);
      }
    }
  }

  lemma RelocationRefused(tree: Tree, fromPath: Path, toPath: Path, blobs: seq<Path>, q: Path)
    requires Walks(blobs, tree, fromPath) && q in blobs && toPath != [] && !Exists(tree, toPath) && !Free(tree, toPath)
    ensures exists u :: u in [Remove(fromPath)] + RelocatingUpdates(tree, blobs, fromPath, toPath) && Clashes(tree, u)
  {
    var file :| file in tree && Under(toPath, file);
    var i :| 0 <= i < |blobs| && blobs[i] == q;
    var us := RelocatingUpdates(tree, blobs, fromPath, toPath);
    assert Relocated(q, fromPath, toPath)[..|toPath|] == toPath;
    UnderTransitive(Relocated(q, fromPath, toPath), toPath, file);
    assert us[i] in us && Clashes(tree, us[i]);
    assert us[i] in [Remove(fromPath)] + us;
  }

  lemma FolderMoveAccepted(tree: Tree, fromPath: Path, toPath: Path, blobs: seq<Path>, upkeep: seq<FileChange>)
    requires PrefixFree(tree) && Walks(blobs, tree, fromPath) && Movable(tree, fromPath, toPath) && Free(tree, toPath)
    requires upkeep == StageEntryMoved(tree, fromPath, toPath, DirectoryEntry(Leaf(toPath)))
    ensures Accepts(tree, [Remove(fromPath)] + RelocatingUpdates(tree, blobs, fromPath, toPath) + AllUpdates(upkeep))
  {
    var mains := [Remove(fromPath)] + RelocatingUpdates(tree, blobs, fromPath, toPath);
    MovedUpkeep(tree, fromPath, toPath, DirectoryEntry(Leaf(toPath)));
    UpkeepThere(tree, upkeep, {Parent(fromPath), Parent(toPath)});
    forall m | m in mains
      ensures !Clashes(tree, m)
    {
      RelocatingFits(tree, fromPath, toPath, blobs, m);
    }
    forall m, n | m in mains && n in mains
      ensures !Under(m.path, n.path)
    {
      RelocatingApart(tree, fromPath, toPath, blobs, m, n);
    }
    forall m, u | m in mains && u in AllUpdates(upkeep)
      ensures !Under(m.path, u.path) && !Under(u.path, m.path)
    {
      RelocatingFits(tree, fromPath, toPath, blobs, m);
      RelocatingBesideIndex(tree, fromPath, toPath, m.path, u.path);
    }
    AcceptsBeside(tree, mains, AllUpdates(upkeep));
  }

  /** The folder's removal, or a file of it at its relocated path, which is free. */
  lemma RelocatingFits(tree: Tree, fromPath: Path, toPath: Path, blobs: seq<Path>, m: Update)
    requires PrefixFree(tree) && Walks(blobs, tree, fromPath) && Movable(tree, fromPath, toPath) && Free(tree, toPath)
    requires m in [Remove(fromPath)] + RelocatingUpdates(tree, blobs, fromPath, toPath)
    ensures !Clashes(tree, m)
    ensures m == Remove(fromPath) || (m.Upsert? && Under(m.path, toPath) && Free(tree, m.path))
  {
    var us := RelocatingUpdates(tree, blobs, fromPath, toPath);
    if m in us {
      var i :| 0 <= i < |us| && us[i] == m;
      RelocatedIsFree(tree, fromPath, toPath, blobs[i]);
      UnderFree(tree, toPath, m.path);
    }
  }

  lemma UnderFree(tree: Tree, above: Path, path: Path)
    requires Free(tree, above) && Under(path, above)
    ensures Free(tree, path)
  {
    forall q | q in tree
      ensures !Under(path, q) && !Under(q, path) && q != path
    {
      CommonExtension(path, above, q);
      UnderTransitive(q, path, above);
    }
  }

  lemma RelocatingApart(tree: Tree, fromPath: Path, toPath: Path, blobs: seq<Path>, m: Update, n: Update)
    requires PrefixFree(tree) && Walks(blobs, tree, fromPath) && Movable(tree, fromPath, toPath) && Free(tree, toPath)
    requires m in [Remove(fromPath)] + RelocatingUpdates(tree, blobs, fromPath, toPath)
    requires n in [Remove(fromPath)] + RelocatingUpdates(tree, blobs, fromPath, toPath)
    ensures !Under(m.path, n.path)
  {
    var us := RelocatingUpdates(tree, blobs, fromPath, toPath);
    RelocatingFits(tree, fromPath, toPath, blobs, m);
    RelocatingFits(tree, fromPath, toPath, blobs, n);
    if m in us {
      var i :| 0 <= i < |us| && us[i] == m;
      RelocatedIsFree(tree, fromPath, toPath, blobs[i]);
      if n in us {
        var j :| 0 <= j < |us| && us[j] == n;
        RelocatedNested(blobs[i], blobs[j], fromPath, toPath);
      }
    }
    if n.Upsert? {
      var q :| q in tree && Under(q, fromPath);
      UnderTransitive(q, fromPath, n.path);
    }
  }

  lemma RelocatedNested(p: Path, q: Path, fromPath: Path, toPath: Path)
    requires Under(p, fromPath) && Under(q, fromPath)
    ensures Under(Relocated(p, fromPath, toPath), Relocated(q, fromPath, toPath)) ==> Under(p, q)
  {
    var a, b := Relocated(p, fromPath, toPath), Relocated(q, fromPath, toPath);
    if Under(a, b) {
      assert a[|toPath|..][..|q| - |fromPath|] == a[..|b|][|toPath|..] == b[|toPath|..];
      assert p == fromPath + p[|fromPath|..] && q == fromPath + q[|fromPath|..];
      assert p[..|q|] == fromPath + p[|fromPath|..][..|q| - |fromPath|];
    }
  }

  /** An index that is there nests with neither the folder moved nor a free path below its destination. */
  lemma RelocatingBesideIndex(tree: Tree, fromPath: Path, toPath: Path, path: Path, index: Path)
    requires PrefixFree(tree) && Movable(tree, fromPath, toPath) && index in tree && index != []
    requires Parent(index) == Parent(fromPath) || Parent(index) == Parent(toPath)
    requires path == fromPath || Free(tree, path)
    ensures !Under(path, index) && !Under(index, path)
  {
    if path == fromPath {
      var q :| q in tree && Under(q, fromPath);
      UnderTransitive(q, fromPath, index);
    } else {
      ApartFromFile(tree, path, index);
    }
  }

  // Orders

  /** An index is deleted exactly when there is one; it is then gone, nothing else is touched, and it cannot be deleted
      again. */
  lemma DeleteOrderEffect(tree: Tree, directory: Path)
    requires PrefixFree(tree)
    ensures DeleteOrder(tree, directory).Ok? <==> OrderFilePath(directory) in tree
    ensures DeleteOrder(tree, directory).Ok? ==>
      && Succeeded(DeleteOrder(tree, directory))
      && var after := DeleteOrder(tree, directory).value.tree;
         && OrderFilePath(directory) !in after && SameBut(tree, after, {OrderFilePath(directory)})
         && DeleteOrder(after, directory) == Err(OrderNotFound)
  {
    var index := OrderFilePath(directory);
    if index in tree {
      OneThenUpkeep(tree, Deleted(index), []);
      assert [Deleted(index)] + [] == [Deleted(index)];
      DeleteOrderDescribed(tree, directory);
      var committed := DeleteOrder(tree, directory).value;
      assert |committed.changes| == 1 && TouchedPaths(committed.changes[0]) == {index};
      WrittenAt(committed.changes, tree, committed.tree, 0, index);
      forall p | p != index
        ensures At(tree, p) == At(committed.tree, p)
      {
        KeptAt(committed.changes, tree, committed.tree, p);
      }
    }
  }

  /** Storing an index goes through exactly unless it takes a file where a folder of its name sits, or where a file is above
      it; and it commits exactly when HEAD does not hold that index, or that absence, already. */
  lemma StoreOrderSucceedsIff(tree: Tree, directory: Path, entries: seq<Name>)
    requires PrefixFree(tree)
    ensures var index := OrderFilePath(directory);
      var there := if entries == [] then index !in tree else At(tree, index) == Some(Serialize(entries));
      && (StoreOrder(tree, directory, entries) == Ok(Unchanged) <==> there)
      && (StoreOrder(tree, directory, entries).Ok? <==> there || index in tree || Free(tree, index))
  {
    var index := OrderFilePath(directory);
    var change := StageIndex(directory, entries, index in tree);
    assert [change][..0] == [];
    assert AllUpdates([change]) == UpdatesOf(change) && |UpdatesOf(change)| == 1;
    assert UpdatesOf(change)[0] in UpdatesOf(change);
  }

  /** Where the folder is there, the only thing in the way of its index is a folder of that name. */
  lemma IndexFreeIff(tree: Tree, directory: Path)
    requires PrefixFree(tree) && directory !in tree && IsDirectory(tree, directory) && OrderFilePath(directory) !in tree
    ensures Free(tree, OrderFilePath(directory)) <==> !IsDirectory(tree, OrderFilePath(directory))
  {
    var index := OrderFilePath(directory);
    forall q | q in tree
      ensures !Under(index, q)
    {
      if Under(index, q) {
        assert directory[..|q|] == q;
        if directory != [] {
          var p :| p in tree && Under(p, directory);
          UnderTransitive(p, directory, q);
        }
      }
    }
  }

  /** What each name of an order is spelled as: with a slash exactly where HEAD has a folder. */
  ghost predicate SpelledFor(tree: Tree, directory: Path, order: seq<Name>, spelled: seq<Name>) {
    && |spelled| == |order|
    && forall i | 0 <= i < |order| ::
         spelled[i] == if directory + [EntryName(order[i])] in tree then EntryName(order[i]) else DirectoryEntry(EntryName(order[i]))
  }

  lemma {:induction false} CanonicalIff(tree: Tree, directory: Path, order: seq<Name>)
    ensures CanonicalOrder(tree, directory, order).Some? <==>
      forall e | e in order :: Exists(tree, directory + [EntryName(e)])
  {
    if order != [] {
      CanonicalIff(tree, directory, order[1..]);
      assert Resolved(tree, directory, EntryName(order[0])).Some? <==> Exists(tree, directory + [EntryName(order[0])]);
      assert forall e :: e in order <==> e == order[0] || e in order[1..];
    }
  }

  lemma {:induction false} CanonicalSpelled(tree: Tree, directory: Path, order: seq<Name>)
    requires CanonicalOrder(tree, directory, order).Some?
    ensures SpelledFor(tree, directory, order, CanonicalOrder(tree, directory, order).value)
  {
    if order != [] {
      CanonicalSpelled(tree, directory, order[1..]);
    }
  }

  /** An order is accepted exactly for a folder that is there, when it is valid, names only what is in the folder, and no
      folder sits where its index goes. */
  lemma WriteOrderSucceedsIff(tree: Tree, directory: Path, order: seq<Name>, allowHidden: bool)
    requires PrefixFree(tree)
    ensures var index := OrderFilePath(directory);
      var ok := WriteOrder(tree, directory, order, allowHidden).Ok?;
      && (ok <==>
            && ValidOrder(order, allowHidden) && directory !in tree && IsDirectory(tree, directory)
            && (forall e | e in order :: Exists(tree, directory + [EntryName(e)]))
            && !IsDirectory(tree, index))
      && (Succeeded(WriteOrder(tree, directory, order, allowHidden)) <==>
            ok && !(index in tree && tree[index].OrderDocument? && tree[index].spelling == 0
                    && SpelledFor(tree, directory, order, tree[index].order)))
  {
    var index := OrderFilePath(directory);
    CanonicalIff(tree, directory, order);
    if ValidOrder(order, allowHidden) && directory !in tree && IsDirectory(tree, directory)
       && CanonicalOrder(tree, directory, order).Some?
    {
      var canonical := CanonicalOrder(tree, directory, order).value;
      CanonicalSpelled(tree, directory, order);
      StoreOrderSucceedsIff(tree, directory, canonical);
      if index !in tree { IndexFreeIff(tree, directory); }
      SpelledOnce(tree, directory, order, canonical);
    }
  }

  lemma SpelledOnce(tree: Tree, directory: Path, order: seq<Name>, canonical: seq<Name>)
    requires SpelledFor(tree, directory, order, canonical)
    ensures forall other | SpelledFor(tree, directory, order, other) :: other == canonical
  {
  }

  /** A reorder is accepted exactly for an entry that is there, a folder only if asked for, and no index, unless a place is
      asked for where a folder sits in the index's way; it commits exactly when the index it leads to is not the one HEAD
      holds: for an unlisting, exactly when the index file is there and is
      anything but this service's spelling of a list without the entry. */
  lemma ReorderSucceedsIff(tree: Tree, path: Path, position: OrderPosition, implicitIndex: Option<int>, allowHidden: bool,
                           allowFolder: bool, children: seq<Child>)
    requires PrefixFree(tree) && (path != [] ==> Lists(children, tree, Parent(path)))
    ensures var result := ReorderEntry(tree, path, position, implicitIndex, allowHidden, allowFolder, children);
      && (result.Ok? <==>
            && path != [] && !IsOrderFile(path) && (path in tree || (allowFolder && IsDirectory(tree, path)))
            && (position.PlacedAt? ==> !IsDirectory(tree, OrderFilePath(Parent(path)))))
      && (position.PlacedAt? && result.Ok? ==> (result == Ok(Unchanged) <==>
            var entry := EntryAt(tree, path);
            At(tree, OrderFilePath(Parent(path)))
            == Some(Serialize(Reordered(children, StoredOrder(tree, Parent(path)), entry, position, implicitIndex, allowHidden)))))
      && (position.Unlisted? ==> (Succeeded(result) <==>
            && result.Ok? && var index := At(tree, OrderFilePath(Parent(path)));
               index.Some? && !(index.value.OrderDocument? && index.value.order != [] && index.value.spelling == 0
                                && PositionOf(index.value.order, Leaf(path)) == UNLISTED_POSITION)))
  {
    if path != [] && !IsOrderFile(path) && (path in tree || (allowFolder && IsDirectory(tree, path))) {
      var entry, stored := EntryAt(tree, path), StoredOrder(tree, Parent(path));
      var entries := Reordered(children, stored, entry, position, implicitIndex, allowHidden);
      StoreOrderSucceedsIff(tree, Parent(path), entries);
      ParentIsFolder(tree, path);
      if OrderFilePath(Parent(path)) !in tree { IndexFreeIff(tree, Parent(path)); }
      if position.Unlisted? { WithoutIff(if stored.Some? then stored.value else [], entry.name); }
    }
  }

  lemma ParentIsFolder(tree: Tree, path: Path)
    requires PrefixFree(tree) && path != [] && Exists(tree, path)
    ensures Parent(path) !in tree && IsDirectory(tree, Parent(path))
  {
    if path in tree {
      assert Under(path, Parent(path));
    } else {
      var p :| p in tree && Under(p, path);
      UnderTransitive(p, path, Parent(path));
    }
  }

  lemma WithoutIff(entries: seq<Name>, name: Name)
    ensures Without(entries, name) == entries <==> PositionOf(entries, name) == UNLISTED_POSITION
  {
    var keep := (e: Name) => EntryName(e) != name;
    FilterMembers(entries, keep);
    if PositionOf(entries, name) == UNLISTED_POSITION {
      FilterAll(entries, keep);
    } else {
      assert entries[PositionOf(entries, name)] in entries;
    }
  }
}
