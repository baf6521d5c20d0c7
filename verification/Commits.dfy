/** Undoing a commit (`revert_commit`) and going back to it (`rollback_commit`), on top of HEAD. */
module Commits {
  import opened Wrappers
  import opened Paths
  import opened Trees
  import opened Receiver
  import opened HookJobs
  import opened Operations

  /** One delta of the diff parent -> target, after rename detection. */
  datatype Delta =
    | Added(newPath: Path, newBlob: Blob)
    | Dropped(oldPath: Path, oldBlob: Blob)
    | Modified(path: Path, oldBlob: Blob, newBlob: Blob)
    | Renamed(oldPath: Path, newPath: Path, oldBlob: Blob, newBlob: Blob)

  function DeltaPaths(delta: Delta): set<Path> {
    match delta
    case Added(newPath, _) => {newPath}
    case Dropped(oldPath, _) => {oldPath}
    case Modified(path, _, _) => {path}
    case Renamed(oldPath, newPath, _, _) => {oldPath, newPath}
  }

  predicate DeltaHolds(delta: Delta, parent: Tree, target: Tree) {
    match delta
    case Added(newPath, newBlob) => newPath !in parent && At(target, newPath) == Some(newBlob)
    case Dropped(oldPath, oldBlob) => At(parent, oldPath) == Some(oldBlob) && oldPath !in target
    case Modified(path, oldBlob, newBlob) =>
      At(parent, path) == Some(oldBlob) && At(target, path) == Some(newBlob) && oldBlob != newBlob
    case Renamed(oldPath, newPath, oldBlob, newBlob) =>
      && At(parent, oldPath) == Some(oldBlob) && oldPath !in target
      && newPath !in parent && At(target, newPath) == Some(newBlob)
  }

  predicate Touched(parent: Tree, target: Tree, path: Path) {
    At(parent, path) != At(target, path)
  }

  /** `deltas` is a diff of the two trees: each changed path in exactly one delta, dropped and added
      paths paired into renames in any way at all. */
  ghost predicate IsDiff(deltas: seq<Delta>, parent: Tree, target: Tree) {
    && (forall d | d in deltas :: DeltaHolds(d, parent, target))
    && (forall i, j | 0 <= i < j < |deltas| :: DeltaPaths(deltas[i]) !! DeltaPaths(deltas[j]))
    && (forall p | Touched(parent, target, p) :: exists d :: d in deltas && p in DeltaPaths(d))
  }

  // Revert: each delta backwards, the old side restored from the parent's tree

  function InverseOf(delta: Delta): FileChange {
    match delta
    case Added(newPath, _) => Deleted(newPath)
    case Dropped(oldPath, oldBlob) => Created(oldPath, oldBlob)
    case Modified(path, oldBlob, _) => Updated(path, oldBlob)
    case Renamed(oldPath, newPath, oldBlob, _) => Moved(newPath, oldPath, oldBlob)
  }

  predicate Readable(change: FileChange) {
    change.Deleted? || !change.content.NotUtf8?
  }

  function Inverses(deltas: seq<Delta>): seq<FileChange> {
    if deltas == [] then [] else Inverses(deltas[..|deltas| - 1]) + [InverseOf(deltas[|deltas| - 1])]
  }

  function Revert(deltas: seq<Delta>, head: Tree): Result<Outcome, Error> {
    if exists d | d in deltas :: !Readable(InverseOf(d)) then Err(InvalidUtf8)
    else Commit(head, AllUpdates(Inverses(deltas)), Inverses(deltas))
  }

  /** The inverse of one delta, staged and recorded; its content must be readable as text. */
  method StageInverse(delta: Delta) returns (readable: bool, updates: seq<Update>, change: FileChange)
    ensures readable <==> Readable(InverseOf(delta))
    ensures change == InverseOf(delta) && updates == UpdatesOf(InverseOf(delta))
  {
    match delta {
      case Added(newPath, _) =>
        return true, [Remove(newPath)], Deleted(newPath);
      case Dropped(oldPath, oldBlob) =>
        return !oldBlob.NotUtf8?, [Upsert(oldPath, oldBlob)], Created(oldPath, oldBlob);
      case Modified(path, oldBlob, _) =>
        return !oldBlob.NotUtf8?, [Upsert(path, oldBlob)], Updated(path, oldBlob);
      case Renamed(oldPath, newPath, oldBlob, _) =>
        return !oldBlob.NotUtf8?, [Remove(newPath), Upsert(oldPath, oldBlob)], Moved(newPath, oldPath, oldBlob);
    }
  }

  /** The source's loop, delta by delta. */
  method RevertDeltaByDelta(deltas: seq<Delta>, head: Tree) returns (result: Result<Outcome, Error>)
    ensures result == Revert(deltas, head)
  {
    var updates: seq<Update> := [];
    var changes: seq<FileChange> := [];
    for i := 0 to |deltas|
      invariant changes == Inverses(deltas[..i]) && updates == AllUpdates(changes)
      invariant forall d | d in deltas[..i] :: Readable(InverseOf(d))
    {
      var readable, staged, change := StageInverse(deltas[i]);
      if !readable {
        assert deltas[i] in deltas;
        return Err(InvalidUtf8);
      }
      assert (changes + [change])[..|changes|] == changes;
      assert deltas[..i + 1][..i] == deltas[..i];
      updates := updates + staged;
      changes := changes + [change];
    }
    assert deltas[..|deltas|] == deltas;
    result := Commit(head, updates, changes);
  }

  // Rollback: each touched path forced to what the target holds, unless HEAD holds it already

  function RestorePath(head: Tree, path: Path, blob: Blob): seq<FileChange> {
    if At(head, path) == Some(blob) then []
    else if path in head then [Updated(path, blob)]
    else [Created(path, blob)]
  }

  function RemovePath(head: Tree, path: Path): seq<FileChange> {
    if path in head then [Deleted(path)] else []
  }

  function RollbackOf(delta: Delta, head: Tree): seq<FileChange> {
    match delta
    case Added(newPath, newBlob) => RestorePath(head, newPath, newBlob)
    case Modified(path, _, newBlob) => RestorePath(head, path, newBlob)
    case Dropped(oldPath, _) => RemovePath(head, oldPath)
    case Renamed(oldPath, newPath, _, newBlob) =>
      if oldPath in head && newPath !in head then [Moved(oldPath, newPath, newBlob)]
      else RestorePath(head, newPath, newBlob) + RemovePath(head, oldPath)
  }

  function Rollbacks(deltas: seq<Delta>, head: Tree): seq<FileChange> {
    if deltas == [] then [] else Rollbacks(deltas[..|deltas| - 1], head) + RollbackOf(deltas[|deltas| - 1], head)
  }

  function Rollback(deltas: seq<Delta>, head: Tree): Result<Outcome, Error> {
    var changes := Rollbacks(deltas, head);
    if exists c | c in changes :: !Readable(c) then Err(InvalidUtf8)
    else if changes == [] then Ok(Unchanged)
    else Commit(head, AllUpdates(changes), changes)
  }

  method RollbackDeltaByDelta(deltas: seq<Delta>, head: Tree) returns (result: Result<Outcome, Error>)
    ensures result == Rollback(deltas, head)
  {
    var updates: seq<Update> := [];
    var changes: seq<FileChange> := [];
    for i := 0 to |deltas|
      invariant changes == Rollbacks(deltas[..i], head) && updates == AllUpdates(changes)
      invariant forall c | c in changes :: Readable(c)
    {
      var step := RollbackOf(deltas[i], head);
      assert deltas[..i + 1][..i] == deltas[..i];
      RollbacksPrefix(deltas, head, i + 1);
      if k :| 0 <= k < |step| && !Readable(step[k]) {
        assert step[k] in Rollbacks(deltas[..i + 1], head);
        return Err(InvalidUtf8);
      }
      AllUpdatesConcat(changes, step);
      updates := updates + AllUpdates(step);
      changes := changes + step;
    }
    assert deltas[..|deltas|] == deltas;
    if changes == [] {
      return Ok(Unchanged);
    }
    result := Commit(head, updates, changes);
  }

  lemma {:induction false} RollbacksPrefix(deltas: seq<Delta>, head: Tree, i: nat)
    requires i <= |deltas|
    ensures forall c | c in Rollbacks(deltas[..i], head) :: c in Rollbacks(deltas, head)
    decreases |deltas| - i
  {
    if i < |deltas| {
      assert deltas[..i + 1][..i] == deltas[..i];
      RollbacksPrefix(deltas, head, i + 1);
    } else {
      assert deltas[..i] == deltas;
    }
  }

  lemma {:induction false} AllUpdatesConcat(cs: seq<FileChange>, ds: seq<FileChange>)
    ensures AllUpdates(cs + ds) == AllUpdates(cs) + AllUpdates(ds)
  {
    if ds == [] {
      assert cs + ds == cs;
    } else {
      assert (cs + ds)[..|cs + ds| - 1] == cs + ds[..|ds| - 1];
      AllUpdatesConcat(cs, ds[..|ds| - 1]);
    }
  }
}

/** What a revert and a rollback leave behind, whatever renames were detected. */
module CommitLaws {
  import opened Wrappers
  import opened Paths
  import opened Trees
  import opened Receiver
  import opened HookJobs
  import opened Operations
  import opened OperationLaws
  import opened Commits

  /** `after` holds `source`'s state on every path the commit touched and HEAD's everywhere else. */
  ghost predicate Restored(after: Tree, source: Tree, parent: Tree, target: Tree, head: Tree) {
    forall p :: At(after, p) == if Touched(parent, target, p) then At(source, p) else At(head, p)
  }

  lemma {:induction false} InversesMember(deltas: seq<Delta>, i: nat)
    requires i < |deltas|
    ensures |Inverses(deltas)| == |deltas| && Inverses(deltas)[i] == InverseOf(deltas[i])
  {
    if i < |deltas| - 1 {
      InversesMember(deltas[..|deltas| - 1], i);
    } else if i > 0 {
      InversesMember(deltas[..|deltas| - 1], i - 1);
    }
  }

  lemma InverseTouches(delta: Delta)
    ensures TouchedPaths(InverseOf(delta)) == DeltaPaths(delta)
  {}

  /** The paths a revert removes: those the commit brought in. */
  predicate BroughtIn(parent: Tree, target: Tree, path: Path) {
    path !in parent && path in target
  }

  /** HEAD now keeps a folder where the commit added a file. */
  ghost predicate FolderInTheWay(parent: Tree, target: Tree, head: Tree) {
    exists p :: BroughtIn(parent, target, p) && p !in head && IsDirectory(head, p)
  }

  lemma RevertWellFormed(deltas: seq<Delta>, parent: Tree, target: Tree, head: Tree)
    requires IsDiff(deltas, parent, target)
    requires forall d | d in deltas :: Readable(InverseOf(d))
    requires forall p | BroughtIn(parent, target, p) :: p in head
    ensures WellFormed(Inverses(deltas), head)
  {
    var changes := Inverses(deltas);
    if deltas != [] { InversesMember(deltas, 0); }
    assert |changes| == |deltas|;
    forall i | 0 <= i < |changes| ensures changes[i] == InverseOf(deltas[i]) {
      InversesMember(deltas, i);
    }
    forall i, j | 0 <= i < j < |changes| ensures TouchedPaths(changes[i]) !! TouchedPaths(changes[j]) {
      InverseTouches(deltas[i]);
      InverseTouches(deltas[j]);
    }
    forall c | c in changes ensures WellTargeted(c, head) {
      var i :| 0 <= i < |changes| && changes[i] == c;
      assert deltas[i] in deltas && DeltaHolds(deltas[i], parent, target);
      match deltas[i] {
        case Added(newPath, _) => assert BroughtIn(parent, target, newPath);
        case Renamed(_, newPath, _, _) => assert BroughtIn(parent, target, newPath);
        case _ =>
      }
    }
  }

  /** Where a disjoint list of changes leaves a path: as its one toucher says, else alone. */
  lemma ChangedAt(changes: seq<FileChange>, tree: Tree, p: Path, i: nat)
    requires Disjoint(changes)
    requires i < |changes| ==> p in TouchedPaths(changes[i])
    requires i == |changes| ==> forall c | c in changes :: p !in TouchedPaths(c)
    requires i <= |changes|
    ensures At(ChangedAll(tree, changes), p) == if i < |changes| then At(Changed(tree, changes[i]), p) else At(tree, p)
  {
    if i < |changes| {
      DecidedByToucher(changes, tree, FileRow(p), i);
    } else {
      UntouchedByAll(changes, tree, FileRow(p));
    }
  }

  lemma {:induction false} ToucherIndex(changes: seq<FileChange>, p: Path) returns (i: nat)
    ensures i <= |changes|
    ensures i < |changes| ==> p in TouchedPaths(changes[i])
    ensures i == |changes| ==> forall c | c in changes :: p !in TouchedPaths(c)
  {
    i := 0;
    while i < |changes| && p !in TouchedPaths(changes[i])
      invariant i <= |changes| && forall c | c in changes[..i] :: p !in TouchedPaths(c)
    {
      i := i + 1;
    }
    assert changes[..|changes|] == changes;
  }

  lemma InversesRestoreAt(deltas: seq<Delta>, parent: Tree, target: Tree, head: Tree, p: Path)
    requires IsDiff(deltas, parent, target) && Disjoint(Inverses(deltas))
    ensures At(ChangedAll(head, Inverses(deltas)), p) == if Touched(parent, target, p) then At(parent, p) else At(head, p)
  {
    var changes := Inverses(deltas);
    if deltas != [] { InversesMember(deltas, 0); }
    if Touched(parent, target, p) {
      var d :| d in deltas && p in DeltaPaths(d);
      var j :| 0 <= j < |deltas| && deltas[j] == d;
      InversesMember(deltas, j);
      InverseTouches(d);
      assert changes[j] in changes && p in TouchedPaths(changes[j]);
    }
    var i := ToucherIndex(changes, p);
    ChangedAt(changes, head, p, i);
    if i < |changes| {
      InversesMember(deltas, i);
      InverseTouches(deltas[i]);
      assert deltas[i] in deltas && DeltaHolds(deltas[i], parent, target);
    }
  }

  // When the tree updater accepts a commit, in terms of the paths it writes and removes

  function PutPaths(change: FileChange): set<Path> {
    match change
    case Deleted(_) => {}
    case Moved(_, toPath, _) => {toPath}
    case _ => {change.path}
  }

  function GonePaths(change: FileChange): set<Path> {
    match change
    case Deleted(path) => {path}
    case Moved(fromPath, _, _) => {fromPath}
    case _ => {}
  }

  predicate Fits(head: Tree, puts: set<Path>, gones: set<Path>) {
    && (forall p | p in puts :: !IsDirectory(head, p) && forall q | q in head :: !Under(p, q))
    && (forall p | p in gones :: p != [] && Exists(head, p))
    && (forall p, q | p in puts + gones && q in puts + gones :: !Under(p, q))
  }

  lemma {:induction false} AllUpdatesOrigin(changes: seq<FileChange>, u: Update) returns (c: FileChange)
    requires u in AllUpdates(changes)
    ensures c in changes && u in UpdatesOf(c)
  {
    var last := changes[|changes| - 1];
    if u in UpdatesOf(last) {
      c := last;
    } else {
      c := AllUpdatesOrigin(changes[..|changes| - 1], u);
    }
  }

  ghost predicate WritesExactly(changes: seq<FileChange>, puts: set<Path>, gones: set<Path>) {
    && (forall p :: p in puts <==> exists c :: c in changes && p in PutPaths(c))
    && (forall p :: p in gones <==> exists c :: c in changes && p in GonePaths(c))
  }

  ghost predicate UpdatesExactly(updates: seq<Update>, puts: set<Path>, gones: set<Path>) {
    && (forall u | u in updates :: if u.Upsert? then u.path in puts else u.path in gones)
    && (forall p | p in puts :: exists u :: u in updates && u.Upsert? && u.path == p)
    && (forall p | p in gones :: exists u :: u in updates && u.Remove? && u.path == p)
  }

  lemma UpdatesWrite(changes: seq<FileChange>, puts: set<Path>, gones: set<Path>)
    requires WritesExactly(changes, puts, gones)
    ensures UpdatesExactly(AllUpdates(changes), puts, gones)
  {
    var updates := AllUpdates(changes);
    forall u | u in updates ensures if u.Upsert? then u.path in puts else u.path in gones {
      var c := AllUpdatesOrigin(changes, u);
      assert u.path in PutPaths(c) || u.path in GonePaths(c);
    }
    forall p | p in puts ensures exists u :: u in updates && u.Upsert? && u.path == p {
      var c :| c in changes && p in PutPaths(c);
      var u := UpdatesOf(c)[|UpdatesOf(c)| - 1];
      AllUpdatesMember(changes, c, u);
    }
    forall p | p in gones ensures exists u :: u in updates && u.Remove? && u.path == p {
      var c :| c in changes && p in GonePaths(c);
      var u := UpdatesOf(c)[0];
      AllUpdatesMember(changes, c, u);
    }
  }

  lemma AcceptsIffFits(head: Tree, updates: seq<Update>, puts: set<Path>, gones: set<Path>)
    requires UpdatesExactly(updates, puts, gones)
    ensures Accepts(head, updates) <==> Fits(head, puts, gones)
  {
    if Accepts(head, updates) {
      forall p | p in puts ensures !IsDirectory(head, p) && forall q | q in head :: !Under(p, q) {
        var u :| u in updates && u.Upsert? && u.path == p;
        assert !Clashes(head, u);
      }
      forall p | p in gones ensures p != [] && Exists(head, p) {
        var u :| u in updates && u.Remove? && u.path == p;
        assert !Clashes(head, u);
      }
      forall p, q | p in puts + gones && q in puts + gones ensures !Under(p, q) {
        var u :| u in updates && u.path == p;
        var v :| v in updates && v.path == q;
      }
    }
  }

  // Revert

  function RevertPuts(parent: Tree, target: Tree): set<Path> {
    set p | p in parent && Touched(parent, target, p)
  }

  function RevertGones(parent: Tree, target: Tree): set<Path> {
    set p | p in target && BroughtIn(parent, target, p)
  }

  /** When a revert goes through, judged from the three trees alone. */
  predicate RevertPossible(parent: Tree, target: Tree, head: Tree) {
    && (forall p | p in RevertPuts(parent, target) :: !parent[p].NotUtf8?)
    && Fits(head, RevertPuts(parent, target), RevertGones(parent, target))
  }

  lemma InverseWrites(delta: Delta, parent: Tree, target: Tree)
    requires DeltaHolds(delta, parent, target)
    ensures forall p | p in DeltaPaths(delta) :: Touched(parent, target, p)
    ensures forall p :: p in PutPaths(InverseOf(delta)) <==> p in DeltaPaths(delta) && p in parent
    ensures forall p :: p in GonePaths(InverseOf(delta)) <==> p in DeltaPaths(delta) && p !in parent
    ensures Readable(InverseOf(delta)) <==> forall p | p in PutPaths(InverseOf(delta)) && p in parent :: !parent[p].NotUtf8?
  {}

  lemma InversesFrom(deltas: seq<Delta>)
    ensures forall d | d in deltas :: InverseOf(d) in Inverses(deltas)
    ensures forall c | c in Inverses(deltas) :: exists d :: d in deltas && c == InverseOf(d)
  {
    if deltas != [] { InversesMember(deltas, 0); }
    forall d | d in deltas ensures InverseOf(d) in Inverses(deltas) {
      var i :| 0 <= i < |deltas| && deltas[i] == d;
      InversesMember(deltas, i);
    }
    forall c | c in Inverses(deltas) ensures exists d :: d in deltas && c == InverseOf(d) {
      var i :| 0 <= i < |Inverses(deltas)| && Inverses(deltas)[i] == c;
      InversesMember(deltas, i);
      assert deltas[i] in deltas;
    }
  }

  lemma InversesCover(deltas: seq<Delta>, parent: Tree, target: Tree, p: Path) returns (c: FileChange)
    requires IsDiff(deltas, parent, target) && Touched(parent, target, p)
    ensures c in Inverses(deltas) && if p in parent then p in PutPaths(c) else p in GonePaths(c)
  {
    var d :| d in deltas && p in DeltaPaths(d);
    InverseWrites(d, parent, target);
    InversesFrom(deltas);
    c := InverseOf(d);
  }

  lemma InversesWithin(deltas: seq<Delta>, parent: Tree, target: Tree, c: FileChange, p: Path)
    requires IsDiff(deltas, parent, target) && c in Inverses(deltas)
    ensures p in PutPaths(c) ==> p in RevertPuts(parent, target)
    ensures p in GonePaths(c) ==> p in RevertGones(parent, target)
  {
    InversesFrom(deltas);
    var d :| d in deltas && c == InverseOf(d);
    InverseWrites(d, parent, target);
  }

  lemma InversesWrite(deltas: seq<Delta>, parent: Tree, target: Tree)
    requires IsDiff(deltas, parent, target)
    ensures WritesExactly(Inverses(deltas), RevertPuts(parent, target), RevertGones(parent, target))
  {
    forall p | p in RevertPuts(parent, target) ensures exists c :: c in Inverses(deltas) && p in PutPaths(c) {
      var c := InversesCover(deltas, parent, target, p);
    }
    forall p | p in RevertGones(parent, target) ensures exists c :: c in Inverses(deltas) && p in GonePaths(c) {
      var c := InversesCover(deltas, parent, target, p);
    }
    forall c, p | c in Inverses(deltas)
      ensures p in PutPaths(c) ==> p in RevertPuts(parent, target)
      ensures p in GonePaths(c) ==> p in RevertGones(parent, target)
    {
      InversesWithin(deltas, parent, target, c, p);
    }
  }

  lemma InversesReadable(deltas: seq<Delta>, parent: Tree, target: Tree)
    requires IsDiff(deltas, parent, target)
    ensures (forall d | d in deltas :: Readable(InverseOf(d)))
       <==> forall p | p in RevertPuts(parent, target) :: !parent[p].NotUtf8?
  {
    forall d | d in deltas
      ensures Readable(InverseOf(d)) <==> forall p | p in DeltaPaths(d) && p in parent :: !parent[p].NotUtf8?
      ensures forall p | p in DeltaPaths(d) :: Touched(parent, target, p)
    {
      InverseWrites(d, parent, target);
    }
    if forall d | d in deltas :: Readable(InverseOf(d)) {
      forall p | p in RevertPuts(parent, target) ensures !parent[p].NotUtf8? {
        var d :| d in deltas && p in DeltaPaths(d);
      }
    }
  }

  /** A revert goes through or not whatever renames were detected: its outcome is settled by the trees. */
  lemma RevertSucceedsIff(deltas: seq<Delta>, parent: Tree, target: Tree, head: Tree)
    requires IsDiff(deltas, parent, target)
    ensures Revert(deltas, head).Ok? <==> RevertPossible(parent, target, head)
  {
    var puts, gones := RevertPuts(parent, target), RevertGones(parent, target);
    InversesReadable(deltas, parent, target);
    InversesWrite(deltas, parent, target);
    UpdatesWrite(Inverses(deltas), puts, gones);
    AcceptsIffFits(head, AllUpdates(Inverses(deltas)), puts, gones);
  }

  /** A revert leaves the parent's state on every touched path and HEAD's elsewhere, exactly when HEAD
      keeps no folder where the commit added a file: the updater drops such a folder whole. */
  lemma RevertRestoresIff(deltas: seq<Delta>, parent: Tree, target: Tree, head: Tree)
    requires IsDiff(deltas, parent, target) && PrefixFree(head)
    requires Revert(deltas, head).Ok?
    ensures Restored(Revert(deltas, head).value.tree, parent, parent, target, head)
       <==> !FolderInTheWay(parent, target, head)
  {
    var changes := Inverses(deltas);
    var after := Revert(deltas, head).value.tree;
    InversesWrite(deltas, parent, target);
    UpdatesWrite(changes, RevertPuts(parent, target), RevertGones(parent, target));
    AcceptsIffFits(head, AllUpdates(changes), RevertPuts(parent, target), RevertGones(parent, target));
    if FolderInTheWay(parent, target, head) {
      var p :| BroughtIn(parent, target, p) && p !in head && IsDirectory(head, p);
      assert p in RevertGones(parent, target);
      var q :| q in head && Under(q, p);
      DroppedWithFolder(head, AllUpdates(changes), p, q);
      assert !Touched(parent, target, q) by {
        assert Touched(parent, target, q) ==> q in RevertPuts(parent, target) + RevertGones(parent, target);
      }
    } else {
      forall p | BroughtIn(parent, target, p) ensures p in head {
        assert p in RevertGones(parent, target);
      }
      RevertWellFormed(deltas, parent, target, head);
      StagedIsChanged(head, changes);
      forall p ensures At(after, p) == if Touched(parent, target, p) then At(parent, p) else At(head, p) {
        InversesRestoreAt(deltas, parent, target, head, p);
      }
    }
  }

  lemma {:induction false} DroppedWithFolder(base: Tree, updates: seq<Update>, p: Path, q: Path)
    requires Remove(p) in updates && Under(q, p)
    requires forall u | u in updates :: u.path != q
    ensures q !in AppliedAll(base, updates)
  {
    var last := updates[|updates| - 1];
    if last != Remove(p) {
      DroppedWithFolder(base, updates[..|updates| - 1], p, q);
    }
  }

  /** Reverting HEAD itself gives its parent's tree back, and is refused only when it would restore
      bytes that are not text, or the commit swapped a file for a folder. */
  lemma RevertHeadIsParent(deltas: seq<Delta>, parent: Tree, head: Tree)
    requires IsDiff(deltas, parent, head) && PrefixFree(parent) && PrefixFree(head)
    ensures Revert(deltas, head).Ok? ==> Revert(deltas, head).value.tree == parent
    ensures Revert(deltas, head).Ok? <==>
      && (forall p | p in RevertPuts(parent, head) :: !parent[p].NotUtf8?)
      && (forall p, q | p in parent && q in head :: !Under(p, q) && !Under(q, p))
  {
    RevertSucceedsIff(deltas, parent, head, head);
    if Revert(deltas, head).Ok? {
      RevertRestoresIff(deltas, parent, head, head);
      var after := Revert(deltas, head).value.tree;
      forall p ensures At(after, p) == At(parent, p) {}
      assert after == parent by {
        forall p ensures p in after <==> p in parent {
          assert At(after, p) == At(parent, p);
        }
        forall p | p in after ensures after[p] == parent[p] {
          assert At(after, p) == At(parent, p);
        }
      }
    }
  }

  // Rollback

  /** The paths a rollback has to write: the target's files HEAD holds otherwise or not at all. */
  function RollbackPuts(parent: Tree, target: Tree, head: Tree): set<Path> {
    set p | p in target && Touched(parent, target, p) && At(head, p) != At(target, p)
  }

  function RollbackGones(parent: Tree, target: Tree, head: Tree): set<Path> {
    set p | p in parent && p !in target && p in head
  }

  predicate RollbackPossible(parent: Tree, target: Tree, head: Tree) {
    && (forall p | p in RollbackPuts(parent, target, head) :: !target[p].NotUtf8?)
    && Fits(head, RollbackPuts(parent, target, head), RollbackGones(parent, target, head))
  }

  /** What one delta's rollback writes and removes, whichever branch a rename takes. */
  lemma RollbackOfWrites(delta: Delta, parent: Tree, target: Tree, head: Tree, p: Path)
    requires DeltaHolds(delta, parent, target)
    ensures var cs := RollbackOf(delta, head);
      && ((exists c :: c in cs && p in PutPaths(c))
          <==> p in DeltaPaths(delta) && p in target && At(head, p) != At(target, p))
      && ((exists c :: c in cs && p in GonePaths(c))
          <==> p in DeltaPaths(delta) && p !in target && p in head)
      && (forall c | c in cs :: TouchedPaths(c) <= DeltaPaths(delta) && WellTargeted(c, head) == Readable(c))
      && (forall c | c in cs && p in PutPaths(c) :: p in target && c.content == target[p])
  {
    match delta {
      case Renamed(oldPath, newPath, _, newBlob) =>
        var restored, removed := RestorePath(head, newPath, newBlob), RemovePath(head, oldPath);
        if oldPath in head && newPath !in head {
          assert RollbackOf(delta, head)[0] in RollbackOf(delta, head);
        } else {
          assert forall c :: c in restored + removed <==> c in restored || c in removed;
          if restored != [] { assert restored[0] in restored; }
          if removed != [] { assert removed[0] in removed; }
        }
      case _ =>
        if RollbackOf(delta, head) != [] { assert RollbackOf(delta, head)[0] in RollbackOf(delta, head); }
    }
  }

  lemma {:induction false} RollbacksFrom(deltas: seq<Delta>, head: Tree, c: FileChange)
    ensures c in Rollbacks(deltas, head) <==> exists d :: d in deltas && c in RollbackOf(d, head)
  {
    if deltas != [] {
      var front, last := deltas[..|deltas| - 1], deltas[|deltas| - 1];
      RollbacksFrom(front, head, c);
      assert deltas == front + [last];
      if c in RollbackOf(last, head) { assert last in deltas; }
      if d :| d in front && c in RollbackOf(d, head) { assert d in deltas; }
    }
  }

  lemma RollbacksWrite(deltas: seq<Delta>, parent: Tree, target: Tree, head: Tree)
    requires IsDiff(deltas, parent, target)
    ensures WritesExactly(Rollbacks(deltas, head), RollbackPuts(parent, target, head), RollbackGones(parent, target, head))
  {
    var changes := Rollbacks(deltas, head);
    forall p | p in RollbackPuts(parent, target, head) ensures exists c :: c in changes && p in PutPaths(c) {
      var d :| d in deltas && p in DeltaPaths(d);
      RollbackOfWrites(d, parent, target, head, p);
      var c :| c in RollbackOf(d, head) && p in PutPaths(c);
      RollbacksFrom(deltas, head, c);
    }
    forall p | p in RollbackGones(parent, target, head) ensures exists c :: c in changes && p in GonePaths(c) {
      assert Touched(parent, target, p);
      var d :| d in deltas && p in DeltaPaths(d);
      RollbackOfWrites(d, parent, target, head, p);
      var c :| c in RollbackOf(d, head) && p in GonePaths(c);
      RollbacksFrom(deltas, head, c);
    }
    forall c, p | c in changes
      ensures p in PutPaths(c) ==> p in RollbackPuts(parent, target, head)
      ensures p in GonePaths(c) ==> p in RollbackGones(parent, target, head)
    {
      RollbacksFrom(deltas, head, c);
      var d :| d in deltas && c in RollbackOf(d, head);
      RollbackOfWrites(d, parent, target, head, p);
      InverseWrites(d, parent, target);
    }
  }

  lemma {:induction false} RollbacksDisjoint(deltas: seq<Delta>, parent: Tree, target: Tree, head: Tree)
    requires forall d | d in deltas :: DeltaHolds(d, parent, target)
    requires forall i, j | 0 <= i < j < |deltas| :: DeltaPaths(deltas[i]) !! DeltaPaths(deltas[j])
    ensures Disjoint(Rollbacks(deltas, head))
  {
    if deltas != [] {
      var front, last := deltas[..|deltas| - 1], deltas[|deltas| - 1];
      RollbacksDisjoint(front, parent, target, head);
      forall c, e | c in Rollbacks(front, head) && e in RollbackOf(last, head)
        ensures TouchedPaths(c) !! TouchedPaths(e)
      {
        RollbacksFrom(front, head, c);
        var d :| d in front && c in RollbackOf(d, head);
        var i :| 0 <= i < |front| && front[i] == d;
        assert deltas[i] == d && deltas[|deltas| - 1] == last;
        RollbackOfWrites(d, parent, target, head, []);
        RollbackOfWrites(last, parent, target, head, []);
      }
      RollbackOfDisjoint(last, parent, target, head);
      DisjointConcat(Rollbacks(front, head), RollbackOf(last, head));
    }
  }

  lemma RollbackOfDisjoint(delta: Delta, parent: Tree, target: Tree, head: Tree)
    requires DeltaHolds(delta, parent, target)
    ensures Disjoint(RollbackOf(delta, head))
  {}

  lemma RollbackChange(deltas: seq<Delta>, parent: Tree, target: Tree, head: Tree, c: FileChange, p: Path)
    requires IsDiff(deltas, parent, target) && c in Rollbacks(deltas, head)
    ensures WellTargeted(c, head) == Readable(c)
    ensures p in PutPaths(c) ==> p in RollbackPuts(parent, target, head) && c.content == target[p]
    ensures p in GonePaths(c) ==> p in RollbackGones(parent, target, head)
  {
    RollbacksFrom(deltas, head, c);
    var d :| d in deltas && c in RollbackOf(d, head);
    RollbackOfWrites(d, parent, target, head, p);
    InverseWrites(d, parent, target);
  }

  lemma RollbacksReadable(deltas: seq<Delta>, parent: Tree, target: Tree, head: Tree)
    requires IsDiff(deltas, parent, target)
    ensures (forall c | c in Rollbacks(deltas, head) :: Readable(c))
       <==> forall p | p in RollbackPuts(parent, target, head) :: !target[p].NotUtf8?
    ensures forall c | c in Rollbacks(deltas, head) :: WellTargeted(c, head) == Readable(c)
  {
    var changes := Rollbacks(deltas, head);
    RollbacksWrite(deltas, parent, target, head);
    forall c | c in changes ensures WellTargeted(c, head) == Readable(c) {
      RollbackChange(deltas, parent, target, head, c, []);
    }
    forall p | p in RollbackPuts(parent, target, head)
      ensures (forall c | c in changes :: Readable(c)) ==> !target[p].NotUtf8?
    {
      var c :| c in changes && p in PutPaths(c);
      RollbackChange(deltas, parent, target, head, c, p);
    }
    forall c | c in changes && !Readable(c)
      ensures exists p :: p in RollbackPuts(parent, target, head) && target[p].NotUtf8?
    {
      var p := if c.Moved? then c.toPath else c.path;
      RollbackChange(deltas, parent, target, head, c, p);
    }
  }

  /** A rollback goes through or not whatever renames were detected, and commits only when a touched
      path differs between HEAD and the target. */
  lemma RollbackSucceedsIff(deltas: seq<Delta>, parent: Tree, target: Tree, head: Tree)
    requires IsDiff(deltas, parent, target)
    ensures Rollback(deltas, head).Ok? <==> RollbackPossible(parent, target, head)
    ensures Rollback(deltas, head) == Ok(Unchanged)
       <==> forall p | Touched(parent, target, p) :: At(head, p) == At(target, p)
  {
    var changes := Rollbacks(deltas, head);
    var puts, gones := RollbackPuts(parent, target, head), RollbackGones(parent, target, head);
    RollbacksWrite(deltas, parent, target, head);
    RollbacksReadable(deltas, parent, target, head);
    UpdatesWrite(changes, puts, gones);
    AcceptsIffFits(head, AllUpdates(changes), puts, gones);
    RollbackEmptyIff(deltas, parent, target, head);
  }

  /** Nothing is staged exactly when HEAD already agrees with the target wherever the target touched. */
  lemma RollbackEmptyIff(deltas: seq<Delta>, parent: Tree, target: Tree, head: Tree)
    requires IsDiff(deltas, parent, target)
    ensures Rollbacks(deltas, head) == [] <==> forall p | Touched(parent, target, p) :: At(head, p) == At(target, p)
  {
    var changes := Rollbacks(deltas, head);
    var puts, gones := RollbackPuts(parent, target, head), RollbackGones(parent, target, head);
    RollbacksWrite(deltas, parent, target, head);
    if changes == [] {
      forall p | Touched(parent, target, p) ensures At(head, p) == At(target, p) {
        assert p !in puts && p !in gones;
      }
    } else {
      var c := changes[0];
      var p :| p in PutPaths(c) || p in GonePaths(c);
      assert p in puts || p in gones;
      assert Touched(parent, target, p) && At(head, p) != At(target, p);
    }
  }

  /** A successful rollback holds the target's state on every touched path and HEAD's elsewhere, for any
      detected renames, and repeating it makes no commit. */
  lemma RollbackRestores(deltas: seq<Delta>, parent: Tree, target: Tree, head: Tree, again: seq<Delta>)
    requires IsDiff(deltas, parent, target) && IsDiff(again, parent, target) && PrefixFree(head)
    requires Rollback(deltas, head).Ok?
    ensures var outcome := Rollback(deltas, head).value;
      var after := if outcome.Committed? then outcome.tree else head;
      && Restored(after, target, parent, target, head)
      && Rollback(again, after) == Ok(Unchanged)
  {
    var changes := Rollbacks(deltas, head);
    var outcome := Rollback(deltas, head).value;
    var after := if outcome.Committed? then outcome.tree else head;
    RollbackSucceedsIff(deltas, parent, target, head);
    if outcome.Committed? {
      RollbacksReadable(deltas, parent, target, head);
      RollbacksDisjoint(deltas, parent, target, head);
      StagedIsChanged(head, changes);
      forall p ensures At(after, p) == if Touched(parent, target, p) then At(target, p) else At(head, p) {
        RollbackAt(deltas, parent, target, head, p);
      }
    }
    RollbackSucceedsIff(again, parent, target, after);
  }

  lemma RollbackAt(deltas: seq<Delta>, parent: Tree, target: Tree, head: Tree, p: Path)
    requires IsDiff(deltas, parent, target) && Disjoint(Rollbacks(deltas, head))
    requires forall c | c in Rollbacks(deltas, head) :: WellTargeted(c, head)
    ensures At(ChangedAll(head, Rollbacks(deltas, head)), p)
         == if Touched(parent, target, p) then At(target, p) else At(head, p)
  {
    var changes := Rollbacks(deltas, head);
    RollbacksWrite(deltas, parent, target, head);
    var i := ToucherIndex(changes, p);
    ChangedAt(changes, head, p, i);
    if i < |changes| {
      var c := changes[i];
      RollbackChange(deltas, parent, target, head, c, p);
      assert p in PutPaths(c) || p in GonePaths(c);
      assert At(Changed(head, c), p) == if p in PutPaths(c) then Some(c.content) else None;
    } else {
      assert p !in RollbackPuts(parent, target, head) && p !in RollbackGones(parent, target, head);
    }
  }

  /** The hook job of a rollback, and of a revert with no folder in the way, reports exactly what the
      commit did to the tree. */
  lemma RollbackWellFormed(deltas: seq<Delta>, parent: Tree, target: Tree, head: Tree)
    requires IsDiff(deltas, parent, target) && PrefixFree(head)
    ensures var result := Rollback(deltas, head);
      result.Ok? && result.value.Committed? ==>
        WellFormed(result.value.changes, head) && result.value.tree == ChangedAll(head, result.value.changes)
  {
    var result := Rollback(deltas, head);
    if result.Ok? && result.value.Committed? {
      RollbacksReadable(deltas, parent, target, head);
      RollbacksDisjoint(deltas, parent, target, head);
      StagedIsChanged(head, result.value.changes);
    }
  }
}
