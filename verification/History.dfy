/** Whole runs of one repository: any sequence of requests, with the webhook mirror beside it. */
module History {
  import opened Wrappers
  import opened Paths
  import opened Trees
  import opened Receiver
  import opened HookJobs
  import opened OrderIndex
  import opened Operations
  import opened OperationLaws
  import opened Commits
  import opened CommitLaws
  import HookQueues

  /** A request, with what libgit2 answers along the way: a subtree walk, a directory listing, a diff. */
  datatype Request =
    | Write(path: Path, content: Blob)
    | Delete(path: Path)
    | DeleteFolder(path: Path, blobs: seq<Path>)
    | Move(fromPath: Path, toPath: Path)
    | MoveFolder(fromPath: Path, toPath: Path, blobs: seq<Path>)
    | PutOrder(directory: Path, order: seq<Name>, allowHidden: bool)
    | Reorder(path: Path, position: OrderPosition, implicitIndex: Option<int>, allowHidden: bool, allowFolder: bool,
              children: seq<Child>)
    | DropOrder(directory: Path)
    | RevertCommit(commit: nat, deltas: seq<Delta>)
    | RollbackCommit(commit: nat, deltas: seq<Delta>)

  /** Commits so far, oldest first (`trees[0]` is the empty root commit), and the receiver's table. */
  datatype Run = Run(trees: seq<Tree>, mirror: Table)

  function Head(run: Run): Tree
    requires run.trees != []
  {
    run.trees[|run.trees| - 1]
  }

  function ParentTree(trees: seq<Tree>, commit: nat): Tree
    requires commit < |trees|
  {
    if commit == 0 then map[] else trees[commit - 1]
  }

  /** Rename detection pairs an index with an index, an ordinary file with an ordinary file. */
  predicate PairsAlike(deltas: seq<Delta>) {
    forall d | d in deltas && d.Renamed? :: IsOrderFile(d.oldPath) == IsOrderFile(d.newPath)
  }

  /** What libgit2 answers is right, and the two conditions the mirror depends on hold: renames pair
      alike, and no reverted addition has become a folder since. */
  ghost predicate Admissible(run: Run, request: Request)
    requires run.trees != []
  {
    var head := Head(run);
    match request
    case Write(_, content) => !content.NotUtf8?
    case DeleteFolder(path, blobs) => Walks(blobs, head, path)
    case MoveFolder(fromPath, _, blobs) => Walks(blobs, head, fromPath)
    case Reorder(path, _, _, _, _, children) => path != [] ==> Lists(children, head, Parent(path))
    case RevertCommit(commit, deltas) =>
      0 < commit < |run.trees| ==>
        && IsDiff(deltas, run.trees[commit - 1], run.trees[commit]) && PairsAlike(deltas)
        && !FolderInTheWay(run.trees[commit - 1], run.trees[commit], head)
    case RollbackCommit(commit, deltas) =>
      commit < |run.trees| ==> IsDiff(deltas, ParentTree(run.trees, commit), run.trees[commit]) && PairsAlike(deltas)
    case _ => true
  }

  ghost function Perform(run: Run, request: Request): Result<Outcome, Error>
    requires run.trees != [] && Admissible(run, request)
  {
    var head := Head(run);
    match request
    case Write(path, content) => WriteFile(head, path, content)
    case Delete(path) => DeleteFile(head, path)
    case DeleteFolder(path, blobs) => DeleteDirectory(head, path, blobs)
    case Move(fromPath, toPath) => MoveFile(head, fromPath, toPath)
    case MoveFolder(fromPath, toPath, blobs) => MoveDirectory(head, fromPath, toPath, blobs)
    case PutOrder(directory, order, allowHidden) => WriteOrder(head, directory, order, allowHidden)
    case Reorder(path, position, implicitIndex, allowHidden, allowFolder, children) =>
      ReorderEntry(head, path, position, implicitIndex, allowHidden, allowFolder, children)
    case DropOrder(directory) => DeleteOrder(head, directory)
    case RevertCommit(commit, deltas) =>
      if commit >= |run.trees| then Err(CommitNotFound)
      else if commit == 0 then Err(InvalidOperation)
      else Revert(deltas, head)
    case RollbackCommit(commit, deltas) =>
      if commit >= |run.trees| then Err(CommitNotFound) else Rollback(deltas, head)
  }

  /** A commit appends its tree and delivers its job; a refusal or a no-op does neither. */
  ghost function Step(run: Run, request: Request): (next: Run)
    requires run.trees != [] && Admissible(run, request)
    ensures next.trees != []
  {
    match Perform(run, request)
    case Ok(Committed(tree, changes)) => Run(run.trees + [tree], DeliverAll(run.mirror, JobEvents(changes)))
    case _ => run
  }

  const START: Run := Run([map[]], map[])

  /** `runs` is a run from the empty repository, one request after the other. */
  ghost predicate IsRun(runs: seq<Run>, requests: seq<Request>) {
    && |runs| == |requests| + 1 && runs[0] == START
    && forall i | 0 <= i < |requests| ::
         runs[i].trees != [] && Admissible(runs[i], requests[i]) && runs[i + 1] == Step(runs[i], requests[i])
  }

  /** Files and folders apart, everything text, every index a document that parses. */
  predicate Healthy(tree: Tree) {
    && PrefixFree(tree)
    && (forall p | p in tree :: !tree[p].NotUtf8?)
    && (forall p | p in tree && IsOrderFile(p) :: Parse(tree[p]).Some?)
  }

  lemma HealthyKept(changes: seq<FileChange>, tree: Tree)
    requires Healthy(tree) && WellFormed(changes, tree)
    requires forall c | c in changes :: WritesParsable(c, tree)
    ensures forall p | p in ChangedAll(tree, changes) ::
      var blob := ChangedAll(tree, changes)[p];
      !blob.NotUtf8? && (IsOrderFile(p) ==> Parse(blob).Some?)
  {
    var after := ChangedAll(tree, changes);
    forall p | p in after ensures !after[p].NotUtf8? && (IsOrderFile(p) ==> Parse(after[p]).Some?) {
      var i := ToucherIndex(changes, p);
      ChangedAt(changes, tree, p, i);
      if i < |changes| {
        assert changes[i] in changes;
        assert At(after, p) == At(Changed(tree, changes[i]), p);
      } else {
        assert At(after, p) == At(tree, p);
      }
    }
  }

  /** Any write of a document that parses is classified right on a healthy tree. */
  lemma ParsableIsClassified(change: FileChange, tree: Tree)
    requires Healthy(tree) && WritesParsable(change, tree)
    requires change.Moved? ==> IsOrderFile(change.fromPath) == IsOrderFile(change.toPath)
    ensures Classified(change, tree)
  {}

  lemma InversesClassified(deltas: seq<Delta>, parent: Tree, target: Tree, head: Tree)
    requires Healthy(parent) && Healthy(head)
    requires IsDiff(deltas, parent, target) && PairsAlike(deltas)
    ensures forall c | c in Inverses(deltas) :: Classified(c, head) && WritesParsable(c, head)
  {
    InversesFrom(deltas);
    forall c | c in Inverses(deltas) ensures Classified(c, head) && WritesParsable(c, head) {
      var d :| d in deltas && c == InverseOf(d);
      assert DeltaHolds(d, parent, target);
      ParsableIsClassified(c, head);
    }
  }

  lemma RevertDescribed(deltas: seq<Delta>, parent: Tree, target: Tree, head: Tree)
    requires Healthy(parent) && Healthy(target) && Healthy(head)
    requires IsDiff(deltas, parent, target) && PairsAlike(deltas) && !FolderInTheWay(parent, target, head)
    ensures Described(Revert(deltas, head), head)
  {
    if Revert(deltas, head).Ok? {
      var changes := Inverses(deltas);
      InversesWrite(deltas, parent, target);
      UpdatesWrite(changes, RevertPuts(parent, target), RevertGones(parent, target));
      AcceptsIffFits(head, AllUpdates(changes), RevertPuts(parent, target), RevertGones(parent, target));
      forall p | BroughtIn(parent, target, p) ensures p in head {
        assert p in RevertGones(parent, target);
      }
      RevertWellFormed(deltas, parent, target, head);
      StagedIsChanged(head, changes);
      InversesClassified(deltas, parent, target, head);
    }
  }

  lemma RollbackDescribed(deltas: seq<Delta>, parent: Tree, target: Tree, head: Tree)
    requires Healthy(parent) && Healthy(target) && Healthy(head)
    requires IsDiff(deltas, parent, target) && PairsAlike(deltas)
    ensures Described(Rollback(deltas, head), head)
  {
    var result := Rollback(deltas, head);
    if result.Ok? && result.value.Committed? {
      RollbackWellFormed(deltas, parent, target, head);
      forall c | c in result.value.changes ensures Classified(c, head) && WritesParsable(c, head) {
        RollbacksFrom(deltas, head, c);
        var d :| d in deltas && c in RollbackOf(d, head);
        assert DeltaHolds(d, parent, target);
        RollbackPairsAlike(d, head, c);
        RollbackChange(deltas, parent, target, head, c, if c.Moved? then c.toPath else c.path);
        ParsableIsClassified(c, head);
      }
    }
  }

  lemma RollbackPairsAlike(delta: Delta, head: Tree, c: FileChange)
    requires c in RollbackOf(delta, head)
    requires delta.Renamed? ==> IsOrderFile(delta.oldPath) == IsOrderFile(delta.newPath)
    ensures c.Moved? ==> IsOrderFile(c.fromPath) == IsOrderFile(c.toPath)
  {}

  lemma PerformDescribed(run: Run, request: Request)
    requires run.trees != [] && Admissible(run, request) && forall t | t in run.trees :: Healthy(t)
    ensures Described(Perform(run, request), Head(run))
  {
    var head := Head(run);
    assert head in run.trees;
    match request {
      case Write(path, content) => WriteFileDescribed(head, path, content);
      case Delete(path) => DeleteFileDescribed(head, path);
      case DeleteFolder(path, blobs) => DeleteDirectoryDescribed(head, path, blobs);
      case Move(fromPath, toPath) => MoveFileDescribed(head, fromPath, toPath);
      case MoveFolder(fromPath, toPath, blobs) => MoveDirectoryDescribed(head, fromPath, toPath, blobs);
      case PutOrder(directory, order, _) =>
        var canonical := CanonicalOrder(head, directory, order);
        StoreOrderDescribed(head, directory, if canonical.Some? then canonical.value else []);
      case Reorder(path, position, implicitIndex, allowHidden, _, children) =>
        if path != [] {
          var entry := if path in head then File(Leaf(path)) else Folder(Leaf(path));
          StoreOrderDescribed(head, Parent(path),
            Reordered(children, StoredOrder(head, Parent(path)), entry, position, implicitIndex, allowHidden));
        }
      case DropOrder(directory) => DeleteOrderDescribed(head, directory);
      case RevertCommit(commit, deltas) =>
        if 0 < commit < |run.trees| {
          RevertDescribed(deltas, run.trees[commit - 1], run.trees[commit], head);
        }
      case RollbackCommit(commit, deltas) =>
        if commit < |run.trees| {
          RollbackDescribed(deltas, ParentTree(run.trees, commit), run.trees[commit], head);
        }
    }
  }

  lemma CommitIsPrefixFree(run: Run, request: Request)
    requires run.trees != [] && Admissible(run, request) && PrefixFree(Head(run))
    ensures var result := Perform(run, request);
      result.Ok? && result.value.Committed? ==> PrefixFree(result.value.tree)
  {
    forall updates: seq<Update> | Accepts(Head(run), updates) ensures PrefixFree(AppliedAll(Head(run), updates)) {
      CreateUpdatedPrefixFree(Head(run), updates);
    }
  }

  lemma StepMirrors(run: Run, request: Request)
    requires run.trees != [] && Admissible(run, request)
    requires (forall t | t in run.trees :: Healthy(t)) && run.mirror == MirrorOf(Head(run))
    ensures var next := Step(run, request);
      (forall t | t in next.trees :: Healthy(t)) && next.mirror == MirrorOf(Head(next))
  {
    var result := Perform(run, request);
    assert Head(run) in run.trees;
    PerformDescribed(run, request);
    if result.Ok? && result.value.Committed? {
      JobMirrorsIffClassified(result.value.changes, Head(run));
      HealthyKept(result.value.changes, Head(run));
      CommitIsPrefixFree(run, request);
    }
  }

  /** The mirror law over whole runs: after any requests, in any order, undoing any commits, the receiver
      holds exactly HEAD's files and orders, and every commit is healthy. */
  lemma {:induction false} EveryRunMirrors(runs: seq<Run>, requests: seq<Request>, i: nat)
    requires IsRun(runs, requests) && i < |runs|
    ensures runs[i].trees != [] && runs[i].mirror == MirrorOf(Head(runs[i]))
    ensures forall t | t in runs[i].trees :: Healthy(t)
  {
    if i == 0 {
      assert MirrorOf(map[]) == map[];
    } else {
      EveryRunMirrors(runs, requests, i - 1);
      StepMirrors(runs[i - 1], requests[i - 1]);
    }
  }

  /** Every commit a request makes is one the delivery queue may take: its job, queued, restates exactly the rows
      the commit changed, whatever the queue and the receiver's table are by then. */
  lemma CommitsFeedTheQueue(run: Run, request: Request, s: HookQueues.State)
    requires run.trees != [] && Admissible(run, request) && (forall t | t in run.trees :: Healthy(t))
    requires s.head == Head(run)
    ensures var result := Perform(run, request);
      result.Ok? && result.value.Committed? ==>
        var tree, events := result.value.tree, JobEvents(result.value.changes);
        HookQueues.Next(s, HookQueues.CommitLands(tree, events),
                        HookQueues.State(tree, s.queue + [HookQueues.CommitJob(events)], s.table))
  {
    var result := Perform(run, request);
    PerformDescribed(run, request);
    if result.Ok? && result.value.Committed? {
      JobMirrorsIffClassified(result.value.changes, Head(run));
    }
  }

  /** The condition on reverts is exact: with alike pairs on healthy trees, a revert that went through is mirrored by
      its job if and only if no folder sits at a path the commit brought in. */
  lemma RevertMirrorsIff(deltas: seq<Delta>, parent: Tree, target: Tree, head: Tree)
    requires Healthy(parent) && Healthy(target) && Healthy(head)
    requires IsDiff(deltas, parent, target) && PairsAlike(deltas) && Revert(deltas, head).Ok?
    ensures var outcome := Revert(deltas, head).value;
      && outcome.Committed?
      && (Faithful(JobEvents(outcome.changes), head, outcome.tree) <==> !FolderInTheWay(parent, target, head))
  {
    var outcome := Revert(deltas, head).value;
    if FolderInTheWay(parent, target, head) {
      var p :| BroughtIn(parent, target, p) && p !in head && IsDirectory(head, p);
      var q :| q in head && Under(q, p);
      DroppedUnreported(deltas, parent, target, head, p, q);
    } else {
      RevertDescribed(deltas, parent, target, head);
      JobMirrorsIffClassified(outcome.changes, head);
    }
  }

  /** A file beneath a removed folder goes without an event of its own. */
  lemma DroppedUnreported(deltas: seq<Delta>, parent: Tree, target: Tree, head: Tree, p: Path, q: Path)
    requires Healthy(head) && IsDiff(deltas, parent, target) && Revert(deltas, head).Ok?
    requires BroughtIn(parent, target, p) && q in head && Under(q, p)
    ensures !Faithful(JobEvents(Inverses(deltas)), head, Revert(deltas, head).value.tree)
  {
    var changes := Inverses(deltas);
    var after := Revert(deltas, head).value.tree;
    InversesWrite(deltas, parent, target);
    UpdatesWrite(changes, RevertPuts(parent, target), RevertGones(parent, target));
    AcceptsIffFits(head, AllUpdates(changes), RevertPuts(parent, target), RevertGones(parent, target));
    assert p in RevertGones(parent, target);
    DroppedWithFolder(head, AllUpdates(changes), p, q);
    var row := if IsOrderFile(q) then OrderRow(Parent(q)) else FileRow(q);
    assert PathOf(row) == q by { if IsOrderFile(q) { OrderPathInverse(q); } }
    forall c | c in changes
      ensures q !in TouchedPaths(c)
    {
      InversesWithin(deltas, parent, target, c, q);
      assert q in TouchedPaths(c) ==> q in PutPaths(c) || q in GonePaths(c);
    }
    UntouchedByAll(changes, head, row);
    SplitPreservesEffect(changes, row);
    assert Shown(head, row).Some? && Shown(after, row).None?;
    assert !RowFaithful(JobEvents(changes), head, after, row);
  }

  /** The condition on reverts is needed: a file was added, deleted, and its name given to a folder.
      Reverting the addition drops the folder from HEAD ... */
  lemma RevertOntoFolderDropsIt(file: Blob, inside: Blob)
    requires file.PlainText? && inside.PlainText?
    ensures var parent, target, head: Tree := map[], map[["a"] := file], map[["a", "b"] := inside];
      && IsDiff([Added(["a"], file)], parent, target) && Healthy(target) && Healthy(head)
      && Revert([Added(["a"], file)], head) == Ok(Committed(map[], [Deleted(["a"])]))
  {
    FolderRemovable(inside);
    AdditionIsDiff(file);
    OneFileHealthy(["a"], file);
    OneFileHealthy(["a", "b"], inside);
    InversesOfOne(Added(["a"], file), Deleted(["a"]));
  }

  lemma OneFileHealthy(path: Path, blob: Blob)
    requires path != [] && blob.PlainText? && !IsOrderFile(path)
    ensures Healthy(map[path := blob])
  {
  }

  lemma AdditionIsDiff(file: Blob)
    ensures IsDiff([Added(["a"], file)], map[], map[["a"] := file])
  {
    assert Added(["a"], file) in [Added(["a"], file)];
  }

  lemma InversesOfOne(delta: Delta, change: FileChange)
    requires InverseOf(delta) == change && change.Deleted?
    ensures Inverses([delta]) == [change] && AllUpdates([change]) == [Remove(change.path)]
  {
    assert [delta][..0] == [] && [change][..0] == [];
    assert Inverses([]) == [] && AllUpdates([]) == [];
  }

  lemma FolderRemovable(inside: Blob)
    ensures var head: Tree := map[["a", "b"] := inside];
      CreateUpdated(head, [Remove(["a"])]) == Some(map[])
  {
    var head: Tree := map[["a", "b"] := inside];
    assert ["a", "b"][..1] == ["a"] && Under(["a", "b"], ["a"]);
    AppliedOne(head, Remove(["a"]));
    assert Applied(head, Remove(["a"])) == map[];
  }

  /** ... while the one event sent for it leaves the receiver's row for the file inside. */
  lemma RevertOntoFolderKeepsRow(inside: Blob)
    requires inside.PlainText?
    ensures var head: Tree := map[["a", "b"] := inside];
      DeliverAll(MirrorOf(head), JobEvents([Deleted(["a"])])) != MirrorOf(map[])
  {
    var head: Tree := map[["a", "b"] := inside];
    var row, events := FileRow(["a", "b"]), JobEvents([Deleted(["a"])]);
    SplitPreservesEffect([Deleted(["a"])], row);
    UntouchedRow(Deleted(["a"]), row);
    assert [Deleted(["a"])][..0] == [];
    DeliverAllRow(MirrorOf(head), events, row);
    MirrorRow(head, row);
    MirrorRow(map[], row);
  }
}
