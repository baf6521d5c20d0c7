/** The receiver's read model: one table whose rows are files and directory orders. */
module Receiver {
  import opened Wrappers
  import opened Paths
  import opened Trees

  /** One change a commit made, carrying the resulting content (`FileChange`). */
  datatype FileChange =
    | Created(path: Path, content: Blob)
    | Updated(path: Path, content: Blob)
    | Deleted(path: Path)
    | Moved(fromPath: Path, toPath: Path, content: Blob)

  /** One delivered hook: a file event, or an `order.*` event. */
  datatype Event =
    | FileEvent(change: FileChange)
    | OrderUpdated(directory: Path, order: seq<Name>)
    | OrderDeleted(directory: Path)

  datatype Row = FileRow(path: Path) | OrderRow(directory: Path)

  datatype Value = Content(blob: Blob) | Positions(order: seq<Name>)

  type Table = map<Row, Value>

  function Get(table: Table, row: Row): Option<Value> {
    if row in table then Some(table[row]) else None
  }

  /** What the receiver does with one event. */
  function Deliver(table: Table, event: Event): Table {
    match event
    case FileEvent(Created(path, content)) => table[FileRow(path) := Content(content)]
    case FileEvent(Updated(path, content)) => table[FileRow(path) := Content(content)]
    case FileEvent(Deleted(path)) => table - {FileRow(path)}
    case FileEvent(Moved(fromPath, toPath, content)) =>
      (table - {FileRow(fromPath)})[FileRow(toPath) := Content(content)]
    case OrderUpdated(directory, order) => table[OrderRow(directory) := Positions(order)]
    case OrderDeleted(directory) => table - {OrderRow(directory)}
  }

  function DeliverAll(table: Table, events: seq<Event>): Table {
    if events == [] then table
    else Deliver(DeliverAll(table, events[..|events| - 1]), events[|events| - 1])
  }

  /** What `event` does to one row: nothing (`None`), or leave it holding that value or absent. */
  function Effect(event: Event, row: Row): Option<Option<Value>> {
    match event
    case FileEvent(Created(path, content)) => if row == FileRow(path) then Some(Some(Content(content))) else None
    case FileEvent(Updated(path, content)) => if row == FileRow(path) then Some(Some(Content(content))) else None
    case FileEvent(Deleted(path)) => if row == FileRow(path) then Some(Option<Value>.None) else None
    case FileEvent(Moved(fromPath, toPath, content)) =>
      if row == FileRow(toPath) then Some(Some(Content(content)))
      else if row == FileRow(fromPath) then Some(Option<Value>.None) else None
    case OrderUpdated(directory, order) => if row == OrderRow(directory) then Some(Some(Positions(order))) else None
    case OrderDeleted(directory) => if row == OrderRow(directory) then Some(Option<Value>.None) else None
  }

  /** The effect of the last event in `events` that touches `row`. */
  function LastEffect(events: seq<Event>, row: Row): Option<Option<Value>> {
    if events == [] then None
    else
      var last := Effect(events[|events| - 1], row);
      if last.Some? then last else LastEffect(events[..|events| - 1], row)
  }

  /** Delivering a batch leaves each row as its last toucher says, and the others alone. */
  lemma {:induction false} DeliverAllRow(table: Table, events: seq<Event>, row: Row)
    ensures Get(DeliverAll(table, events), row)
         == if LastEffect(events, row).Some? then LastEffect(events, row).value else Get(table, row)
  {
    if events != [] {
      DeliverAllRow(table, events[..|events| - 1], row);
    }
  }

  lemma {:induction false} LastEffectConcat(first: seq<Event>, second: seq<Event>, row: Row)
    ensures LastEffect(first + second, row)
         == if LastEffect(second, row).Some? then LastEffect(second, row) else LastEffect(first, row)
  {
    if second == [] {
      assert first + second == first;
    } else {
      assert (first + second)[..|first + second| - 1] == first + second[..|second| - 1];
      LastEffectConcat(first, second[..|second| - 1], row);
    }
  }

  /** What the mirror of `tree` holds at `row`: a file that is UTF-8 and no index, or an index that parses. */
  function Shown(tree: Tree, row: Row): Option<Value> {
    match row
    case FileRow(path) =>
      if path in tree && !IsOrderFile(path) && !tree[path].NotUtf8? then Some(Content(tree[path])) else None
    case OrderRow(directory) =>
      var index := OrderFilePath(directory);
      if index in tree && Parse(tree[index]).Some? then Some(Positions(Parse(tree[index]).value)) else None
  }

  function ShownRows(tree: Tree): set<Row> {
    (set path | path in tree && Shown(tree, FileRow(path)).Some? :: FileRow(path))
    + (set path | path in tree && IsOrderFile(path) && Shown(tree, OrderRow(Parent(path))).Some? :: OrderRow(Parent(path)))
  }

  function MirrorOf(tree: Tree): Table {
    map row | row in ShownRows(tree) && Shown(tree, row).Some? :: Shown(tree, row).value
  }

  lemma MirrorRow(tree: Tree, row: Row)
    ensures Get(MirrorOf(tree), row) == Shown(tree, row)
  {
    if row.OrderRow? {
      var index := OrderFilePath(row.directory);
      assert Parent(index) == row.directory;
    }
  }

  /** `events` say exactly what changed between the mirrors of `before` and `after`: a row they touch is
      left as `after` shows it, whatever it held, and a row they do not touch is shown alike by both. */
  ghost predicate Faithful(events: seq<Event>, before: Tree, after: Tree) {
    forall row :: RowFaithful(events, before, after, row)
  }

  predicate RowFaithful(events: seq<Event>, before: Tree, after: Tree, row: Row) {
    match LastEffect(events, row)
    case None => Shown(before, row) == Shown(after, row)
    case Some(value) => value == Shown(after, row)
  }

  /** Being faithful is exactly taking the mirror of `before` to the mirror of `after`. */
  lemma FaithfulIffMirrored(events: seq<Event>, before: Tree, after: Tree)
    ensures DeliverAll(MirrorOf(before), events) == MirrorOf(after) <==> Faithful(events, before, after)
  {
    var delivered := DeliverAll(MirrorOf(before), events);
    forall row
      ensures Get(delivered, row) == Get(MirrorOf(after), row) <==> RowFaithful(events, before, after, row)
    {
      DeliverAllRow(MirrorOf(before), events, row);
      MirrorRow(before, row);
      MirrorRow(after, row);
    }
    if Faithful(events, before, after) {
      forall row
        ensures row in delivered <==> row in MirrorOf(after)
        ensures row in delivered ==> delivered[row] == MirrorOf(after)[row]
      {
        assert RowFaithful(events, before, after, row);
        assert Get(delivered, row) == Get(MirrorOf(after), row);
      }
    }
  }
}

/** `HookJob::new`: a commit's raw changes, classified by path into file events and order events. */
module HookJobs {
  import opened Wrappers
  import opened Paths
  import opened Trees
  import opened Receiver

  predicate TouchesIndex(change: FileChange) {
    match change
    case Moved(_, toPath, _) => IsOrderFile(toPath)
    case _ => IsOrderFile(change.path)
  }

  function FileEvents(change: FileChange): seq<Event> {
    if TouchesIndex(change) then [] else [FileEvent(change)]
  }

  function OrderUpdatedEvents(path: Path, content: Blob): seq<Event>
    requires IsOrderFile(path)
  {
    match Parse(content)
    case Some(order) => [OrderUpdated(Parent(path), order)]
    case None => []
  }

  function OrderEvents(change: FileChange): seq<Event> {
    if !TouchesIndex(change) then []
    else
      match change
      case Created(path, content) => OrderUpdatedEvents(path, content)
      case Updated(path, content) => OrderUpdatedEvents(path, content)
      case Deleted(path) => [OrderDeleted(Parent(path))]
      case Moved(fromPath, toPath, content) =>
        (if IsOrderFile(fromPath) then [OrderDeleted(Parent(fromPath))] else [])
        + OrderUpdatedEvents(toPath, content)
  }

  function AllFileEvents(changes: seq<FileChange>): seq<Event> {
    if changes == [] then []
    else AllFileEvents(changes[..|changes| - 1]) + FileEvents(changes[|changes| - 1])
  }

  function AllOrderEvents(changes: seq<FileChange>): seq<Event> {
    if changes == [] then []
    else AllOrderEvents(changes[..|changes| - 1]) + OrderEvents(changes[|changes| - 1])
  }

  /** What a job delivers: every file event, then every order event. */
  function JobEvents(changes: seq<FileChange>): seq<Event> {
    AllFileEvents(changes) + AllOrderEvents(changes)
  }

  method NewHookJob(changes: seq<FileChange>) returns (fileChanges: seq<Event>, orderChanges: seq<Event>)
    ensures fileChanges + orderChanges == JobEvents(changes)
    ensures forall e | e in fileChanges :: e.FileEvent?
    ensures forall e | e in orderChanges :: !e.FileEvent?
  {
    fileChanges, orderChanges := [], [];
    for i := 0 to |changes|
      invariant fileChanges == AllFileEvents(changes[..i]) && orderChanges == AllOrderEvents(changes[..i])
      invariant forall e | e in fileChanges :: e.FileEvent?
      invariant forall e | e in orderChanges :: !e.FileEvent?
    {
      var change := changes[i];
      assert changes[..i + 1][..i] == changes[..i];
      if !TouchesIndex(change) {
        fileChanges := fileChanges + [FileEvent(change)];
        continue;
      }
      orderChanges := PushOrderChange(orderChanges, change);
    }
    assert changes[..|changes|] == changes;
  }

  method PushOrderChange(orderChanges: seq<Event>, change: FileChange) returns (pushed: seq<Event>)
    requires TouchesIndex(change)
    ensures pushed == orderChanges + OrderEvents(change)
  {
    match change {
      case Created(path, content) => pushed := PushOrderUpdated(orderChanges, path, content);
      case Updated(path, content) => pushed := PushOrderUpdated(orderChanges, path, content);
      case Deleted(path) => pushed := orderChanges + [OrderDeleted(Parent(path))];
      case Moved(fromPath, toPath, content) =>
        pushed := orderChanges;
        if IsOrderFile(fromPath) {
          pushed := pushed + [OrderDeleted(Parent(fromPath))];
        }
        pushed := PushOrderUpdated(pushed, toPath, content);
    }
  }

  method PushOrderUpdated(orderChanges: seq<Event>, path: Path, content: Blob) returns (pushed: seq<Event>)
    requires IsOrderFile(path)
    ensures pushed == orderChanges + OrderUpdatedEvents(path, content)
  {
    match Parse(content) {
      case Some(order) => pushed := orderChanges + [OrderUpdated(Parent(path), order)];
      case None => pushed := orderChanges;
    }
  }

  // A commit's changes against the tree they were made on

  function Changed(tree: Tree, change: FileChange): Tree {
    match change
    case Created(path, content) => tree[path := content]
    case Updated(path, content) => tree[path := content]
    case Deleted(path) => tree - {path}
    case Moved(fromPath, toPath, content) => (tree - {fromPath})[toPath := content]
  }

  function ChangedAll(tree: Tree, changes: seq<FileChange>): Tree {
    if changes == [] then tree
    else Changed(ChangedAll(tree, changes[..|changes| - 1]), changes[|changes| - 1])
  }

  function TouchedPaths(change: FileChange): set<Path> {
    match change
    case Moved(fromPath, toPath, _) => {fromPath, toPath}
    case _ => {change.path}
  }

  /** The change removes what the tree holds as a file, and content travels as text. It may overwrite:
      a revert reports `Created` for a path that has come back meanwhile. */
  predicate WellTargeted(change: FileChange, tree: Tree) {
    match change
    case Created(_, content) => !content.NotUtf8?
    case Updated(_, content) => !content.NotUtf8?
    case Deleted(path) => path in tree
    case Moved(fromPath, toPath, content) => fromPath != toPath && fromPath in tree && !content.NotUtf8?
  }

  predicate Disjoint(changes: seq<FileChange>) {
    forall i, j | 0 <= i < j < |changes| :: TouchedPaths(changes[i]) !! TouchedPaths(changes[j])
  }

  predicate WellFormed(changes: seq<FileChange>, tree: Tree) {
    Disjoint(changes) && forall c | c in changes :: WellTargeted(c, tree)
  }

  /** `content` written over `path` hides no index that parsed. */
  predicate KeepsIndex(path: Path, content: Blob, tree: Tree) {
    path in tree && IsOrderFile(path) && Parse(content).None? ==> Parse(tree[path]).None?
  }

  /** The two families of changes the job loses: an index that parsed overwritten by one that does not,
      and a rename between an index and an ordinary file (classified by its destination alone). */
  predicate Classified(change: FileChange, tree: Tree) {
    match change
    case Created(path, content) => KeepsIndex(path, content, tree)
    case Updated(path, content) => KeepsIndex(path, content, tree)
    case Deleted(_) => true
    case Moved(fromPath, toPath, content) =>
      && KeepsIndex(toPath, content, tree)
      && (IsOrderFile(fromPath) && !IsOrderFile(toPath) ==> Shown(tree, OrderRow(Parent(fromPath))).None?)
      && (!IsOrderFile(fromPath) && IsOrderFile(toPath) ==> Shown(tree, FileRow(fromPath)).None?)
  }

  function PathOf(row: Row): Path {
    match row
    case FileRow(path) => path
    case OrderRow(directory) => OrderFilePath(directory)
  }

  lemma OrderPathInverse(path: Path)
    requires IsOrderFile(path)
    ensures OrderFilePath(Parent(path)) == path
  {}

  /** What one change's events do to `row`, case by case. */
  function ChangeEffect(change: FileChange, row: Row): Option<Option<Value>> {
    if !TouchesIndex(change) then Effect(FileEvent(change), row)
    else
      match change
      case Deleted(path) => if row == OrderRow(Parent(path)) then Some(Option<Value>.None) else None
      case Moved(fromPath, toPath, content) =>
        if row == OrderRow(Parent(toPath)) && Parse(content).Some? then Some(Some(Positions(Parse(content).value)))
        else if IsOrderFile(fromPath) && row == OrderRow(Parent(fromPath)) then Some(Option<Value>.None) else None
      case _ =>
        if row == OrderRow(Parent(change.path)) && Parse(change.content).Some?
        then Some(Some(Positions(Parse(change.content).value))) else None
  }

  lemma {:induction false} LastEffectOne(e: Event, row: Row)
    ensures LastEffect([e], row) == Effect(e, row)
  {
    assert [e][..0] == [];
  }

  lemma {:induction false} LastEffectTwo(d: Event, e: Event, row: Row)
    ensures LastEffect([d, e], row) == if Effect(e, row).Some? then Effect(e, row) else Effect(d, row)
  {
    assert [d, e][..1] == [d];
    LastEffectOne(d, row);
  }

  /** Each change sends its events to one of the two lists only, and there they do `ChangeEffect`. */
  lemma ChangeEffectIsEvents(change: FileChange, row: Row)
    ensures LastEffect(FileEvents(change), row) == if TouchesIndex(change) then None else ChangeEffect(change, row)
    ensures LastEffect(OrderEvents(change), row) == if TouchesIndex(change) then ChangeEffect(change, row) else None
  {
    if TouchesIndex(change) {
      OrderEventsAreEffect(change, row);
    } else {
      LastEffectOne(FileEvent(change), row);
    }
  }

  lemma OrderEventsAreEffect(change: FileChange, row: Row)
    requires TouchesIndex(change)
    ensures LastEffect(OrderEvents(change), row) == ChangeEffect(change, row)
  {
    var orders := OrderEvents(change);
    if |orders| == 1 {
      assert orders == [orders[0]];
      LastEffectOne(orders[0], row);
    } else if |orders| == 2 {
      assert orders == [orders[0], orders[1]];
      LastEffectTwo(orders[0], orders[1], row);
    }
  }

  function ChangesEffect(changes: seq<FileChange>, row: Row): Option<Option<Value>> {
    if changes == [] then None
    else
      var last := ChangeEffect(changes[|changes| - 1], row);
      if last.Some? then last else ChangesEffect(changes[..|changes| - 1], row)
  }

  /** File rows are settled by the changes that touch no index, order rows by those that do. */
  predicate SettledBy(row: Row, change: FileChange) {
    row.OrderRow? == TouchesIndex(change)
  }

  lemma EffectOnlyIfSettledBy(change: FileChange, row: Row)
    ensures ChangeEffect(change, row).Some? ==> SettledBy(row, change)
  {}

  lemma {:induction false} FileEventsEffect(changes: seq<FileChange>, row: Row)
    ensures LastEffect(AllFileEvents(changes), row) == if row.FileRow? then ChangesEffect(changes, row) else None
  {
    if changes != [] {
      var front, last := changes[..|changes| - 1], changes[|changes| - 1];
      FileEventsEffect(front, row);
      LastEffectConcat(AllFileEvents(front), FileEvents(last), row);
      ChangeEffectIsEvents(last, row);
      EffectOnlyIfSettledBy(last, row);
    }
  }

  lemma {:induction false} OrderEventsEffect(changes: seq<FileChange>, row: Row)
    ensures LastEffect(AllOrderEvents(changes), row) == if row.OrderRow? then ChangesEffect(changes, row) else None
  {
    if changes != [] {
      var front, last := changes[..|changes| - 1], changes[|changes| - 1];
      OrderEventsEffect(front, row);
      LastEffectConcat(AllOrderEvents(front), OrderEvents(last), row);
      ChangeEffectIsEvents(last, row);
      EffectOnlyIfSettledBy(last, row);
    }
  }

  /** Delivering all file events before all order events does to each row what the changes do in
      their own order. */
  lemma SplitPreservesEffect(changes: seq<FileChange>, row: Row)
    ensures LastEffect(JobEvents(changes), row) == ChangesEffect(changes, row)
  {
    LastEffectConcat(AllFileEvents(changes), AllOrderEvents(changes), row);
    FileEventsEffect(changes, row);
    OrderEventsEffect(changes, row);
  }

  lemma UntouchedRow(change: FileChange, row: Row)
    requires PathOf(row) !in TouchedPaths(change)
    ensures ChangeEffect(change, row).None?
  {
    match change {
      case Moved(fromPath, toPath, _) =>
        if IsOrderFile(toPath) { OrderPathInverse(toPath); }
        if IsOrderFile(fromPath) { OrderPathInverse(fromPath); }
      case _ =>
        if IsOrderFile(change.path) { OrderPathInverse(change.path); }
    }
  }

  /** A row no change touches is neither delivered to nor changed. */
  lemma {:induction false} UntouchedByAll(changes: seq<FileChange>, tree: Tree, row: Row)
    requires forall c | c in changes :: PathOf(row) !in TouchedPaths(c)
    ensures ChangesEffect(changes, row).None?
    ensures At(ChangedAll(tree, changes), PathOf(row)) == At(tree, PathOf(row))
  {
    if changes != [] {
      UntouchedByAll(changes[..|changes| - 1], tree, row);
      UntouchedRow(changes[|changes| - 1], row);
    }
  }

  /** A row is decided by the one change that touches it. */
  lemma {:induction false} DecidedByToucher(changes: seq<FileChange>, tree: Tree, row: Row, i: nat)
    requires i < |changes| && Disjoint(changes) && PathOf(row) in TouchedPaths(changes[i])
    ensures ChangesEffect(changes, row) == ChangeEffect(changes[i], row)
    ensures At(ChangedAll(tree, changes), PathOf(row)) == At(Changed(tree, changes[i]), PathOf(row))
    decreases |changes|
  {
    var front, last := changes[..|changes| - 1], changes[|changes| - 1];
    if i == |changes| - 1 {
      forall c | c in front ensures PathOf(row) !in TouchedPaths(c) {
        var j :| 0 <= j < |front| && front[j] == c;
        assert TouchedPaths(changes[j]) !! TouchedPaths(changes[i]);
      }
      UntouchedByAll(front, tree, row);
      TouchedOnlyHere(tree, ChangedAll(tree, front), last, PathOf(row));
    } else {
      assert TouchedPaths(changes[i]) !! TouchedPaths(last);
      UntouchedRow(last, row);
      DecidedByToucher(front, tree, row, i);
    }
  }

  lemma TouchedOnlyHere(t: Tree, u: Tree, change: FileChange, path: Path)
    requires path in TouchedPaths(change)
    ensures At(Changed(t, change), path) == At(Changed(u, change), path)
  {}

  predicate ChangeShows(change: FileChange, tree: Tree, row: Row) {
    match ChangeEffect(change, row)
    case None => Shown(tree, row) == Shown(Changed(tree, change), row)
    case Some(value) => value == Shown(Changed(tree, change), row)
  }

  lemma RowsOfPath(row: Row, path: Path)
    requires PathOf(row) == path
    ensures row == FileRow(path) || (IsOrderFile(path) && row == OrderRow(Parent(path)))
  {
    if row.OrderRow? {
      assert Parent(path) == row.directory;
    }
  }

  lemma ClassifiedChangeShows(change: FileChange, tree: Tree, row: Row)
    requires WellTargeted(change, tree) && Classified(change, tree)
    requires PathOf(row) in TouchedPaths(change)
    ensures ChangeShows(change, tree, row)
  {
    RowsOfPath(row, PathOf(row));
    if change.Moved? {
      ClassifiedMoveShows(change, tree, row);
    }
  }

  lemma ClassifiedMoveShows(change: FileChange, tree: Tree, row: Row)
    requires change.Moved? && WellTargeted(change, tree) && Classified(change, tree)
    requires PathOf(row) in TouchedPaths(change)
    ensures ChangeShows(change, tree, row)
  {
    RowsOfPath(row, PathOf(row));
    if PathOf(row) == change.toPath {
      if row.OrderRow? { OrderPathInverse(change.toPath); }
    } else {
      if row.OrderRow? { OrderPathInverse(change.fromPath); }
      assert Shown(Changed(tree, change), row).None?;
    }
  }

  /** One well-targeted change is shown on every row it touches exactly when it is classified right. */
  lemma ChangeShownIffClassified(change: FileChange, tree: Tree)
    requires WellTargeted(change, tree)
    ensures (forall row | PathOf(row) in TouchedPaths(change) :: ChangeShows(change, tree, row))
       <==> Classified(change, tree)
  {
    if Classified(change, tree) {
      forall row | PathOf(row) in TouchedPaths(change) ensures ChangeShows(change, tree, row) {
        ClassifiedChangeShows(change, tree, row);
      }
    } else {
      var path := if !change.Moved? then change.path
                  else if !KeepsIndex(change.toPath, change.content, tree) then change.toPath else change.fromPath;
      var row := if IsOrderFile(path) then OrderRow(Parent(path)) else FileRow(path);
      if IsOrderFile(path) { OrderPathInverse(path); }
      assert PathOf(row) in TouchedPaths(change);
      assert !ChangeShows(change, tree, row);
    }
  }

  /** The mirror law of one commit, with its exact condition: for well-formed changes, delivering the job
      takes the mirror of the old tree to the mirror of the new one iff every change is classified right. */
  lemma JobMirrorsIffClassified(changes: seq<FileChange>, tree: Tree)
    requires WellFormed(changes, tree)
    ensures Faithful(JobEvents(changes), tree, ChangedAll(tree, changes))
       <==> forall c | c in changes :: Classified(c, tree)
    ensures DeliverAll(MirrorOf(tree), JobEvents(changes)) == MirrorOf(ChangedAll(tree, changes))
       <==> forall c | c in changes :: Classified(c, tree)
  {
    var after := ChangedAll(tree, changes);
    FaithfulIffMirrored(JobEvents(changes), tree, after);
    if forall c | c in changes :: Classified(c, tree) {
      forall row ensures RowFaithful(JobEvents(changes), tree, after, row) {
        SplitPreservesEffect(changes, row);
        if i :| 0 <= i < |changes| && PathOf(row) in TouchedPaths(changes[i]) {
          DecidedByToucher(changes, tree, row, i);
          ClassifiedChangeShows(changes[i], tree, row);
          ShownByPath(after, Changed(tree, changes[i]), row);
        } else {
          UntouchedByAll(changes, tree, row);
          ShownByPath(after, tree, row);
        }
      }
    }
    if Faithful(JobEvents(changes), tree, after) {
      forall c | c in changes ensures Classified(c, tree) {
        var i :| 0 <= i < |changes| && changes[i] == c;
        forall row | PathOf(row) in TouchedPaths(c) ensures ChangeShows(c, tree, row) {
          SplitPreservesEffect(changes, row);
          DecidedByToucher(changes, tree, row, i);
          ShownByPath(after, Changed(tree, c), row);
          assert RowFaithful(JobEvents(changes), tree, after, row);
        }
        ChangeShownIffClassified(c, tree);
      }
    }
  }

  lemma ShownByPath(t: Tree, u: Tree, row: Row)
    requires At(t, PathOf(row)) == At(u, PathOf(row))
    ensures Shown(t, row) == Shown(u, row)
  {}
}
