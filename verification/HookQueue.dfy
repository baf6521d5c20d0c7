/** One repository's hook queue: commits and replays enqueued in order, one consumer delivering them. */
module HookQueues {
  import opened Wrappers
  import opened Paths
  import opened Trees
  import opened Receiver
  import opened Sorting
  import opened Traverse

  datatype Direction = DeleteDirection | CreateDirection

  /** A job still to be delivered. A replay carries paths; `ready` holds the events of the chunk whose
      content was read last. */
  datatype Job =
    | CommitJob(events: seq<Event>)
    | ReplayJob(direction: Direction, ready: seq<Event>, paths: seq<Path>, directories: seq<Path>)

  const REPLAY_READ_CHUNK: nat := 64

  /** The registry of queues, one per repository. */
  class HookQueue {
    var receiverConfigured: bool
    var queues: map<string, seq<Job>>

    constructor (receiverConfigured: bool)
      ensures this.receiverConfigured == receiverConfigured && queues == map[]
    {
      this.receiverConfigured := receiverConfigured;
      queues := map[];
    }

    function Waiting(key: string): seq<Job>
      reads this
    {
      if key in queues then queues[key] else []
    }

    /** Appends to the repository's own queue, creating it on first use; without a receiver, does nothing. */
    method Enqueue(key: string, job: Job)
      modifies this`queues
      ensures Waiting(key) == old(Waiting(key)) + if receiverConfigured then [job] else []
      ensures forall other | other != key :: Waiting(other) == old(Waiting(other))
    {
      if !receiverConfigured {
        return;
      }
      var waiting := Waiting(key);
      queues := queues[key := waiting + [job]];
    }
  }

  // The replay route

  /** Below the scoped folder, hidden components pruned unless asked for. */
  predicate InScope(path: Path, prefix: Path, includeHidden: bool) {
    && (prefix == [] || Under(path, prefix))
    && (includeHidden || forall i | |prefix| <= i < |path| :: IsVisible(path[i]))
  }

  /** The scope's own folders may be hidden; only what is below them is looked at. */
  lemma InScopeIff(prefix: Path, rest: Path, includeHidden: bool)
    ensures InScope(prefix + rest, prefix, includeHidden) <==>
      && (rest != [] || prefix == [])
      && (includeHidden || forall name | name in rest :: name == [] || name[0] != '.')
  {
    var path := prefix + rest;
    assert path[..|prefix|] == prefix;
    assert forall i | 0 <= i < |rest| :: path[|prefix| + i] == rest[i];
    if forall i | |prefix| <= i < |path| :: IsVisible(path[i]) {
      forall name | name in rest
        ensures name == [] || name[0] != '.'
      {
        var i :| 0 <= i < |rest| && rest[i] == name;
        assert IsVisible(path[|prefix| + i]);
      }
    } else {
      var i :| |prefix| <= i < |path| && !IsVisible(path[i]);
      assert path[i] == rest[i - |prefix|] && rest[i - |prefix|] in rest;
    }
  }

  /** The paths HEAD holds in scope: every blob but the order indexes. */
  ghost predicate PresentPaths(present: seq<Path>, head: Tree, prefix: Path, includeHidden: bool) {
    && Distinct(present)
    && forall p :: p in present <==>
         p in head && !IsOrderFile(p) && InScope(p, prefix, includeHidden)
  }

  ghost predicate OrderDirectories(directories: seq<Path>, head: Tree, prefix: Path, includeHidden: bool) {
    && Distinct(directories)
    && forall d :: d in directories <==> OrderFilePath(d) in head && (d == prefix || InScope(d, prefix, includeHidden))
  }

  predicate SaneFiles(files: seq<Path>, prefix: Path) {
    && files != []
    && (forall p | p in files :: p != [] && !IsOrderFile(p) && (prefix != [] ==> Under(p, prefix)))
    && (forall i, j | 0 <= i < j < |files| :: files[i] != files[j])
  }

  /** `sanitize_files`, entry by entry. */
  method SanitizeFiles(files: seq<Path>, prefix: Path) returns (sane: bool)
    ensures sane <==> SaneFiles(files, prefix)
  {
    if files == [] {
      return false;
    }
    var seen: set<Path> := {};
    for i := 0 to |files|
      invariant forall p :: p in seen <==> p in files[..i]
      invariant forall p | p in files[..i] :: p != [] && !IsOrderFile(p) && (prefix != [] ==> Under(p, prefix))
      invariant forall k, l | 0 <= k < l < i :: files[k] != files[l]
    {
      if files[i] == [] || IsOrderFile(files[i]) || (prefix != [] && !Under(files[i], prefix)) {
        assert files[i] in files;
        return false;
      }
      if files[i] in seen {
        var k :| 0 <= k < i && files[k] == files[i];
        return false;
      }
      assert forall k | 0 <= k < i :: files[k] in files[..i];
      seen := seen + {files[i]};
    }
    return true;
  }

  function Affected(direction: Direction, candidates: seq<Path>, present: seq<Path>): seq<Path> {
    Filter(candidates, p => (p in present) == direction.CreateDirection?)
  }

  function Requested(direction: Direction, files: Option<seq<Path>>, present: seq<Path>, directories: seq<Path>): Job {
    var candidates := if files.Some? then files.value else present;
    ReplayJob(direction, [], SortBy(Affected(direction, candidates, present), FileBefore), SortBy(directories, DirectoryBefore))
  }

  // Resolving a chunk against HEAD as it is when the chunk is reached

  function ResolveFile(direction: Direction, head: Tree, path: Path): seq<Event> {
    if direction.DeleteDirection? then [FileEvent(Deleted(path))]
    else if Shown(head, FileRow(path)).Some? then [FileEvent(Created(path, head[path]))]
    else []
  }

  function ResolveFiles(direction: Direction, head: Tree, paths: seq<Path>): seq<Event> {
    if paths == [] then []
    else ResolveFiles(direction, head, paths[..|paths| - 1]) + ResolveFile(direction, head, paths[|paths| - 1])
  }

  function ResolveOrder(head: Tree, directory: Path): seq<Event> {
    match Shown(head, OrderRow(directory))
    case Some(Positions(order)) => [OrderUpdated(directory, order)]
    case _ => []
  }

  function ResolveOrders(head: Tree, directories: seq<Path>): seq<Event> {
    if directories == [] then []
    else ResolveOrders(head, directories[..|directories| - 1]) + ResolveOrder(head, directories[|directories| - 1])
  }

  function ChunkOf(paths: seq<Path>): nat {
    if |paths| < REPLAY_READ_CHUNK then |paths| else REPLAY_READ_CHUNK
  }

  // The queue as a state machine

  datatype State = State(head: Tree, queue: seq<Job>, table: Table)

  datatype Action =
    | CommitLands(tree: Tree, events: seq<Event>)
    | RequestReplay(direction: Direction, files: Option<seq<Path>>, prefix: Path, includeHidden: bool,
                    present: seq<Path>, directories: seq<Path>)
    | DeliverNext
    | ResolveChunk
    | FinishJob
    | LoseNext
    | AbortJob
    | Crash
    | Drift(table: Table)

  /** Steps under which the receiver is told everything it should be. `LoseNext` is a delivery given up
      after its last attempt, or an event kind not subscribed to. */
  predicate Reliable(action: Action) {
    !action.LoseNext? && !action.AbortJob? && !action.Crash? && !action.Drift?
  }

  function NextEvent(job: Job): Option<Event> {
    match job
    case CommitJob(events) => if events != [] then Some(events[0]) else None
    case ReplayJob(_, ready, _, _) => if ready != [] then Some(ready[0]) else None
  }

  function PastEvent(job: Job): Job
    requires NextEvent(job).Some?
  {
    match job
    case CommitJob(events) => CommitJob(events[1..])
    case ReplayJob(direction, ready, paths, directories) => ReplayJob(direction, ready[1..], paths, directories)
  }

  predicate Resolvable(job: Job) {
    job.ReplayJob? && job.ready == [] && (job.paths != [] || job.directories != [])
  }

  function Resolved(job: Job, head: Tree): Job
    requires Resolvable(job)
  {
    if job.paths != [] then
      var n := ChunkOf(job.paths);
      job.(ready := ResolveFiles(job.direction, head, job.paths[..n]), paths := job.paths[n..])
    else
      var n := ChunkOf(job.directories);
      job.(ready := ResolveOrders(head, job.directories[..n]), directories := job.directories[n..])
  }

  ghost predicate Next(s: State, action: Action, t: State) {
    match action
    case CommitLands(tree, events) =>
      Faithful(events, s.head, tree) && t == State(tree, s.queue + [CommitJob(events)], s.table)
    case RequestReplay(direction, files, prefix, includeHidden, present, directories) =>
      var all := files.Some? || includeHidden;
      && (files.Some? ==> SaneFiles(files.value, prefix))
      && PresentPaths(present, s.head, prefix, all) && OrderDirectories(directories, s.head, prefix, all)
      && var job := Requested(direction, files, present, directories);
         t == if job.paths == [] && job.directories == [] then s else s.(queue := s.queue + [job])
    case DeliverNext =>
      && s.queue != [] && NextEvent(s.queue[0]).Some?
      && t == State(s.head, [PastEvent(s.queue[0])] + s.queue[1..], Deliver(s.table, NextEvent(s.queue[0]).value))
    case ResolveChunk =>
      && s.queue != [] && Resolvable(s.queue[0])
      && t == s.(queue := [Resolved(s.queue[0], s.head)] + s.queue[1..])
    case FinishJob =>
      && s.queue != [] && NextEvent(s.queue[0]).None? && !Resolvable(s.queue[0])
      && t == s.(queue := s.queue[1..])
    case LoseNext =>
      && s.queue != [] && NextEvent(s.queue[0]).Some?
      && t == s.(queue := [PastEvent(s.queue[0])] + s.queue[1..])
    case AbortJob => s.queue != [] && t == s.(queue := s.queue[1..])
    case Crash => t == s.(queue := [])
    case Drift(table) => t == s.(table := table)
  }

  // What the queue will do to one row

  function UnreadEffect(job: Job, head: Tree, row: Row): Option<Option<Value>>
    requires job.ReplayJob?
  {
    match row
    case FileRow(path) =>
      if path !in job.paths then None
      else if job.direction.DeleteDirection? then Some(Option<Value>.None)
      else if Shown(head, row).Some? then Some(Shown(head, row)) else None
    case OrderRow(directory) =>
      if directory in job.directories && Shown(head, row).Some? then Some(Shown(head, row)) else None
  }

  function JobEffect(job: Job, head: Tree, row: Row): Option<Option<Value>> {
    match job
    case CommitJob(events) => LastEffect(events, row)
    case ReplayJob(_, ready, _, _) =>
      var unread := UnreadEffect(job, head, row);
      if unread.Some? then unread else LastEffect(ready, row)
  }

  function QueueEffect(queue: seq<Job>, head: Tree, row: Row): Option<Option<Value>> {
    if queue == [] then None
    else
      var later := QueueEffect(queue[1..], head, row);
      if later.Some? then later else JobEffect(queue[0], head, row)
  }

  /** Where the row ends up if nothing but delivery happens from here. */
  function Destined(s: State, row: Row): Option<Value> {
    var effect := QueueEffect(s.queue, s.head, row);
    if effect.Some? then effect.value else Get(s.table, row)
  }

  predicate Settled(s: State, row: Row) {
    Destined(s, row) == Shown(s.head, row)
  }

  /** The queue leaves the row alone or sets it right; it never sets it wrong. */
  predicate Honest(s: State, row: Row) {
    var effect := QueueEffect(s.queue, s.head, row);
    effect.Some? ==> effect.value == Shown(s.head, row)
  }

  lemma {:induction false} QueueEffectAppend(queue: seq<Job>, job: Job, head: Tree, row: Row)
    ensures QueueEffect(queue + [job], head, row)
         == if JobEffect(job, head, row).Some? then JobEffect(job, head, row) else QueueEffect(queue, head, row)
  {
    if queue == [] {
      assert queue + [job] == [job] && [job][1..] == [];
    } else {
      assert (queue + [job])[1..] == queue[1..] + [job];
      QueueEffectAppend(queue[1..], job, head, row);
    }
  }

  lemma {:induction false} QueueEffectSameShown(queue: seq<Job>, head: Tree, later: Tree, row: Row)
    requires Shown(head, row) == Shown(later, row)
    ensures QueueEffect(queue, head, row) == QueueEffect(queue, later, row)
  {
    if queue != [] { QueueEffectSameShown(queue[1..], head, later, row); }
  }

  lemma QueueEffectFront(job: Job, rest: seq<Job>, head: Tree, row: Row)
    ensures QueueEffect([job] + rest, head, row)
         == if QueueEffect(rest, head, row).Some? then QueueEffect(rest, head, row) else JobEffect(job, head, row)
  {
    assert ([job] + rest)[1..] == rest;
  }

  lemma FirstEventEffect(job: Job, head: Tree, row: Row)
    requires NextEvent(job).Some?
    ensures JobEffect(job, head, row)
         == if JobEffect(PastEvent(job), head, row).Some? then JobEffect(PastEvent(job), head, row)
            else Effect(NextEvent(job).value, row)
  {
    var events := if job.CommitJob? then job.events else job.ready;
    assert events == [events[0]] + events[1..];
    LastEffectConcat([events[0]], events[1..], row);
    assert [events[0]][..0] == [];
    assert LastEffect([events[0]], row) == Effect(events[0], row);
  }

  lemma SingleEffect(events: seq<Event>, row: Row)
    requires |events| <= 1
    ensures LastEffect(events, row) == if events == [] then None else Effect(events[0], row)
  {
    if events != [] {
      assert events[..0] == [];
    }
  }

  lemma ResolvedFileEffect(direction: Direction, head: Tree, path: Path, row: Row)
    ensures LastEffect(ResolveFile(direction, head, path), row)
         == UnreadEffect(ReplayJob(direction, [], [path], []), head, row)
  {
    SingleEffect(ResolveFile(direction, head, path), row);
  }

  lemma {:induction false} ResolvedFilesEffect(direction: Direction, head: Tree, paths: seq<Path>, row: Row)
    ensures LastEffect(ResolveFiles(direction, head, paths), row)
         == UnreadEffect(ReplayJob(direction, [], paths, []), head, row)
  {
    if paths != [] {
      var front, last := paths[..|paths| - 1], paths[|paths| - 1];
      ResolvedFilesEffect(direction, head, front, row);
      LastEffectConcat(ResolveFiles(direction, head, front), ResolveFile(direction, head, last), row);
      ResolvedFileEffect(direction, head, last, row);
      UnreadJoin(direction, head, front, [last], row);
      assert paths == front + [last];
    }
  }

  lemma UnreadJoin(direction: Direction, head: Tree, front: seq<Path>, back: seq<Path>, row: Row)
    ensures UnreadEffect(ReplayJob(direction, [], front + back, []), head, row)
         == var later := UnreadEffect(ReplayJob(direction, [], back, []), head, row);
            if later.Some? then later else UnreadEffect(ReplayJob(direction, [], front, []), head, row)
  {
    if row.FileRow? {
      assert row.path in front + back <==> row.path in front || row.path in back;
    }
  }

  lemma {:induction false} ResolvedOrdersEffect(head: Tree, directories: seq<Path>, row: Row)
    ensures LastEffect(ResolveOrders(head, directories), row)
         == UnreadEffect(ReplayJob(CreateDirection, [], [], directories), head, row)
  {
    if directories != [] {
      var front, last := directories[..|directories| - 1], directories[|directories| - 1];
      ResolvedOrdersEffect(head, front, row);
      LastEffectConcat(ResolveOrders(head, front), ResolveOrder(head, last), row);
      ResolvedOrderEffect(head, last, row);
      UnreadOrdersJoin(CreateDirection, head, front, [last], row);
      assert directories == front + [last];
    }
  }

  lemma ResolvedOrderEffect(head: Tree, directory: Path, row: Row)
    ensures LastEffect(ResolveOrder(head, directory), row)
         == UnreadEffect(ReplayJob(CreateDirection, [], [], [directory]), head, row)
  {
    SingleEffect(ResolveOrder(head, directory), row);
  }

  lemma UnreadOrdersJoin(direction: Direction, head: Tree, front: seq<Path>, back: seq<Path>, row: Row)
    ensures UnreadEffect(ReplayJob(direction, [], [], front + back), head, row)
         == var later := UnreadEffect(ReplayJob(direction, [], [], back), head, row);
            if later.Some? then later else UnreadEffect(ReplayJob(direction, [], [], front), head, row)
  {
    if row.OrderRow? {
      assert row.directory in front + back <==> row.directory in front || row.directory in back;
    }
  }

  /** File and order rows are read off a job's own two lists. */
  lemma UnreadParts(job: Job, head: Tree, row: Row)
    requires job.ReplayJob?
    ensures UnreadEffect(job, head, row)
         == if row.FileRow? then UnreadEffect(ReplayJob(job.direction, [], job.paths, []), head, row)
            else UnreadEffect(ReplayJob(CreateDirection, [], [], job.directories), head, row)
  {
  }

  lemma ResolvedEffect(job: Job, head: Tree, row: Row)
    requires Resolvable(job)
    ensures JobEffect(Resolved(job, head), head, row) == JobEffect(job, head, row)
  {
    UnreadParts(job, head, row);
    UnreadParts(Resolved(job, head), head, row);
    assert LastEffect([], row) == None;
    if job.paths != [] {
      var n := ChunkOf(job.paths);
      ResolvedFilesEffect(job.direction, head, job.paths[..n], row);
      UnreadJoin(job.direction, head, job.paths[..n], job.paths[n..], row);
      assert job.paths == job.paths[..n] + job.paths[n..];
    } else {
      var n := ChunkOf(job.directories);
      ResolvedOrdersEffect(head, job.directories[..n], row);
      UnreadOrdersJoin(CreateDirection, head, job.directories[..n], job.directories[n..], row);
      assert job.directories == job.directories[..n] + job.directories[n..];
    }
  }

  /** A replay is worked off front to back: files while there are any, then orders, a full chunk at a time but for the
      last of each. */
  lemma ResolvedInTurn(job: Job, head: Tree)
    requires Resolvable(job)
    ensures var next := Resolved(job, head);
      && next.direction == job.direction
      && (job.paths != [] ==>
            && next.directories == job.directories && next.paths == job.paths[|job.paths| - |next.paths|..]
            && |next.paths| == if |job.paths| > REPLAY_READ_CHUNK then |job.paths| - REPLAY_READ_CHUNK else 0)
      && (job.paths == [] ==>
            && next.paths == [] && next.directories == job.directories[|job.directories| - |next.directories|..]
            && |next.directories| == if |job.directories| > REPLAY_READ_CHUNK then |job.directories| - REPLAY_READ_CHUNK else 0)
      && forall e | e in next.ready :: e.FileEvent? <==> job.paths != []
  {
    if job.paths != [] {
      FilesResolveToFiles(job.direction, head, job.paths[..ChunkOf(job.paths)]);
    } else {
      OrdersResolveToOrders(head, job.directories[..ChunkOf(job.directories)]);
    }
  }

  lemma {:induction false} FilesResolveToFiles(direction: Direction, head: Tree, paths: seq<Path>)
    ensures forall e | e in ResolveFiles(direction, head, paths) :: e.FileEvent?
  {
    if paths != [] { FilesResolveToFiles(direction, head, paths[..|paths| - 1]); }
  }

  lemma {:induction false} OrdersResolveToOrders(head: Tree, directories: seq<Path>)
    ensures forall e | e in ResolveOrders(head, directories) :: !e.FileEvent?
  {
    if directories != [] { OrdersResolveToOrders(head, directories[..|directories| - 1]); }
  }

  // Every step

  /** Delivery moves a row along its path and nothing else: what it is destined to is kept, and what
      the queue still does to it is what it did before or nothing. */
  lemma DeliveryKeeps(s: State, action: Action, t: State, row: Row)
    requires Next(s, action, t) && (action.DeliverNext? || action.ResolveChunk? || action.FinishJob?)
    ensures Destined(t, row) == Destined(s, row)
    ensures QueueEffect(t.queue, t.head, row).Some? ==>
      QueueEffect(t.queue, t.head, row) == QueueEffect(s.queue, s.head, row)
  {
    var job, rest := s.queue[0], s.queue[1..];
    assert s.queue == [job] + rest;
    QueueEffectFront(job, rest, s.head, row);
    match action {
      case DeliverNext =>
        FirstEventEffect(job, s.head, row);
        QueueEffectFront(PastEvent(job), rest, s.head, row);
        DeliverRow(s.table, NextEvent(job).value, row);
      case ResolveChunk =>
        ResolvedEffect(job, s.head, row);
        QueueEffectFront(Resolved(job, s.head), rest, s.head, row);
      case FinishJob =>
        assert JobEffect(job, s.head, row).None?;
    }
  }

  lemma DeliverRow(table: Table, event: Event, row: Row)
    ensures Get(Deliver(table, event), row) == if Effect(event, row).Some? then Effect(event, row).value else Get(table, row)
  {}

  lemma LossKeepsHonest(s: State, action: Action, t: State, row: Row)
    requires Next(s, action, t) && !Reliable(action) && Honest(s, row)
    ensures Honest(t, row)
  {
    if action.LoseNext? || action.AbortJob? {
      var job, rest := s.queue[0], s.queue[1..];
      assert s.queue == [job] + rest;
      QueueEffectFront(job, rest, s.head, row);
      if action.LoseNext? {
        FirstEventEffect(job, s.head, row);
        QueueEffectFront(PastEvent(job), rest, s.head, row);
      }
    }
  }

  lemma CommitKeeps(s: State, action: Action, t: State, row: Row)
    requires Next(s, action, t) && action.CommitLands? && Honest(s, row)
    ensures Honest(t, row)
    ensures Settled(s, row) ==> Settled(t, row)
    ensures !Settled(t, row) ==> Shown(t.head, row) == Shown(s.head, row)
  {
    assert RowFaithful(action.events, s.head, t.head, row);
    QueueEffectAppend(s.queue, CommitJob(action.events), t.head, row);
    if LastEffect(action.events, row).None? {
      QueueEffectSameShown(s.queue, s.head, t.head, row);
    }
  }

  predicate RestatesEverything(action: Action) {
    action.RequestReplay? && action.direction.CreateDirection? && action.files.None? && action.prefix == [] && action.includeHidden
  }

  /** A `delete` replay names the row, and HEAD has no such file. */
  predicate Erases(action: Action, head: Tree, row: Row) {
    && action.RequestReplay? && action.direction.DeleteDirection? && action.files.Some?
    && row.FileRow? && row.path in action.files.value && row.path !in head
  }

  /** A `create` replay names the file, and HEAD shows it. */
  predicate Restates(action: Action, head: Tree, row: Row) {
    && action.RequestReplay? && action.direction.CreateDirection? && action.files.Some?
    && row.FileRow? && row.path in action.files.value && Shown(head, row).Some?
  }

  /** The files a replay is for: of those named, the ones HEAD lacks to erase or holds to restate; with none named, all
      that HEAD holds in scope to restate, and none to erase. */
  predicate Covers(action: Action, head: Tree, path: Path)
    requires action.RequestReplay?
  {
    match (action.files, action.direction)
    case (Some(files), DeleteDirection) => path in files && path !in head
    case (Some(files), CreateDirection) => path in files && path in head
    case (None, DeleteDirection) => false
    case (None, CreateDirection) => path in head && !IsOrderFile(path) && InScope(path, action.prefix, action.includeHidden)
  }

  /** The folders whose orders it restates, whatever files were named. */
  predicate CoversOrder(action: Action, head: Tree, directory: Path)
    requires action.RequestReplay?
  {
    && OrderFilePath(directory) in head
    && (directory == action.prefix || InScope(directory, action.prefix, action.files.Some? || action.includeHidden))
  }

  /** What a request queues: one job at the tail with exactly the files and folders it covers, each once and in delivery
      order, or nothing at all when it covers nothing. */
  lemma RequestQueues(s: State, action: Action, t: State)
    requires Next(s, action, t) && action.RequestReplay?
    ensures t.head == s.head && t.table == s.table
    ensures t == s <==> (forall p :: !Covers(action, s.head, p)) && forall d :: !CoversOrder(action, s.head, d)
    ensures t != s ==>
      && |t.queue| == |s.queue| + 1 && t.queue[..|s.queue|] == s.queue
      && var job := t.queue[|s.queue|];
         && job.ReplayJob? && job.direction == action.direction && job.ready == []
         && (forall p :: p in job.paths <==> Covers(action, s.head, p))
         && (forall d :: d in job.directories <==> CoversOrder(action, s.head, d))
         && Distinct(job.paths) && Distinct(job.directories)
         && Sorted(job.paths, FileBefore) && Sorted(job.directories, DirectoryBefore)
  {
    var job := Requested(action.direction, action.files, action.present, action.directories);
    RequestedCovers(s, action, t);
    RequestedSorted(action.direction, action.files, action.present, action.directories);
    if job.paths != [] { assert job.paths[0] in job.paths; }
    if job.directories != [] { assert job.directories[0] in job.directories; }
  }

  lemma RequestedCovers(s: State, action: Action, t: State)
    requires Next(s, action, t) && action.RequestReplay?
    ensures var job := Requested(action.direction, action.files, action.present, action.directories);
      && (forall p :: p in job.paths <==> Covers(action, s.head, p))
      && (forall d :: d in job.directories <==> CoversOrder(action, s.head, d))
  {
    var candidates := if action.files.Some? then action.files.value else action.present;
    RequestedMembers(action.direction, candidates, action.present, action.directories);
  }

  lemma RequestedSorted(direction: Direction, files: Option<seq<Path>>, present: seq<Path>, directories: seq<Path>)
    requires (files.Some? ==> Distinct(files.value)) && Distinct(present) && Distinct(directories)
    ensures var job := Requested(direction, files, present, directories);
      && Distinct(job.paths) && Distinct(job.directories)
      && Sorted(job.paths, FileBefore) && Sorted(job.directories, DirectoryBefore)
  {
    var candidates := if files.Some? then files.value else present;
    DeliveryOrders();
    FilterDistinct(candidates, p => (p in present) == direction.CreateDirection?);
    SortedOnce(Affected(direction, candidates, present), FileBefore);
    SortedOnce(directories, DirectoryBefore);
  }

  lemma SortedOnce(paths: seq<Path>, less: (Path, Path) -> bool)
    requires WeakOrder(less) && Distinct(paths)
    ensures Distinct(SortBy(paths, less)) && Sorted(SortBy(paths, less), less)
  {
    SortBySorts(paths, less);
    SameElements(paths, SortBy(paths, less));
  }

  /** And what it does to each row: a covered file is erased, or stated as HEAD shows it; a covered order is stated; every
      other row is left to what was queued before. */
  lemma RequestEffect(s: State, action: Action, t: State, row: Row)
    requires Next(s, action, t) && action.RequestReplay?
    ensures var covered := match row
                           case FileRow(path) => Covers(action, s.head, path)
                           case OrderRow(directory) => CoversOrder(action, s.head, directory);
      QueueEffect(t.queue, s.head, row)
      == if covered && row.FileRow? && action.direction.DeleteDirection? then Some(Option<Value>.None)
         else if covered && Shown(s.head, row).Some? then Some(Shown(s.head, row))
         else QueueEffect(s.queue, s.head, row)
  {
    var job := Requested(action.direction, action.files, action.present, action.directories);
    RequestedCovers(s, action, t);
    if job.paths != [] || job.directories != [] {
      QueueEffectAppend(s.queue, job, s.head, row);
    }
  }

  /** What a replay request covers: the named paths HEAD lacks, the named paths HEAD shows, or all that HEAD shows. */
  lemma RequestKeeps(s: State, action: Action, t: State, row: Row)
    requires Next(s, action, t) && action.RequestReplay? && Honest(s, row)
    ensures Honest(t, row) && t.head == s.head
    ensures Settled(s, row) ==> Settled(t, row)
    ensures Erases(action, s.head, row) ==> Settled(t, row)
    ensures Restates(action, s.head, row) ==> Settled(t, row)
    ensures RestatesEverything(action) && Shown(s.head, row).Some? ==> Settled(t, row)
    ensures action.files.Some? && row.FileRow? && row.path !in action.files.value ==>
      QueueEffect(t.queue, t.head, row) == QueueEffect(s.queue, s.head, row)
  {
    var job := Requested(action.direction, action.files, action.present, action.directories);
    var candidates := if action.files.Some? then action.files.value else action.present;
    RequestedMembers(action.direction, candidates, action.present, action.directories);
    if job.paths != [] || job.directories != [] {
      QueueEffectAppend(s.queue, job, s.head, row);
    }
    if row.FileRow? && job.direction.DeleteDirection? && row.path in job.paths {
      assert action.files.Some? && row.path in action.files.value && row.path !in s.head;
    }
  }

  lemma RequestedMembers(direction: Direction, candidates: seq<Path>, present: seq<Path>, directories: seq<Path>)
    ensures var job := ReplayJob(direction, [], SortBy(Affected(direction, candidates, present), FileBefore), SortBy(directories, DirectoryBefore));
      && (forall p :: p in job.paths <==> p in candidates && (p in present) == direction.CreateDirection?)
      && (forall d :: d in job.directories <==> d in directories)
  {
    var keep := (p: Path) => (p in present) == direction.CreateDirection?;
    DeliveryOrders();
    FilterMembers(candidates, keep);
    SortBySorts(Affected(direction, candidates, present), FileBefore);
    SortBySorts(directories, DirectoryBefore);
    SameElements(Affected(direction, candidates, present), SortBy(Affected(direction, candidates, present), FileBefore));
    SameElements(directories, SortBy(directories, DirectoryBefore));
  }

  /** Why only files are promised: a folder's order row is erased by the commit that deletes its index and by
      nothing else. No replay, in either direction, reaches a row whose index HEAD does not hold. */
  lemma NoReplayErasesOrders(s: State, action: Action, t: State, directory: Path)
    requires Next(s, action, t) && action.RequestReplay? && Shown(s.head, OrderRow(directory)).None?
    ensures Destined(t, OrderRow(directory)) == Destined(s, OrderRow(directory))
  {
    var job := Requested(action.direction, action.files, action.present, action.directories);
    if job.paths != [] || job.directories != [] {
      QueueEffectAppend(s.queue, job, s.head, OrderRow(directory));
    }
  }

  // Runs

  ghost predicate IsTrace(states: seq<State>, actions: seq<Action>) {
    |states| == |actions| + 1 && forall i | 0 <= i < |actions| :: Next(states[i], actions[i], states[i + 1])
  }

  lemma StepKeepsHonest(s: State, action: Action, t: State, row: Row)
    requires Next(s, action, t) && Honest(s, row)
    ensures Honest(t, row)
    ensures Reliable(action) && Settled(s, row) ==> Settled(t, row)
    ensures Reliable(action) && !Settled(t, row) ==> Shown(t.head, row) == Shown(s.head, row)
  {
    if !Reliable(action) {
      LossKeepsHonest(s, action, t, row);
    } else if action.CommitLands? {
      CommitKeeps(s, action, t, row);
    } else if action.RequestReplay? {
      RequestKeeps(s, action, t, row);
    } else {
      DeliveryKeeps(s, action, t, row);
    }
  }

  /** Whatever was lost, the queue of a run that started empty never sets a row wrong. */
  lemma {:induction false} RunsAreHonest(states: seq<State>, actions: seq<Action>, i: nat, row: Row)
    requires IsTrace(states, actions) && states[0].queue == [] && i < |states|
    ensures Honest(states[i], row)
  {
    if i > 0 {
      RunsAreHonest(states, actions, i - 1, row);
      StepKeepsHonest(states[i - 1], actions[i - 1], states[i], row);
    }
  }

  /** While nothing is lost, a row not settled at the end was not settled before, and HEAD showed it alike. */
  lemma {:induction false} UnsettledSince(states: seq<State>, actions: seq<Action>, i: nat, n: nat, row: Row)
    requires IsTrace(states, actions) && states[0].queue == [] && i <= n < |states|
    requires forall k | i <= k < n :: Reliable(actions[k])
    requires !Settled(states[n], row)
    ensures !Settled(states[i], row) && Shown(states[i].head, row) == Shown(states[n].head, row)
    decreases n - i
  {
    if i < n {
      RunsAreHonest(states, actions, n - 1, row);
      StepKeepsHonest(states[n - 1], actions[n - 1], states[n], row);
      UnsettledSince(states, actions, i, n - 1, row);
    }
  }

  /** The caller lists the files its table held at step `since`, and nothing else is asked of it. */
  ghost predicate DeletesWhatWasHeld(states: seq<State>, actions: seq<Action>, since: nat, at: nat)
    requires since < |states|
  {
    && since <= at < |actions| && at < |states| && actions[at].RequestReplay?
    && actions[at].direction.DeleteDirection? && actions[at].files.Some?
    && (forall p | FileRow(p) in states[since].table :: p in actions[at].files.value)
    && forall p | p in states[at].head :: !states[at].head[p].NotUtf8?
  }

  /** A replay repairs any drift. From whatever state losses, crashes and drift left, a `delete` replay of
      the receiver's own list and a full `create` replay, in either order and with commits landing in
      between, make the receiver's files HEAD's once the queue drains. Orders are restated too; an order
      row HEAD has no index for stays if it was there. */
  lemma ReplayRepairsDrift(states: seq<State>, actions: seq<Action>, since: nat, deleted: nat, created: nat, row: Row)
    requires IsTrace(states, actions) && states[0].queue == []
    requires since <= created < |actions| && RestatesEverything(actions[created])
    requires (exists p :: FileRow(p) in states[since].table) ==> DeletesWhatWasHeld(states, actions, since, deleted)
    requires forall k | since <= k < |actions| :: Reliable(actions[k])
    requires states[|actions|].queue == []
    ensures var last := states[|actions|];
      && (row.FileRow? ==> Get(last.table, row) == Shown(last.head, row))
      && (row.OrderRow? ==> Get(last.table, row) == Shown(last.head, row)
                            || (Shown(last.head, row).None? && row in states[since].table))
  {
    var n := |actions|;
    if !Settled(states[n], row) {
      UnsettledSince(states, actions, created + 1, n, row);
      UnsettledSince(states, actions, created, n, row);
      RunsAreHonest(states, actions, created, row);
      RequestKeeps(states[created], actions[created], states[created + 1], row);
      assert Shown(states[n].head, row).None?;
      UnsettledSince(states, actions, since, n, row);
      RunsAreHonest(states, actions, since, row);
      assert row in states[since].table;
      if row.FileRow? {
        UnsettledSince(states, actions, deleted + 1, n, row);
        UnsettledSince(states, actions, deleted, n, row);
        RunsAreHonest(states, actions, deleted, row);
        RequestKeeps(states[deleted], actions[deleted], states[deleted + 1], row);
      }
    }
  }
}
