/** The consumer's side of the queue: sending with retries, and working a replay off chunk by chunk. */
module HookDelivery {
  import opened Wrappers
  import opened Paths
  import opened Trees
  import opened Receiver
  import opened HookQueues

  const MAX_BACKOFF_EXPONENT: nat := 20
  const U64_MAX: nat := 0xffff_ffff_ffff_ffff

  function Pow2(n: nat): nat {
    if n == 0 then 1 else 2 * Pow2(n - 1)
  }

  /** The pause after failed attempt `attempt`, doubling up to a limit, saturating. */
  function Backoff(base: nat, attempt: nat): nat
    requires attempt >= 1
  {
    var exponent := if attempt - 1 < MAX_BACKOFF_EXPONENT then attempt - 1 else MAX_BACKOFF_EXPONENT;
    var wanted := base * Pow2(exponent);
    if wanted > U64_MAX then U64_MAX else wanted
  }

  /** The first pause is the configured one; each further one doubles, up to the largest the clock can hold, for as long as
      the doubling goes on, and stands still from there. */
  lemma BackoffDoubles(base: nat, attempt: nat)
    requires attempt >= 1
    ensures Backoff(base, 1) == Min(base, U64_MAX)
    ensures Backoff(base, attempt + 1)
         == if attempt <= MAX_BACKOFF_EXPONENT then Min(2 * Backoff(base, attempt), U64_MAX) else Backoff(base, attempt)
  {
    if attempt <= MAX_BACKOFF_EXPONENT {
      DoubledPause(base, Pow2(attempt - 1));
    }
  }

  function Min(a: nat, b: nat): nat {
    if a < b then a else b
  }

  lemma DoubledPause(base: nat, power: nat)
    ensures Min(base * (2 * power), U64_MAX) == Min(2 * Min(base * power, U64_MAX), U64_MAX)
  {
    assert base * (2 * power) == 2 * (base * power);
  }

  /** `deliver_with_retries`: sent exactly when some attempt succeeds; no attempt follows a success, and a pause sits
      between any two attempts and nowhere else. `answers` says how the receiver answers each attempt. */
  method DeliverWithRetries(attempts: nat, base: nat, answers: nat -> bool)
    returns (sent: bool, tried: nat, pauses: seq<nat>)
    requires attempts >= 1
    ensures sent <==> exists a | 1 <= a <= attempts :: answers(a)
    ensures 1 <= tried <= attempts && (sent ==> answers(tried)) && (!sent ==> tried == attempts)
    ensures forall a | 1 <= a < tried :: !answers(a)
    ensures |pauses| == tried - 1 && forall i | 0 <= i < |pauses| :: pauses[i] == Backoff(base, i + 1)
  {
    pauses := [];
    for attempt := 1 to attempts + 1
      invariant |pauses| == attempt - 1 && forall a | 1 <= a < attempt :: !answers(a)
      invariant forall i | 0 <= i < |pauses| :: pauses[i] == Backoff(base, i + 1)
      invariant attempt <= attempts
    {
      if answers(attempt) {
        return true, attempt, pauses;
      }
      if attempt == attempts {
        return false, attempts, pauses;
      }
      pauses := pauses + [Backoff(base, attempt)];
    }
  }

  /** How the k-th chunk read of a phase resolves to events. */
  type Resolver = (nat, seq<Path>) -> seq<Event>

  /** Files and orders as read at the k-th chunk, HEAD being `heads(k)` by then. */
  function FilesAt(direction: Direction, heads: nat -> Tree): Resolver {
    (k: nat, paths: seq<Path>) => ResolveFiles(direction, heads(k), paths)
  }

  function OrdersAt(heads: nat -> Tree): Resolver {
    (k: nat, directories: seq<Path>) => ResolveOrders(heads(k), directories)
  }

  /** What one phase of a replay sends, one chunk after the other. */
  function Phase(resolve: Resolver, k: nat, paths: seq<Path>): seq<Event>
    decreases |paths|
  {
    if paths == [] then []
    else
      var n := ChunkOf(paths);
      resolve(k, paths[..n]) + Phase(resolve, k + 1, paths[n..])
  }

  function ChunkCount(paths: seq<Path>): nat
    decreases |paths|
  {
    if paths == [] then 0 else 1 + ChunkCount(paths[ChunkOf(paths)..])
  }

  lemma {:induction false} DeliverAllConcat(table: Table, first: seq<Event>, second: seq<Event>)
    ensures DeliverAll(table, first + second) == DeliverAll(DeliverAll(table, first), second)
  {
    if second == [] {
      assert first + second == first;
    } else {
      assert (first + second)[..|first + second| - 1] == first + second[..|second| - 1];
      DeliverAllConcat(table, first, second[..|second| - 1]);
    }
  }

  /** The events of one chunk, sent in order; a path that resolves to nothing is skipped. */
  method SendChunk(table: Table, events: seq<Event>) returns (after: Table)
    ensures after == DeliverAll(table, events)
  {
    after := table;
    for i := 0 to |events|
      invariant after == DeliverAll(table, events[..i])
    {
      assert events[..i + 1][..i] == events[..i];
      after := Deliver(after, events[i]);
    }
    assert events[..|events|] == events;
  }

  /** One phase: a chunk's content is read when the chunk is reached. `chunk` counts the reads. */
  method SendPhase(resolve: Resolver, paths: seq<Path>, start: nat, table: Table) returns (after: Table, chunk: nat)
    ensures after == DeliverAll(table, Phase(resolve, start, paths)) && chunk == start + ChunkCount(paths)
  {
    after, chunk := table, start;
    var left := paths;
    while left != []
      invariant chunk + ChunkCount(left) == start + ChunkCount(paths)
      invariant DeliverAll(after, Phase(resolve, chunk, left)) == DeliverAll(table, Phase(resolve, start, paths))
      decreases |left|
    {
      var n := ChunkOf(left);
      var events := resolve(chunk, left[..n]);
      DeliverAllConcat(after, events, Phase(resolve, chunk + 1, left[n..]));
      after := SendChunk(after, events);
      chunk, left := chunk + 1, left[n..];
    }
  }

  /** What a replay sends: the file phase from the first read on, then the order phase, each behind its subscription. */
  function FilesSent(direction: Direction, paths: seq<Path>, deliverFiles: bool, heads: nat -> Tree): seq<Event> {
    if deliverFiles then Phase(FilesAt(direction, heads), 0, paths) else []
  }

  function OrdersSent(paths: seq<Path>, directories: seq<Path>, deliverFiles: bool, deliverOrders: bool,
                      heads: nat -> Tree): seq<Event>
  {
    if deliverOrders then Phase(OrdersAt(heads), if deliverFiles then ChunkCount(paths) else 0, directories) else []
  }

  /** `deliver_replay`, every send succeeding: content is read when its chunk is reached, files go first, orders last,
      and each phase is gated by its own subscription. */
  method DeliverReplay(direction: Direction, paths: seq<Path>, directories: seq<Path>, deliverFiles: bool,
                       deliverOrders: bool, heads: nat -> Tree, table: Table)
    returns (after: Table)
    ensures after == DeliverAll(table, FilesSent(direction, paths, deliverFiles, heads)
                                       + OrdersSent(paths, directories, deliverFiles, deliverOrders, heads))
  {
    var filed, chunk := SendFiles(direction, paths, deliverFiles, heads, table);
    DeliverAllConcat(table, FilesSent(direction, paths, deliverFiles, heads),
                     OrdersSent(paths, directories, deliverFiles, deliverOrders, heads));
    after := filed;
    if deliverOrders {
      after, chunk := SendPhase(OrdersAt(heads), directories, chunk, filed);
    }
  }

  method SendFiles(direction: Direction, paths: seq<Path>, deliverFiles: bool, heads: nat -> Tree, table: Table)
    returns (after: Table, chunk: nat)
    ensures after == DeliverAll(table, FilesSent(direction, paths, deliverFiles, heads))
    ensures chunk == if deliverFiles then ChunkCount(paths) else 0
  {
    after, chunk := table, 0;
    if deliverFiles {
      after, chunk := SendPhase(FilesAt(direction, heads), paths, 0, table);
    }
  }

  // What a phase does to one row

  type Told = Option<Option<Value>>

  /** The chunk the i-th path of a phase is read in. */
  function ChunkNumber(i: nat): nat {
    i / REPLAY_READ_CHUNK
  }

  lemma NextChunk(i: nat)
    ensures ChunkNumber(REPLAY_READ_CHUNK + i) == 1 + ChunkNumber(i)
  {
  }

  /** What the last path to say anything says, each path read against the HEAD of its own chunk. */
  function LastRead(told: (Tree, Path) -> Told, heads: nat -> Tree, k: nat, paths: seq<Path>): Told {
    if paths == [] then None
    else
      var last := |paths| - 1;
      var read := told(heads(k + ChunkNumber(last)), paths[last]);
      if read.Some? then read else LastRead(told, heads, k, paths[..last])
  }

  function FileTold(direction: Direction, row: Row): (Tree, Path) -> Told {
    (head: Tree, path: Path) => UnreadEffect(ReplayJob(direction, [], [path], []), head, row)
  }

  function OrderTold(row: Row): (Tree, Path) -> Told {
    (head: Tree, directory: Path) => UnreadEffect(ReplayJob(CreateDirection, [], [], [directory]), head, row)
  }

  /** The first chunk apart from the rest. */
  lemma {:induction false} LastReadSplit(told: (Tree, Path) -> Told, heads: nat -> Tree, k: nat, paths: seq<Path>)
    requires |paths| >= REPLAY_READ_CHUNK
    ensures var later := LastRead(told, heads, k + 1, paths[REPLAY_READ_CHUNK..]);
      LastRead(told, heads, k, paths) == if later.Some? then later else LastRead(told, heads, k, paths[..REPLAY_READ_CHUNK])
  {
    var n, last := REPLAY_READ_CHUNK, |paths| - 1;
    if |paths| == n {
      assert paths[..n] == paths;
    } else {
      LastReadSplit(told, heads, k, paths[..last]);
      NextChunk(last - n);
      assert paths[..last][n..] == paths[n..][..last - n] && paths[..last][..n] == paths[..n];
    }
  }

  /** Within one chunk every path is read against one HEAD. */
  lemma ChunkSnoc(told: (Tree, Path) -> Told, heads: nat -> Tree, k: nat, front: seq<Path>, last: Path)
    requires |front| < REPLAY_READ_CHUNK
    ensures LastRead(told, heads, k, front + [last])
         == if told(heads(k), last).Some? then told(heads(k), last) else LastRead(told, heads, k, front)
  {
    assert ChunkNumber(|front|) == 0 && (front + [last])[..|front|] == front;
  }

  lemma PhaseSplit(told: (Tree, Path) -> Told, heads: nat -> Tree, k: nat, paths: seq<Path>)
    ensures var n := ChunkOf(paths);
      var later := LastRead(told, heads, k + 1, paths[n..]);
      LastRead(told, heads, k, paths) == if later.Some? then later else LastRead(told, heads, k, paths[..n])
  {
    if |paths| >= REPLAY_READ_CHUNK {
      LastReadSplit(told, heads, k, paths);
    } else {
      assert paths[..|paths|] == paths;
    }
  }

  /** Wherever HEAD has moved to between the chunks, a file phase does to each row what the last path to say anything of
      it says, each path by the HEAD of its own chunk: erased if named by a delete replay, stated as that HEAD shows it
      by a create replay. */
  lemma {:induction false} FilePhaseEffect(direction: Direction, heads: nat -> Tree, k: nat, paths: seq<Path>, row: Row)
    ensures LastEffect(Phase(FilesAt(direction, heads), k, paths), row)
         == LastRead(FileTold(direction, row), heads, k, paths)
    decreases |paths|
  {
    if paths != [] {
      var n := ChunkOf(paths);
      var front, back := paths[..n], paths[n..];
      FilePhaseEffect(direction, heads, k + 1, back, row);
      FileChunkEffect(direction, heads, k, front, row);
      LastEffectConcat(ResolveFiles(direction, heads(k), front), Phase(FilesAt(direction, heads), k + 1, back), row);
      PhaseSplit(FileTold(direction, row), heads, k, paths);
    }
  }

  /** One chunk, all of it read against one HEAD. */
  lemma {:induction false} FileChunkEffect(direction: Direction, heads: nat -> Tree, k: nat, paths: seq<Path>, row: Row)
    requires |paths| <= REPLAY_READ_CHUNK
    ensures LastEffect(ResolveFiles(direction, heads(k), paths), row)
         == LastRead(FileTold(direction, row), heads, k, paths)
  {
    if paths != [] {
      var front, last := paths[..|paths| - 1], paths[|paths| - 1];
      FileChunkEffect(direction, heads, k, front, row);
      LastEffectConcat(ResolveFiles(direction, heads(k), front), ResolveFile(direction, heads(k), last), row);
      ResolvedFileEffect(direction, heads(k), last, row);
      ChunkSnoc(FileTold(direction, row), heads, k, front, last);
      assert paths == front + [last];
    }
  }

  /** The same of an order phase, which states orders and erases none. */
  lemma {:induction false} OrderPhaseEffect(heads: nat -> Tree, k: nat, directories: seq<Path>, row: Row)
    ensures LastEffect(Phase(OrdersAt(heads), k, directories), row)
         == LastRead(OrderTold(row), heads, k, directories)
    decreases |directories|
  {
    if directories != [] {
      var n := ChunkOf(directories);
      var front, back := directories[..n], directories[n..];
      OrderPhaseEffect(heads, k + 1, back, row);
      OrderChunkEffect(heads, k, front, row);
      LastEffectConcat(ResolveOrders(heads(k), front), Phase(OrdersAt(heads), k + 1, back), row);
      PhaseSplit(OrderTold(row), heads, k, directories);
    }
  }

  lemma {:induction false} OrderChunkEffect(heads: nat -> Tree, k: nat, directories: seq<Path>, row: Row)
    requires |directories| <= REPLAY_READ_CHUNK
    ensures LastEffect(ResolveOrders(heads(k), directories), row)
         == LastRead(OrderTold(row), heads, k, directories)
  {
    if directories != [] {
      var front, last := directories[..|directories| - 1], directories[|directories| - 1];
      OrderChunkEffect(heads, k, front, row);
      LastEffectConcat(ResolveOrders(heads(k), front), ResolveOrder(heads(k), last), row);
      ResolvedOrderEffect(heads(k), last, row);
      ChunkSnoc(OrderTold(row), heads, k, front, last);
      assert directories == front + [last];
    }
  }

  /** What a whole replay does to one row: a file row is told by the file phase, if files are subscribed to, and an order
      row by the order phase, if orders are, whose chunks are read after those of the files; and neither by the other. */
  lemma ReplayEffect(direction: Direction, paths: seq<Path>, directories: seq<Path>, deliverFiles: bool,
                     deliverOrders: bool, heads: nat -> Tree, row: Row)
    ensures var sent := FilesSent(direction, paths, deliverFiles, heads)
                        + OrdersSent(paths, directories, deliverFiles, deliverOrders, heads);
      LastEffect(sent, row)
      == if row.FileRow? then if deliverFiles then LastRead(FileTold(direction, row), heads, 0, paths) else None
         else if deliverOrders
         then LastRead(OrderTold(row), heads, if deliverFiles then ChunkCount(paths) else 0, directories) else None
  {
    var files := FilesSent(direction, paths, deliverFiles, heads);
    var orders := OrdersSent(paths, directories, deliverFiles, deliverOrders, heads);
    var start := if deliverFiles then ChunkCount(paths) else 0;
    LastEffectConcat(files, orders, row);
    FilePhaseEffect(direction, heads, 0, paths, row);
    OrderPhaseEffect(heads, start, directories, row);
    if row.FileRow? {
      NothingTold(OrderTold(row), heads, start, directories);
    } else {
      NothingTold(FileTold(direction, row), heads, 0, paths);
    }
  }

  lemma {:induction false} NothingTold(told: (Tree, Path) -> Told, heads: nat -> Tree, k: nat, paths: seq<Path>)
    requires forall head, path :: told(head, path).None?
    ensures LastRead(told, heads, k, paths).None?
  {
    if paths != [] { NothingTold(told, heads, k, paths[..|paths| - 1]); }
  }

  /** Read in however many chunks, a replay over a HEAD that stands still does to each row what the queue holds it to
      do: state HEAD's files, or erase the named ones ... */
  lemma {:induction false} StillFilePhase(direction: Direction, heads: nat -> Tree, k: nat, paths: seq<Path>, head: Tree, row: Row)
    requires forall i: nat :: heads(i) == head
    ensures LastEffect(Phase(FilesAt(direction, heads), k, paths), row)
         == UnreadEffect(ReplayJob(direction, [], paths, []), head, row)
    decreases |paths|
  {
    if paths != [] {
      var n := ChunkOf(paths);
      var front, back := paths[..n], paths[n..];
      StillFilePhase(direction, heads, k + 1, back, head, row);
      ResolvedFilesEffect(direction, head, front, row);
      LastEffectConcat(ResolveFiles(direction, head, front), Phase(FilesAt(direction, heads), k + 1, back), row);
      UnreadJoin(direction, head, front, back, row);
      assert front + back == paths;
    }
  }

  /** ... and state HEAD's orders. */
  lemma {:induction false} StillOrderPhase(heads: nat -> Tree, k: nat, directories: seq<Path>, head: Tree, row: Row)
    requires forall i: nat :: heads(i) == head
    ensures LastEffect(Phase(OrdersAt(heads), k, directories), row)
         == UnreadEffect(ReplayJob(CreateDirection, [], [], directories), head, row)
    decreases |directories|
  {
    if directories != [] {
      var n := ChunkOf(directories);
      var front, back := directories[..n], directories[n..];
      StillOrderPhase(heads, k + 1, back, head, row);
      ResolvedOrdersEffect(head, front, row);
      LastEffectConcat(ResolveOrders(head, front), Phase(OrdersAt(heads), k + 1, back), row);
      UnreadOrdersJoin(CreateDirection, head, front, back, row);
      assert front + back == directories;
    }
  }

  /** Content is the chunk's, not the request's: a path is stated as HEAD shows it when its chunk is read, and skipped
      if HEAD shows nothing there by then. */
  lemma {:induction false} StatedAsRead(heads: nat -> Tree, k: nat, paths: seq<Path>, path: Path, content: Blob)
    ensures FileEvent(Created(path, content)) in Phase(FilesAt(CreateDirection, heads), k, paths) ==>
      path in paths && exists i: nat :: k <= i < k + ChunkCount(paths) && Shown(heads(i), FileRow(path)) == Some(Content(content))
    decreases |paths|
  {
    if paths != [] && FileEvent(Created(path, content)) in Phase(FilesAt(CreateDirection, heads), k, paths) {
      var n := ChunkOf(paths);
      StatedAsRead(heads, k + 1, paths[n..], path, content);
      if FileEvent(Created(path, content)) in ResolveFiles(CreateDirection, heads(k), paths[..n]) {
        ResolvedFrom(heads(k), paths[..n], path, content);
        assert k <= k < k + ChunkCount(paths);
      }
    }
  }

  lemma {:induction false} ResolvedFrom(head: Tree, paths: seq<Path>, path: Path, content: Blob)
    requires FileEvent(Created(path, content)) in ResolveFiles(CreateDirection, head, paths)
    ensures path in paths && Shown(head, FileRow(path)) == Some(Content(content))
  {
    if FileEvent(Created(path, content)) in ResolveFiles(CreateDirection, head, paths[..|paths| - 1]) {
      ResolvedFrom(head, paths[..|paths| - 1], path, content);
    }
  }
}
