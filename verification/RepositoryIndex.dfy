/** The in-memory repository listing: live announcements merged with disk scans. */
module RepositoryIndexes {
  import opened Wrappers

  type Key = string

  /** Successive heads of one repository are modelled by growing versions. */
  type Version = nat

  /** `announcedAt` is the sequence number of the live update that set it; 0 from a scan. */
  datatype Entry = Entry(head: Version, announcedAt: nat)

  datatype Index = Index(heads: map<Key, Entry>, sequence: nat, complete: bool, scanned: bool)

  function Recorded(index: Index, key: Key, head: Version): Index {
    index.(heads := index.heads[key := Entry(head, index.sequence + 1)], sequence := index.sequence + 1)
  }

  function Removed(index: Index, key: Key): Index {
    index.(heads := index.heads - {key}, sequence := index.sequence + 1)
  }

  predicate AnnouncedSince(index: Index, key: Key, startedAt: nat) {
    key in index.heads && index.heads[key].announcedAt > startedAt
  }

  /** The entries a fold keeps: after a complete scan, only those it saw or announced since it began. */
  function Retained(heads: map<Key, Entry>, startedAt: nat, seen: map<Key, Version>, complete: bool): map<Key, Entry> {
    map k | k in heads && (!complete || k in seen || heads[k].announcedAt > startedAt) :: heads[k]
  }

  /** What the scan saw, set wherever nothing was announced since it began. */
  function Merged(heads: map<Key, Entry>, startedAt: nat, seen: map<Key, Version>): map<Key, Entry> {
    map k | k in heads.Keys + seen.Keys :: MergedEntry(heads, startedAt, seen, k)
  }

  function MergedEntry(heads: map<Key, Entry>, startedAt: nat, seen: map<Key, Version>, key: Key): Entry
    requires key in heads || key in seen
  {
    if key in heads && (key !in seen || heads[key].announcedAt > startedAt) then heads[key] else Entry(seen[key], 0)
  }

  /** Folding in a scan that started at `startedAt` and saw `seen`. */
  function Folded(index: Index, startedAt: nat, seen: map<Key, Version>, complete: bool): Index {
    index.(heads := Merged(Retained(index.heads, startedAt, seen, complete), startedAt, seen),
           complete := complete, scanned := true)
  }

  /** The source's loop over the scanned entries. */
  method MergeScan(kept: map<Key, Entry>, startedAt: nat, seen: map<Key, Version>) returns (heads: map<Key, Entry>)
    ensures heads == Merged(kept, startedAt, seen)
  {
    heads := kept;
    var left := seen.Keys;
    while left != {}
      invariant left <= seen.Keys
      invariant forall k :: k in heads <==> k in kept || (k in seen && k !in left)
      invariant forall k | k in heads :: heads[k] == if k in left then kept[k] else MergedEntry(kept, startedAt, seen, k)
      decreases left
    {
      var key :| key in left;
      left := left - {key};
      if key in heads && heads[key].announcedAt > startedAt {
        continue;
      }
      heads := heads[key := Entry(seen[key], 0)];
    }
  }

  class RepositoryIndex {
    var heads: map<Key, Entry>
    var complete: bool
    var scanned: bool
    var sequence: nat

    constructor ()
      ensures State() == Index(map[], 0, false, false)
    {
      heads, complete, scanned, sequence := map[], false, false, 0;
    }

    function State(): Index
      reads this
    {
      Index(heads, sequence, complete, scanned)
    }

    method RecordHead(key: Key, head: Version)
      modifies this
      ensures State() == Recorded(old(State()), key, head)
    {
      sequence := sequence + 1;
      heads := heads[key := Entry(head, sequence)];
    }

    method Remove(key: Key)
      modifies this
      ensures State() == Removed(old(State()), key)
    {
      sequence := sequence + 1;
      heads := heads - {key};
    }

    /** The second half of `rescan_locked`, under the mutex: retain, then insert what the walk found. */
    method FoldScan(startedAt: nat, seen: map<Key, Version>, scanComplete: bool)
      modifies this
      ensures State() == Folded(old(State()), startedAt, seen, scanComplete)
    {
      heads := Retained(heads, startedAt, seen, scanComplete);
      heads := MergeScan(heads, startedAt, seen);
      complete := scanComplete;
      scanned := true;
    }
  }

  // Scans walking the disk while commits and deletions land

  /** A write in flight, under its tenant's lock: the disk has changed, the index has not been told. */
  datatype InFlight = Committed(head: Version) | Deleted

  /** `due` are the repositories on disk since the walk began and not visited yet. */
  datatype Scan = Scan(startedAt: nat, seen: map<Key, Version>, due: set<Key>)

  datatype System = System(disk: map<Key, Version>, latest: map<Key, Version>, inFlight: map<Key, InFlight>,
                           index: Index, scan: Option<Scan>)

  datatype Action =
    | CommitDisk(key: Key, head: Version)
    | AnnounceCommit(key: Key)
    | DeleteDisk(key: Key)
    | AnnounceDeletion(key: Key)
    | BeginScan
    | Visit(key: Key)
    | EndScan(complete: bool)

  ghost predicate Next(s: System, action: Action, t: System) {
    match action
    case CommitDisk(key, head) =>
      && key !in s.inFlight && (key in s.latest ==> s.latest[key] < head)
      && t == s.(disk := s.disk[key := head], latest := s.latest[key := head], inFlight := s.inFlight[key := Committed(head)])
    case AnnounceCommit(key) =>
      && key in s.inFlight && s.inFlight[key].Committed?
      && t == s.(inFlight := s.inFlight - {key}, index := Recorded(s.index, key, s.inFlight[key].head))
    case DeleteDisk(key) =>
      && key in s.disk && key !in s.inFlight
      && t == s.(disk := s.disk - {key}, inFlight := s.inFlight[key := Deleted],
                 scan := if s.scan.Some? then Some(s.scan.value.(due := s.scan.value.due - {key})) else None)
    case AnnounceDeletion(key) =>
      && key in s.inFlight && s.inFlight[key].Deleted?
      && t == s.(inFlight := s.inFlight - {key}, index := Removed(s.index, key))
    case BeginScan =>
      // `scan_lock`: one walk at a time
      s.scan.None? && t == s.(scan := Some(Scan(s.index.sequence, map[], s.disk.Keys)))
    case Visit(key) =>
      && s.scan.Some?
      && var scan := s.scan.value;
         t == s.(scan := Some(scan.(seen := if key in s.disk then scan.seen[key := s.disk[key]] else scan.seen,
                                    due := scan.due - {key})))
    case EndScan(complete) =>
      && s.scan.Some? && (complete ==> s.scan.value.due == {})
      && t == s.(index := Folded(s.index, s.scan.value.startedAt, s.scan.value.seen, complete), scan := None)
  }

  ghost predicate Inv(s: System) {
    && (forall k | k in s.disk :: k in s.latest && s.disk[k] == s.latest[k])
    && (forall k | k in s.inFlight && s.inFlight[k].Committed? :: k in s.disk && s.inFlight[k].head == s.disk[k])
    && (forall k | k in s.inFlight && s.inFlight[k].Deleted? :: k !in s.disk)
    && (forall k | k in s.index.heads ::
          k in s.latest && s.index.heads[k].head <= s.latest[k] && s.index.heads[k].announcedAt <= s.index.sequence)
    && (s.scan.Some? ==> ScanInv(s, s.scan.value))
    && (s.index.complete ==> NothingMissing(s))
  }

  ghost predicate ScanInv(s: System, scan: Scan) {
    && scan.startedAt <= s.index.sequence
    && scan.due <= s.disk.Keys
    && (forall k | k in scan.seen :: k in s.latest && scan.seen[k] <= s.latest[k])
    && (forall k | k in scan.seen && k in s.index.heads && s.index.heads[k].announcedAt <= scan.startedAt ::
          s.index.heads[k].head <= scan.seen[k])
    && (forall k | k in s.disk && k !in s.inFlight ::
          k in scan.due || k in scan.seen || AnnouncedSince(s.index, k, scan.startedAt))
  }

  /** Every repository on disk whose last write has been announced is listed. */
  ghost predicate NothingMissing(s: System) {
    forall k | k in s.disk && k !in s.inFlight :: k in s.index.heads
  }

  lemma DiskWritesKeepInv(s: System, action: Action, t: System)
    requires Inv(s) && Next(s, action, t) && (action.CommitDisk? || action.DeleteDisk?)
    ensures Inv(t)
  {
  }

  lemma CommitAnnouncementKeepsInv(s: System, key: Key, t: System)
    requires Inv(s) && Next(s, AnnounceCommit(key), t)
    ensures Inv(t)
  {
  }

  lemma DeletionAnnouncementKeepsInv(s: System, key: Key, t: System)
    requires Inv(s) && Next(s, AnnounceDeletion(key), t)
    ensures Inv(t)
  {
  }

  lemma WalkKeepsInv(s: System, action: Action, t: System)
    requires Inv(s) && Next(s, action, t) && (action.BeginScan? || action.Visit?)
    ensures Inv(t)
  {
  }

  lemma FoldKeepsInv(s: System, complete: bool, t: System)
    requires Inv(s) && Next(s, EndScan(complete), t)
    ensures Inv(t)
  {
    var scan := s.scan.value;
    forall k | k in t.index.heads
      ensures k in t.latest && t.index.heads[k].head <= t.latest[k] && t.index.heads[k].announcedAt <= t.index.sequence
    {
    }
  }

  lemma InvKept(s: System, action: Action, t: System)
    requires Inv(s) && Next(s, action, t)
    ensures Inv(t)
  {
    match action {
      case BeginScan => WalkKeepsInv(s, action, t);
      case Visit(_) => WalkKeepsInv(s, action, t);
      case EndScan(complete) => FoldKeepsInv(s, complete, t);
      case AnnounceCommit(key) => CommitAnnouncementKeepsInv(s, key, t);
      case AnnounceDeletion(key) => DeletionAnnouncementKeepsInv(s, key, t);
      case _ => DiskWritesKeepInv(s, action, t);
    }
  }

  /** No step moves an indexed head back. */
  lemma HeadsNeverGoBack(s: System, action: Action, t: System, key: Key)
    requires Inv(s) && Next(s, action, t)
    requires key in s.index.heads && key in t.index.heads
    ensures s.index.heads[key].head <= t.index.heads[key].head
  {}

  ghost predicate IsTrace(states: seq<System>, actions: seq<Action>) {
    && |states| == |actions| + 1
    && forall i | 0 <= i < |actions| :: Next(states[i], actions[i], states[i + 1])
  }

  ghost predicate Starts(s: System) {
    && s.latest == s.disk && s.inFlight == map[] && s.scan.None?
    && s.index == Index(map[], 0, false, false)
  }

  /** The index over whole runs, scans overlapping nothing but commits and deletions: what it lists never
      exceeds the disk, and a complete listing misses no repository whose writes have been announced. */
  lemma {:induction false} IndexSafe(states: seq<System>, actions: seq<Action>, i: nat)
    requires IsTrace(states, actions) && Starts(states[0]) && i < |states|
    ensures Inv(states[i])
    ensures forall k | k in states[i].index.heads && k in states[i].disk :: states[i].index.heads[k].head <= states[i].disk[k]
    ensures states[i].index.complete ==> NothingMissing(states[i])
  {
    if i > 0 {
      IndexSafe(states, actions, i - 1);
      InvKept(states[i - 1], actions[i - 1], states[i]);
    }
  }

  /** The disk has reached `least`, and neither the listing nor a walk under way can bring back anything below it. */
  ghost predicate AtLeast(s: System, key: Key, least: Version) {
    && key in s.latest && s.latest[key] >= least
    && (key in s.index.heads ==> s.index.heads[key].head >= least)
    && (s.scan.Some? && key in s.scan.value.seen ==>
          s.scan.value.seen[key] >= least || AnnouncedSince(s.index, key, s.scan.value.startedAt))
  }

  lemma AtLeastKept(s: System, action: Action, t: System, key: Key, least: Version)
    requires Inv(s) && Next(s, action, t) && AtLeast(s, key, least)
    requires action == AnnounceDeletion(key) ==> s.scan.None?
    ensures AtLeast(t, key, least)
  {
  }

  /** Between two moments at which a repository is listed its head has not gone back, however often folds dropped it and
      listed it again in between, unless its removal was announced while a scan was under way. */
  lemma ListedHeadsGrow(states: seq<System>, actions: seq<Action>, i: nat, j: nat, key: Key)
    requires IsTrace(states, actions) && Starts(states[0]) && i <= j < |states|
    requires forall n | i <= n < j && actions[n] == AnnounceDeletion(key) :: states[n].scan.None?
    requires key in states[i].index.heads && key in states[j].index.heads
    ensures states[i].index.heads[key].head <= states[j].index.heads[key].head
  {
    IndexSafe(states, actions, i);
    StaysAtLeast(states, actions, i, j, key, states[i].index.heads[key].head);
  }

  lemma {:induction false} StaysAtLeast(states: seq<System>, actions: seq<Action>, i: nat, j: nat, key: Key,
                                        least: Version)
    requires IsTrace(states, actions) && Starts(states[0]) && i <= j < |states|
    requires forall n | i <= n < j && actions[n] == AnnounceDeletion(key) :: states[n].scan.None?
    requires AtLeast(states[i], key, least)
    ensures AtLeast(states[j], key, least)
    decreases j
  {
    if i < j {
      StaysAtLeast(states, actions, i, j - 1, key, least);
      IndexSafe(states, actions, j - 1);
      AtLeastKept(states[j - 1], actions[j - 1], states[j], key, least);
    }
  }

  // What leaves the index, and what a fold makes of each entry

  /** The two ways out: the announced deletion, or a complete fold of a scan that did not see the key and since whose
      beginning nothing was announced of it. */
  predicate Unlists(s: System, action: Action, key: Key) {
    || action == AnnounceDeletion(key)
    || (&& action == EndScan(true) && s.scan.Some? && key !in s.scan.value.seen
        && !AnnouncedSince(s.index, key, s.scan.value.startedAt))
  }

  /** A listed key is listed after a step exactly unless the step is one of those. */
  lemma StaysListedIff(s: System, action: Action, t: System, key: Key)
    requires Next(s, action, t) && key in s.index.heads
    ensures key in t.index.heads <==> !Unlists(s, action, key)
  {
  }

  /** The two ways in: an announced commit, or a fold of a scan that saw it. */
  lemma BecomesListedIff(s: System, action: Action, t: System, key: Key)
    requires Next(s, action, t) && key !in s.index.heads
    ensures key in t.index.heads <==>
      action == AnnounceCommit(key) || (action.EndScan? && key in s.scan.value.seen)
  {
  }

  /** A scan that missed part of the disk unlists nothing, whatever it saw. */
  lemma IncompleteFoldKeeps(s: System, t: System, key: Key)
    requires Next(s, EndScan(false), t) && key in s.index.heads
    ensures key in t.index.heads && !t.index.complete
  {
    StaysListedIff(s, EndScan(false), t, key);
  }

  /** The entry a fold leaves: the announced one where something was announced since the scan began, else the head it saw,
      else the old one, if there is one and the scan was not complete. */
  lemma FoldedEntry(s: System, complete: bool, t: System, key: Key)
    requires Next(s, EndScan(complete), t)
    ensures var scan, before := s.scan.value, s.index.heads;
      && (AnnouncedSince(s.index, key, scan.startedAt) ==> key in t.index.heads && t.index.heads[key] == before[key])
      && (!AnnouncedSince(s.index, key, scan.startedAt) && key in scan.seen ==>
            key in t.index.heads && t.index.heads[key] == Entry(scan.seen[key], 0))
      && (!AnnouncedSince(s.index, key, scan.startedAt) && key !in scan.seen ==>
            (key in t.index.heads <==> key in before && !complete)
            && (key in t.index.heads ==> t.index.heads[key] == before[key]))
  {
  }

  /** Over a run: a key listed at one moment and not at a later one left by one of those two ways in between. */
  lemma {:induction false} UnlistedSince(states: seq<System>, actions: seq<Action>, i: nat, j: nat, key: Key)
    requires IsTrace(states, actions) && i <= j < |states|
    requires key in states[i].index.heads && key !in states[j].index.heads
    ensures exists n | i <= n < j :: key in states[n].index.heads && Unlists(states[n], actions[n], key)
    decreases j
  {
    if key in states[j - 1].index.heads {
      StaysListedIff(states[j - 1], actions[j - 1], states[j], key);
    } else {
      UnlistedSince(states, actions, i, j - 1, key);
    }
  }

  /** A repository on disk throughout leaves the listing only to a complete fold during which a write of it is still to
      be announced. */
  lemma OnDiskStaysListed(states: seq<System>, actions: seq<Action>, i: nat, j: nat, key: Key)
    requires IsTrace(states, actions) && Starts(states[0]) && i <= j < |states|
    requires key in states[i].index.heads && forall n | i <= n <= j :: key in states[n].disk
    ensures key in states[j].index.heads || exists n | i <= n < j :: actions[n] == EndScan(true) && key in states[n].inFlight
  {
    if key !in states[j].index.heads {
      UnlistedSince(states, actions, i, j, key);
      var n :| i <= n < j && key in states[n].index.heads && Unlists(states[n], actions[n], key);
      IndexSafe(states, actions, n);
      assert key in states[n].disk && Next(states[n], actions[n], states[n + 1]);
    }
  }

  /** A complete scan during which nothing else happened makes the index the disk. */
  lemma QuietScanIsExact(s: System, seen: map<Key, Version>, t: System)
    requires Inv(s) && s.scan == Some(Scan(s.index.sequence, seen, {})) && Next(s, EndScan(true), t)
    requires seen == s.disk
    ensures t.index.complete && t.index.heads.Keys == s.disk.Keys
    ensures forall k | k in s.disk :: t.index.heads[k].head == s.disk[k]
  {
    forall k ensures k in t.index.heads <==> k in s.disk {
      if k in s.index.heads { assert s.index.heads[k].announcedAt <= s.index.sequence; }
    }
  }

  /** Without the scan lock the merge fails: a second scan resets the mark of an announcement made while
      a first one walked, and the first one then drops a repository that is on disk. */
  lemma OverlappingScansLoseOne(key: Key)
    ensures var empty := Index(map[], 0, false, false);
      var announced := Recorded(empty, key, 1);
      var second := Folded(announced, announced.sequence, map[key := 1], true);
      var first := Folded(second, empty.sequence, map[], true);
      first.complete && key !in first.heads
  {}

  /** A walk that has seen the repository, as it stood, and nothing else. */
  function Walked(key: Key, disk: map<Key, Version>, latest: Version, inFlight: map<Key, InFlight>, index: Index,
                  due: set<Key>, seen: map<Key, Version>): System {
    System(disk, map[key := latest], inFlight, index, Some(Scan(0, seen, due)))
  }

  /** A scan visits a repository at its first version; a second one is committed and announced, and the repository then
      deleted, before the scan is folded in. */
  function RemovalDuringScan(key: Key): (seq<System>, seq<Action>) {
    var start := System(map[key := 1], map[key := 1], map[], Index(map[], 0, false, false), None);
    var seen := map[key := 1];
    var announced := Recorded(start.index, key, 2);
    var removed := Removed(announced, key);
    ([start,
      Walked(key, map[key := 1], 1, map[], start.index, {key}, map[]),
      Walked(key, map[key := 1], 1, map[], start.index, {}, seen),
      Walked(key, map[key := 2], 2, map[key := Committed(2)], start.index, {}, seen),
      Walked(key, map[key := 2], 2, map[], announced, {}, seen),
      Walked(key, map[], 2, map[key := Deleted], announced, {}, seen),
      Walked(key, map[], 2, map[], removed, {}, seen),
      System(map[], map[key := 2], map[], Folded(removed, 0, seen, true), None)],
     [BeginScan, Visit(key), CommitDisk(key, 2), AnnounceCommit(key), DeleteDisk(key), AnnounceDeletion(key),
      EndScan(true)])
  }

  /** That condition is the right one: a removal leaves no mark, so the scan that visited the directory before it lists
      the repository again, at a head older than the one listed before, until the next quiet complete scan. */
  lemma RemovedDuringScanComesBack(key: Key)
    ensures var (states, actions) := RemovalDuringScan(key);
      && IsTrace(states, actions) && Starts(states[0])
      && key in states[4].index.heads && states[4].index.heads[key].head == 2
      && key !in states[6].index.heads
      && key in states[7].index.heads && states[7].index.heads[key].head == 1
      && key !in states[7].disk
  {
    var (states, actions) := RemovalDuringScan(key);
    var removed := states[6].index;
    assert removed.heads == map[];
    assert Next(states[0], actions[0], states[1]) by { assert states[0].disk.Keys == {key}; }
    assert Next(states[1], actions[1], states[2]) by { assert states[1].scan.value.due - {key} == {}; }
    assert Next(states[2], actions[2], states[3]);
    assert Next(states[3], actions[3], states[4]);
    assert Next(states[4], actions[4], states[5]) by {
      assert states[4].disk - {key} == map[];
      assert states[4].scan.value.due - {key} == {};
    }
    assert Next(states[5], actions[5], states[6]);
    assert Next(states[6], actions[6], states[7]);
  }
}
