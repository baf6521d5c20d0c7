/** When a path was created or last touched, read off history by one walk from its newest commit. */
module FileDates {
  import opened Wrappers
  import opened Paths
  import opened Trees

  /** A commit of a linear history, newest first: its tree, and its time, which need not grow. */
  datatype Revision = Revision(tree: Tree, time: int)

  datatype DateKind = Created | Updated

  function BlobAt(history: seq<Revision>, i: nat, path: Path): Option<Blob>
    requires i <= |history|
  {
    if i < |history| && path in history[i].tree then Some(history[i].tree[path]) else None
  }

  /** Commit `i` shows up in its own diff at `path`; the root is diffed against nothing. */
  predicate Touched(history: seq<Revision>, i: nat, path: Path)
    requires i < |history|
  {
    BlobAt(history, i, path) != BlobAt(history, i + 1, path)
  }

  predicate AddedAt(history: seq<Revision>, i: nat, path: Path)
    requires i < |history|
  {
    BlobAt(history, i, path).Some? && BlobAt(history, i + 1, path).None?
  }

  predicate Dates(history: seq<Revision>, kind: DateKind, i: nat, path: Path)
    requires i < |history|
  {
    if kind.Updated? then Touched(history, i, path) else AddedAt(history, i, path)
  }

  /** The commit that defines a path's date among the `n` newest: the latest touch, or the oldest addition. */
  ghost predicate Defines(history: seq<Revision>, kind: DateKind, n: nat, i: nat, path: Path)
    requires n <= |history|
  {
    && i < n && Dates(history, kind, i, path)
    && forall j | 0 <= j < n && (if kind.Updated? then j < i else i < j) :: !Dates(history, kind, j, path)
  }

  /** A path of the newest tree was added by some commit: what a listing asks about always has its date. */
  lemma {:induction false} ListedIsDated(history: seq<Revision>, path: Path, from: nat) returns (i: nat)
    requires from < |history| && BlobAt(history, from, path).Some?
    ensures from <= i < |history| && AddedAt(history, i, path) && Touched(history, i, path)
    decreases |history| - from
  {
    if BlobAt(history, from + 1, path).None? {
      i := from;
    } else {
      i := ListedIsDated(history, path, from + 1);
    }
  }

  /** What the `n` newest commits say of one path. */
  ghost predicate DatedBy(history: seq<Revision>, kind: DateKind, n: nat, path: Path, date: Option<int>)
    requires n <= |history|
  {
    if date.Some? then exists i: nat :: Defines(history, kind, n, i, path) && date == Some(history[i].time)
    else forall i | 0 <= i < n :: !Dates(history, kind, i, path)
  }

  function Lookup(dates: map<Path, int>, path: Path): Option<int> {
    if path in dates then Some(dates[path]) else None
  }

  ghost predicate Dated(history: seq<Revision>, paths: set<Path>, kind: DateKind, n: nat, dates: map<Path, int>)
    requires n <= |history|
  {
    dates.Keys <= paths && forall p | p in paths :: DatedBy(history, kind, n, p, Lookup(dates, p))
  }

  lemma DatedStep(history: seq<Revision>, kind: DateKind, n: nat, path: Path, date: Option<int>)
    requires n < |history| && DatedBy(history, kind, n, path, date)
    ensures !Dates(history, kind, n, path) || (kind.Updated? && date.Some?) ==> DatedBy(history, kind, n + 1, path, date)
    ensures Dates(history, kind, n, path) && (kind.Created? || date.None?) ==>
      DatedBy(history, kind, n + 1, path, Some(history[n].time))
  {
    if date.Some? {
      var i: nat :| Defines(history, kind, n, i, path) && date == Some(history[i].time);
      if !Dates(history, kind, n, path) || kind.Updated? {
        assert Defines(history, kind, n + 1, i, path);
      }
    }
    if Dates(history, kind, n, path) && (kind.Created? || date.None?) {
      assert Defines(history, kind, n + 1, n, path);
    }
  }

  /** A latest touch once found stays the latest, however much older history is read. */
  lemma UpdatedIsFinal(history: seq<Revision>, n: nat, path: Path, date: int)
    requires n <= |history| && DatedBy(history, Updated, n, path, Some(date))
    ensures DatedBy(history, Updated, |history|, path, Some(date))
  {
    var i: nat :| Defines(history, Updated, n, i, path) && date == history[i].time;
    assert Defines(history, Updated, |history|, i, path);
  }

  /** A creation date found in the `n` newest commits is the true one exactly when no older commit adds the path. */
  lemma CreatedIsFinalIff(history: seq<Revision>, n: nat, path: Path, i: nat)
    requires n <= |history| && Defines(history, Created, n, i, path)
    ensures Defines(history, Created, |history|, i, path) <==> forall j | n <= j < |history| :: !AddedAt(history, j, path)
  {
    assert forall j | 0 <= j < |history| :: Dates(history, Created, j, path) == AddedAt(history, j, path);
  }

  /** A commit's deltas: the paths its diff lists. */
  function DeltaPaths(history: seq<Revision>, i: nat): set<Path>
    requires i < |history|
  {
    var older := if i + 1 < |history| then history[i + 1].tree else map[];
    set p | p in history[i].tree.Keys + older.Keys && Touched(history, i, p)
  }

  /** `file_dates`. The time budget runs out after `affordable` commits, if ever. */
  method WalkHistory(history: seq<Revision>, paths: set<Path>, kind: DateKind, affordable: Option<nat>)
    returns (dates: map<Path, int>, exhausted: bool)
    ensures !exhausted ==> Dated(history, paths, kind, |history|, dates)
    ensures exhausted ==> affordable.Some? && affordable.value < |history| && Dated(history, paths, kind, affordable.value, dates)
    ensures kind.Updated? ==> forall p | p in dates :: p in paths && DatedBy(history, Updated, |history|, p, Some(dates[p]))
  {
    dates, exhausted := map[], false;
    var n := 0;
    while n < |history|
      invariant n <= |history| && !exhausted && Dated(history, paths, kind, n, dates)
      invariant affordable.Some? ==> n <= affordable.value
    {
      if kind.Updated? && |dates| == |paths| {
        AllDated(paths, dates);
        break;
      }
      if affordable == Some(n) {
        exhausted := true;
        break;
      }
      dates := DateCommit(history, paths, kind, n, dates);
      n := n + 1;
    }
    if kind.Updated? {
      DatesAreFinal(history, paths, n, dates);
    }
  }

  lemma DatesAreFinal(history: seq<Revision>, paths: set<Path>, n: nat, dates: map<Path, int>)
    requires n <= |history| && Dated(history, paths, Updated, n, dates)
    ensures forall p | p in dates :: p in paths && DatedBy(history, Updated, |history|, p, Some(dates[p]))
    ensures dates.Keys == paths ==> Dated(history, paths, Updated, |history|, dates)
  {
    forall p | p in dates
      ensures DatedBy(history, Updated, |history|, p, Some(dates[p]))
    {
      assert DatedBy(history, Updated, n, p, Lookup(dates, p));
      UpdatedIsFinal(history, n, p, dates[p]);
    }
    forall p | p in paths && p in dates
      ensures DatedBy(history, Updated, |history|, p, Lookup(dates, p))
    {
    }
  }

  lemma AllDated(paths: set<Path>, dates: map<Path, int>)
    requires dates.Keys <= paths && |dates| == |paths|
    ensures dates.Keys == paths
  {
    assert |dates.Keys| == |paths|;
    assert paths == dates.Keys + (paths - dates.Keys);
  }

  /** One commit's deltas, in whatever order the diff lists them. */
  method DateCommit(history: seq<Revision>, paths: set<Path>, kind: DateKind, n: nat, before: map<Path, int>)
    returns (dates: map<Path, int>)
    requires n < |history| && Dated(history, paths, kind, n, before)
    ensures Dated(history, paths, kind, n + 1, dates)
  {
    dates := before;
    var deltas := DeltaPaths(history, n);
    while deltas != {}
      invariant deltas <= DeltaPaths(history, n) && dates.Keys <= paths
      invariant forall p | p in paths && p in deltas :: Lookup(dates, p) == Lookup(before, p)
      invariant forall p | p in paths && p !in deltas :: DatedBy(history, kind, n + 1, p, Lookup(dates, p))
      decreases deltas
    {
      var path :| path in deltas;
      deltas := deltas - {path};
      ghost var was := dates;
      if path in paths {
        DatedStep(history, kind, n, path, Lookup(before, path));
        match kind {
          case Updated => if path !in dates { dates := dates[path := history[n].time]; }
          case Created => if AddedAt(history, n, path) { dates := dates[path := history[n].time]; }
        }
      }
      assert forall p | p in paths && p != path :: Lookup(dates, p) == Lookup(was, p);
    }
  }

  // Filtering a listing

  datatype Window = Window(from: Option<int>, to: Option<int>)

  /** Half open: `from` is in, `to` is out. */
  predicate Matches(window: Window, date: int) {
    (window.from.Some? ==> window.from.value <= date) && (window.to.Some? ==> date < window.to.value)
  }

  /** No window leaves anything out, and one cut in two at any moment falls into two that share nothing and miss nothing,
      the moment itself in the later one. */
  lemma WindowsPartition(window: Window, moment: int, date: int)
    requires (window.from.Some? ==> window.from.value <= moment) && (window.to.Some? ==> moment <= window.to.value)
    ensures var earlier, later := window.(to := Some(moment)), window.(from := Some(moment));
      && (Matches(window, date) <==> Matches(earlier, date) || Matches(later, date))
      && !(Matches(earlier, date) && Matches(later, date))
      && (Matches(later, date) ==> moment <= date) && (Matches(earlier, date) ==> date < moment)
    ensures Matches(Window(None, None), date)
  {
  }

  /** The path's true date lies in the window. */
  ghost predicate InWindow(history: seq<Revision>, kind: DateKind, window: Window, path: Path) {
    exists i: nat :: Defines(history, kind, |history|, i, path) && Matches(window, history[i].time)
  }

  lemma OneDefining(history: seq<Revision>, kind: DateKind, path: Path, i: nat, j: nat)
    requires Defines(history, kind, |history|, i, path) && Defines(history, kind, |history|, j, path)
    ensures i == j
  {
  }

  /** A date of the whole history decides membership in the window. */
  lemma DateDecides(history: seq<Revision>, kind: DateKind, window: Window, path: Path, date: Option<int>)
    requires DatedBy(history, kind, |history|, path, date)
    ensures InWindow(history, kind, window, path) <==> date.Some? && Matches(window, date.value)
  {
    if date.Some? {
      var i: nat :| Defines(history, kind, |history|, i, path) && date == Some(history[i].time);
      if InWindow(history, kind, window, path) {
        var j: nat :| Defines(history, kind, |history|, j, path) && Matches(window, history[j].time);
        OneDefining(history, kind, path, i, j);
      }
    }
  }

  function KeptAmong(flat: seq<Path>, keep: set<Path>): seq<Path> {
    if flat == [] then []
    else KeptAmong(flat[..|flat| - 1], keep) + if flat[|flat| - 1] in keep then [flat[|flat| - 1]] else []
  }

  ghost function DatedInWindow(history: seq<Revision>, flat: seq<Path>, kind: DateKind, window: Window): set<Path> {
    set p | p in flat && InWindow(history, kind, window, p)
  }

  lemma {:induction false} KeptAlike(flat: seq<Path>, a: set<Path>, b: set<Path>)
    requires forall p | p in flat :: p in a <==> p in b
    ensures KeptAmong(flat, a) == KeptAmong(flat, b)
  {
    if flat != [] { KeptAlike(flat[..|flat| - 1], a, b); }
  }

  lemma {:induction false} KeptMembers(flat: seq<Path>, keep: set<Path>)
    ensures forall p :: p in KeptAmong(flat, keep) <==> p in flat && p in keep
  {
    if flat != [] {
      KeptMembers(flat[..|flat| - 1], keep);
      assert flat == flat[..|flat| - 1] + [flat[|flat| - 1]];
    }
  }

  /** `retain_by_date`: a finished walk keeps, in the order they came, exactly the files whose true date is in the
      window; one by last update that ran out of budget keeps some of those and nothing else. */
  method RetainByDate(history: seq<Revision>, flat: seq<Path>, kind: DateKind, window: Window, affordable: Option<nat>)
    returns (kept: seq<Path>, partial: bool)
    ensures !partial ==> kept == KeptAmong(flat, DatedInWindow(history, flat, kind, window))
    ensures kind.Updated? ==> forall p | p in kept :: p in flat && InWindow(history, kind, window, p)
    ensures exists surviving :: kept == KeptAmong(flat, surviving)
  {
    var paths := set p | p in flat;
    var dates: map<Path, int>, exhausted := map[], false;
    if paths != {} {
      dates, exhausted := WalkHistory(history, paths, kind, affordable);
    }
    partial := exhausted;
    var surviving := set p | p in dates && Matches(window, dates[p]);
    kept := [];
    for i := 0 to |flat|
      invariant kept == KeptAmong(flat[..i], surviving)
    {
      assert flat[..i + 1][..i] == flat[..i];
      if flat[i] in surviving {
        kept := kept + [flat[i]];
      }
    }
    assert flat[..|flat|] == flat;
    KeptMembers(flat, surviving);
    forall p | p in flat && (!partial || (kind.Updated? && p in surviving))
      ensures p in surviving <==> InWindow(history, kind, window, p)
    {
      assert p in paths;
      DateDecides(history, kind, window, p, Lookup(dates, p));
    }
    if !partial { KeptAlike(flat, surviving, DatedInWindow(history, flat, kind, window)); }
  }
}
