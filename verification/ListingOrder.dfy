/** The order in which a listing has its rows, at the root and at every level below. */
module ListingOrders {
  import opened Wrappers
  import opened Paths
  import opened Sorting
  import opened Bytewise
  import opened OrderIndex
  import opened TreeBuilding
  import opened Subtrees
  import Listings
  import NameSearch

  // Stable sorting

  /** A stable sort keeps the given sequence `before` among whatever ties. */
  ghost predicate Stably<T>(s: seq<T>, less: (T, T) -> bool, before: (T, T) -> bool) {
    forall i, j | 0 <= i < j < |s| :: less(s[i], s[j]) || (!less(s[j], s[i]) && before(s[i], s[j]))
  }

  ghost predicate Pairwise<T>(s: seq<T>, before: (T, T) -> bool) {
    forall i, j | 0 <= i < j < |s| :: before(s[i], s[j])
  }

  lemma {:induction false} InsertedStably<T(!new)>(x: T, s: seq<T>, less: (T, T) -> bool, before: (T, T) -> bool)
    requires WeakOrder(less) && Stably(s, less, before) && forall e | e in s :: before(x, e)
    ensures Stably(Inserted(x, s, less), less, before)
  {
    if s != [] && less(s[0], x) {
      var rest := Inserted(x, s[1..], less);
      assert forall e | e in s[1..] :: e in s;
      assert Stably(s[1..], less, before) by {
        forall i, j | 0 <= i < j < |s[1..]|
          ensures less(s[1..][i], s[1..][j]) || (!less(s[1..][j], s[1..][i]) && before(s[1..][i], s[1..][j]))
        {
          assert s[1..][i] == s[i + 1] && s[1..][j] == s[j + 1];
        }
      }
      InsertedStably(x, s[1..], less, before);
      InsertedPermutes(x, s[1..], less);
      forall k | 0 <= k < |rest|
        ensures less(s[0], rest[k]) || (!less(rest[k], s[0]) && before(s[0], rest[k]))
      {
        assert rest[k] in multiset(rest);
        if rest[k] != x {
          var i :| 0 <= i < |s[1..]| && s[1..][i] == rest[k];
          assert s[i + 1] == rest[k];
        }
      }
    }
  }

  lemma {:induction false} SortedStably<T(!new)>(xs: seq<T>, less: (T, T) -> bool, before: (T, T) -> bool)
    requires WeakOrder(less) && Pairwise(xs, before)
    ensures Stably(SortBy(xs, less), less, before)
  {
    if xs != [] {
      var rest := xs[1..];
      forall i, j | 0 <= i < j < |rest|
        ensures before(rest[i], rest[j])
      {
        assert before(xs[i + 1], xs[j + 1]);
      }
      SortedStably(rest, less, before);
      SortBySorts(rest, less);
      SameElements(rest, SortBy(rest, less));
      forall e | e in SortBy(rest, less)
        ensures before(xs[0], e)
      {
        var i :| 0 <= i < |rest| && rest[i] == e;
        assert before(xs[0], xs[i + 1]);
      }
      InsertedStably(xs[0], SortBy(rest, less), less, before);
    }
  }

  // One level

  /** Directories before files, each group ascending, and no name twice. */
  predicate Earlier(a: TreeNode, b: TreeNode) {
    && a.name != b.name
    && if a.DirectoryNode? == b.DirectoryNode? then Less(a.name, b.name) else a.DirectoryNode?
  }

  /** Which of two names stands above in a folder with an index: the one the index names first; an unlisted one stands
      where the implicit index says, or behind everything listed, and above the entry listed there; unlisted ones among
      themselves stay as they were. */
  predicate NamedAbove(order: seq<Name>, implicitIndex: Option<int>, a: Name, b: Name, earlier: bool) {
    var p, q := PositionOf(order, a), PositionOf(order, b);
    var implicit := if implicitIndex.Some? then implicitIndex.value else I64_MAX;
    && a != b
    && if p >= 0 && q >= 0 then p < q
       else if p >= 0 then p < implicit
       else if q >= 0 then implicit <= q
       else earlier
  }

  predicate Above(order: seq<Name>, implicitIndex: Option<int>, a: TreeNode, b: TreeNode) {
    NamedAbove(order, implicitIndex, a.name, b.name, Earlier(a, b))
  }

  /** A listing in order: every level by the index of its own folder, or in base order where it has none, and every row
      with its position in that index. */
  ghost predicate InOrder(ordering: Listings.Ordering, directory: Path, rows: seq<TreeNode>)
    decreases rows
  {
    var order := ordering.stored(directory);
    && (forall i, j | 0 <= i < j < |rows| ::
          if order.Some? then Above(order.value, ordering.implicitIndex, rows[i], rows[j]) else Earlier(rows[i], rows[j]))
    && (forall n | n in rows :: n.position == Some(if order.Some? then PositionOf(order.value, n.name) else UNLISTED_POSITION))
    && (forall n | n in rows && n.DirectoryNode? :: InOrder(ordering, directory + [n.name], n.children))
  }

  /** A listing without ordering: base order at every level, and no positions. */
  ghost predicate InBaseOrder(rows: seq<TreeNode>) {
    && Pairwise(rows, Earlier)
    && (forall n | n in rows :: n.position.None?)
    && (forall n | n in rows && n.DirectoryNode? :: InBaseOrder(n.children))
  }

  lemma RowsRanked(order: seq<Name>, implicitIndex: Option<int>, a: TreeNode, b: TreeNode)
    ensures Listings.RowsByName(order, implicitIndex)(a, b)
         == RankLess(OrderRank(order, a.name, implicitIndex), OrderRank(order, b.name, implicitIndex))
  {
    assert Listings.ByName(order, implicitIndex)(a.name, b.name)
        == RankLess(OrderRank(order, a.name, implicitIndex), OrderRank(order, b.name, implicitIndex));
  }

  lemma RowsWeakOrder(order: seq<Name>, implicitIndex: Option<int>)
    ensures WeakOrder(Listings.RowsByName(order, implicitIndex))
  {
    forall a: TreeNode, b: TreeNode
      ensures Listings.RowsByName(order, implicitIndex)(a, b)
           == RankLess(OrderRank(order, a.name, implicitIndex), OrderRank(order, b.name, implicitIndex))
    {
      RowsRanked(order, implicitIndex, a, b);
    }
  }

  /** What ranking says of two rows, ties broken by base order, is what `Above` says. */
  lemma RankedIsAbove(order: seq<Name>, implicitIndex: Option<int>, a: TreeNode, b: TreeNode)
    requires var less := Listings.RowsByName(order, implicitIndex); less(a, b) || (!less(b, a) && Earlier(a, b))
    requires a.name != b.name
    ensures Above(order, implicitIndex, a, b)
  {
    RowsRanked(order, implicitIndex, a, b);
    RowsRanked(order, implicitIndex, b, a);
  }

  lemma EarlierAlike(a: TreeNode, b: TreeNode, c: TreeNode, d: TreeNode)
    requires Earlier(a, b) && a.name == c.name && b.name == d.name
    requires a.DirectoryNode? == c.DirectoryNode? && b.DirectoryNode? == d.DirectoryNode?
    ensures Earlier(c, d)
  {
  }

  /** Placing and opening the rows of a level keeps their sequence. */
  lemma ArrangedBelowRows(ordering: Listings.Ordering, directory: Path, nodes: seq<TreeNode>)
    requires Pairwise(nodes, Earlier)
    ensures var rows := Listings.ArrangedBelow(ordering, directory, ordering.stored(directory), nodes);
      && Pairwise(rows, Earlier)
      && |rows| == |nodes| && forall i | 0 <= i < |rows| :: rows[i] == Listings.Settled(ordering, directory, nodes[i])
  {
    var order := ordering.stored(directory);
    Listings.ArrangedBelowMaps(ordering, directory, order, nodes);
    var placed := Listings.Map(Listings.Placed(order), nodes);
    Listings.MapAt(Listings.Placed(order), nodes);
    Listings.MapAt(Listings.Opened(ordering, directory), placed);
    var rows := Listings.ArrangedBelow(ordering, directory, order, nodes);
    forall i, j | 0 <= i < j < |rows|
      ensures Earlier(rows[i], rows[j])
    {
      assert Earlier(nodes[i], nodes[j]);
      EarlierAlike(nodes[i], nodes[j], rows[i], rows[j]);
    }
  }

  lemma LevelInOrder(ordering: Listings.Ordering, directory: Path, nodes: seq<TreeNode>)
    requires Pairwise(nodes, Earlier)
    ensures var rows := Listings.Arranged(ordering, directory, nodes);
      var order := ordering.stored(directory);
      forall i, j | 0 <= i < j < |rows| ::
        if order.Some? then Above(order.value, ordering.implicitIndex, rows[i], rows[j]) else Earlier(rows[i], rows[j])
  {
    var order := ordering.stored(directory);
    ArrangedBelowRows(ordering, directory, nodes);
    var below := Listings.ArrangedBelow(ordering, directory, order, nodes);
    var rows := Listings.Arranged(ordering, directory, nodes);
    if order.Some? {
      RankedInOrder(order.value, ordering.implicitIndex, below);
      assert rows == SortBy(below, Listings.RowsByName(order.value, ordering.implicitIndex));
    } else {
      assert rows == below;
      forall i, j | 0 <= i < j < |rows|
        ensures Earlier(rows[i], rows[j])
      {
      }
    }
  }

  lemma RankedInOrder(order: seq<Name>, implicitIndex: Option<int>, nodes: seq<TreeNode>)
    requires Pairwise(nodes, Earlier)
    ensures var rows := SortBy(nodes, Listings.RowsByName(order, implicitIndex));
      forall i, j | 0 <= i < j < |rows| :: Above(order, implicitIndex, rows[i], rows[j])
  {
    var less := Listings.RowsByName(order, implicitIndex);
    RowsWeakOrder(order, implicitIndex);
    SortedStably(nodes, less, Earlier);
    var rows := SortBy(nodes, less);
    forall i, j | 0 <= i < j < |rows|
      ensures Above(order, implicitIndex, rows[i], rows[j])
    {
      NamesApart(nodes, less, i, j);
      RankedIsAbove(order, implicitIndex, rows[i], rows[j]);
    }
  }

  /** Sorting leaves every name once. */
  lemma NamesApart(nodes: seq<TreeNode>, less: (TreeNode, TreeNode) -> bool, i: nat, j: nat)
    requires WeakOrder(less) && Pairwise(nodes, Earlier) && i < j < |SortBy(nodes, less)|
    ensures SortBy(nodes, less)[i].name != SortBy(nodes, less)[j].name
  {
    var rows := SortBy(nodes, less);
    SortBySorts(nodes, less);
    assert Distinct(nodes) by {
      forall k, l | 0 <= k < l < |nodes| ensures nodes[k] != nodes[l] {
        assert Earlier(nodes[k], nodes[l]);
      }
    }
    SameElements(nodes, rows);
    assert rows[i] in rows && rows[j] in rows && rows[i] != rows[j];
    var k :| 0 <= k < |nodes| && nodes[k] == rows[i];
    var l :| 0 <= l < |nodes| && nodes[l] == rows[j];
    assert if k < l then Earlier(nodes[k], nodes[l]) else Earlier(nodes[l], nodes[k]);
  }

  // Every level

  /** Ordering a listing that is in base order puts every level in the order of its own folder's index. */
  lemma {:induction false} ArrangedInOrder(ordering: Listings.Ordering, directory: Path, nodes: seq<TreeNode>)
    requires InBaseOrder(nodes)
    ensures InOrder(ordering, directory, Listings.Arranged(ordering, directory, nodes))
    decreases nodes
  {
    var rows := Listings.Arranged(ordering, directory, nodes);
    LevelInOrder(ordering, directory, nodes);
    Listings.ArrangedMembers(ordering, directory, nodes);
    forall r | r in rows
      ensures r.position == Some(if ordering.stored(directory).Some? then PositionOf(ordering.stored(directory).value, r.name)
                                 else UNLISTED_POSITION)
      ensures r.DirectoryNode? ==> InOrder(ordering, directory + [r.name], r.children)
    {
      var n :| n in nodes && r == Listings.Settled(ordering, directory, n);
      if n.DirectoryNode? {
        ArrangedInOrder(ordering, directory + [n.name], n.children);
      }
    }
  }

  /** What `build_tree` makes is in base order. */
  lemma {:induction false} LevelInBaseOrder(dir: Builder)
    requires dir.Folder?
    ensures InBaseOrder(Level(dir))
    decreases dir
  {
    LevelNodes(dir);
    forall i, j | 0 <= i < j < |Level(dir)|
      ensures Earlier(Level(dir)[i], Level(dir)[j])
    {
      LevelBefore(dir, i, j);
    }
    forall n | n in Level(dir) && n.DirectoryNode?
      ensures InBaseOrder(n.children)
    {
      LevelInBaseOrder(dir.children[n.name]);
    }
  }

  lemma ListingInBaseOrder(nodes: seq<TreeNode>, flat: set<Path>, stubs: set<Path>, maxDepth: Option<nat>)
    requires Listing(nodes, flat, stubs, maxDepth)
    ensures InBaseOrder(nodes)
  {
    var dir: Builder :| Describes(dir, flat, stubs, maxDepth) && nodes == Level(dir);
    LevelInBaseOrder(dir);
  }

  // The root

  lemma {:induction false} RootNamesApart(entries: seq<NameSearch.Entry>, hidden: bool)
    requires forall i, j | 0 <= i < j < |entries| :: entries[i].name != entries[j].name
    ensures Distinct(Listings.FolderNamesOf(entries, hidden)) && Distinct(Listings.FileNamesOf(entries, hidden))
    ensures forall n :: !(n in Listings.FolderNamesOf(entries, hidden) && n in Listings.FileNamesOf(entries, hidden))
  {
    if entries != [] {
      var rest := entries[1..];
      forall i, j | 0 <= i < j < |rest|
        ensures rest[i].name != rest[j].name
      {
        assert entries[i + 1].name != entries[j + 1].name;
      }
      RootNamesApart(rest, hidden);
      RootNames(rest, hidden, entries[0].name);
      assert forall e | e in rest :: e.name != entries[0].name by {
        forall e | e in rest ensures e.name != entries[0].name {
          var i :| 0 <= i < |rest| && rest[i] == e;
          assert entries[i + 1] == e;
        }
      }
    }
  }

  lemma NamesAscend(names: seq<Name>)
    requires Distinct(names)
    ensures Ascending(SortBy(names, Less))
    ensures forall n :: n in SortBy(names, Less) <==> n in names
  {
    var sorted := SortBy(names, Less);
    LessWeakOrder();
    SortBySorts(names, Less);
    SameElements(names, sorted);
    forall i, j | 0 <= i < j < |sorted|
      ensures Less(sorted[i], sorted[j])
    {
      LessTrichotomy(sorted[i], sorted[j]);
    }
  }

  lemma RootInBaseOrder(entries: seq<NameSearch.Entry>, hidden: bool, below: Name -> seq<TreeNode>)
    requires forall i, j | 0 <= i < j < |entries| :: entries[i].name != entries[j].name
    requires forall e | e in entries && e.TreeEntry? :: InBaseOrder(below(e.name))
    ensures InBaseOrder(Listings.AllRows(entries, hidden, below))
  {
    var folders := SortBy(Listings.FolderNamesOf(entries, hidden), Less);
    var files := SortBy(Listings.FileNamesOf(entries, hidden), Less);
    RootNamesApart(entries, hidden);
    NamesAscend(Listings.FolderNamesOf(entries, hidden));
    NamesAscend(Listings.FileNamesOf(entries, hidden));
    RootPairs(folders, files, (n: Name) => DirectoryNode(n, below(n), None), (n: Name) => FileNode(n, None));
    RowMembers(entries, hidden, below);
    forall r | r in Listings.AllRows(entries, hidden, below)
      ensures r.position.None? && (r.DirectoryNode? ==> InBaseOrder(r.children))
    {
      assert IsRow(entries, hidden, below, r);
    }
  }

  lemma RowsAscend(names: seq<Name>, row: Name -> TreeNode)
    requires Ascending(names) && forall n :: row(n).name == n
    ensures AscendingNodes(Listings.Map(row, names))
  {
    var rows := Listings.Map(row, names);
    Listings.MapAt(row, names);
    forall i, j | 0 <= i < j < |rows|
      ensures Less(rows[i].name, rows[j].name)
    {
      assert rows[i].name == names[i] && rows[j].name == names[j];
    }
  }

  lemma RootPairs(folders: seq<Name>, files: seq<Name>, folderRow: Name -> TreeNode, fileRow: Name -> TreeNode)
    requires Ascending(folders) && Ascending(files) && forall n | n in folders :: n !in files
    requires forall n :: folderRow(n).DirectoryNode? && folderRow(n).name == n
    requires forall n :: fileRow(n).FileNode? && fileRow(n).name == n
    ensures Pairwise(Listings.Map(folderRow, folders) + Listings.Map(fileRow, files), Earlier)
  {
    RowsAscend(folders, folderRow);
    RowsAscend(files, fileRow);
    Listings.MapMembers(folderRow, folders);
    Listings.MapMembers(fileRow, files);
    var folderRows, fileRows := Listings.Map(folderRow, folders), Listings.Map(fileRow, files);
    assert forall m, n | m in folderRows && n in fileRows :: m.name in folders && n.name in files;
    forall i, j | 0 <= i < j < |folderRows| + |fileRows|
      ensures Earlier((folderRows + fileRows)[i], (folderRows + fileRows)[j])
    {
      GroupsBefore(folderRows, fileRows, i, j);
    }
  }

  /** The whole listing, of which a page is cut: without ordering every folder row comes before every file row, at the root
      as at every level, each group ascending; with it every level, the root included, is as its folder's index says. */
  lemma WholeListingInOrder(entries: seq<NameSearch.Entry>, maxDepth: Option<nat>, hidden: bool,
                            below: Name -> seq<TreeNode>, ordering: Option<Listings.Ordering>)
    requires ValidTree(entries) && maxDepth != Some(0) && Collects(below, entries, maxDepth, hidden)
    ensures var rows := Listings.WholeListing(entries, hidden, below, ordering);
      if ordering.Some? then InOrder(ordering.value, [], rows) else InBaseOrder(rows)
  {
    forall e | e in entries && e.TreeEntry?
      ensures InBaseOrder(below(e.name))
    {
      assert CollectsOf(below(e.name), e.entries, maxDepth, hidden);
      if maxDepth != Some(1) {
        var found := Collected(e.entries, OneLevelDown(maxDepth), hidden);
        ListingInBaseOrder(below(e.name), SetOf(found.files), SetOf(found.atLimit), OneLevelDown(maxDepth));
      }
    }
    RootInBaseOrder(entries, hidden, below);
    if ordering.Some? {
      ArrangedInOrder(ordering.value, [], Listings.AllRows(entries, hidden, below));
    }
  }

  // An index materialised

  predicate FolderSpelled(entry: Name) {
    entry != [] && entry[|entry| - 1] == '/'
  }

  /** Folders before files, each group ascending as spelled. */
  predicate EntryEarlier(a: Name, b: Name) {
    if FolderSpelled(a) == FolderSpelled(b) then Less(a, b) else FolderSpelled(a)
  }

  lemma DirectoryEntriesEarlier(children: seq<Child>)
    requires ValidChildren(children)
    ensures Pairwise(DirectoryEntries(children), EntryEarlier)
  {
    var folders, files := SortBy(FolderEntries(children), Less), SortBy(FileEntries(children), Less);
    EntryListsDistinct(children);
    NamesAscend(FolderEntries(children));
    NamesAscend(FileEntries(children));
    forall e
      ensures e in folders ==> FolderSpelled(e)
      ensures e in files ==> !FolderSpelled(e)
    {
      EntryListsMembers(children, e);
    }
    forall i, j | 0 <= i < j < |folders + files|
      ensures EntryEarlier((folders + files)[i], (folders + files)[j])
    {
      assert if i < |folders| then (folders + files)[i] == folders[i] && folders[i] in folders
             else (folders + files)[i] == files[i - |folders|] && files[i - |folders|] in files;
      assert if j < |folders| then (folders + files)[j] == folders[j] && folders[j] in folders
             else (folders + files)[j] == files[j - |folders|] && files[j - |folders|] in files;
    }
  }

  lemma {:induction false} FilterPairwise(xs: seq<Name>, keep: Name -> bool, before: (Name, Name) -> bool)
    requires Pairwise(xs, before)
    ensures Pairwise(Filter(xs, keep), before)
  {
    if xs != [] {
      var rest := xs[1..];
      forall i, j | 0 <= i < j < |rest|
        ensures before(rest[i], rest[j])
      {
        assert before(xs[i + 1], xs[j + 1]);
      }
      FilterPairwise(rest, keep, before);
      FilterMembers(rest, keep);
      forall e | e in rest
        ensures before(xs[0], e)
      {
        var i :| 0 <= i < |rest| && rest[i] == e;
        assert before(xs[0], xs[i + 1]);
      }
    }
  }

  predicate DotNamed(entry: Name) {
    EntryName(entry) != [] && EntryName(entry)[0] == '.'
  }

  /** The entries a reorder materialises: the folder's own, hidden ones only if asked for or listed ... */
  lemma MaterializedExactly(children: seq<Child>, stored: seq<Name>, implicitIndex: Option<int>, allowHidden: bool, e: Name)
    requires ValidChildren(children)
    ensures e in MaterializedOrder(children, stored, implicitIndex, allowHidden) <==>
      IsEntry(children, e) && (allowHidden || !DotNamed(e) || PositionOf(stored, EntryName(e)) >= 0)
  {
    MaterializedMembers(children, stored, implicitIndex, allowHidden);
    if IsEntry(children, e) { EntryNamed(children, e); }
  }

  ghost predicate EntriesInOrder(stored: seq<Name>, implicitIndex: Option<int>, entries: seq<Name>) {
    forall i, j | 0 <= i < j < |entries| ::
      NamedAbove(stored, implicitIndex, EntryName(entries[i]), EntryName(entries[j]), EntryEarlier(entries[i], entries[j]))
  }

  /** ... each at the rank the listing gives it. */
  lemma MaterializedInOrder(children: seq<Child>, stored: seq<Name>, implicitIndex: Option<int>, allowHidden: bool)
    requires ValidChildren(children)
    ensures EntriesInOrder(stored, implicitIndex, MaterializedOrder(children, stored, implicitIndex, allowHidden))
  {
    MaterializedApart(children, stored, implicitIndex, allowHidden);
    ChosenEarlier(children, stored, allowHidden);
    EntriesRanked(Filter(DirectoryEntries(children), e => Eligible(stored, allowHidden, e)), stored, implicitIndex);
  }

  lemma MaterializedApart(children: seq<Child>, stored: seq<Name>, implicitIndex: Option<int>, allowHidden: bool)
    requires ValidChildren(children)
    ensures DistinctNames(MaterializedOrder(children, stored, implicitIndex, allowHidden))
  {
    MaterializedMembers(children, stored, implicitIndex, allowHidden);
  }

  lemma ChosenEarlier(children: seq<Child>, stored: seq<Name>, allowHidden: bool)
    requires ValidChildren(children)
    ensures Pairwise(Filter(DirectoryEntries(children), e => Eligible(stored, allowHidden, e)), EntryEarlier)
  {
    DirectoryEntriesEarlier(children);
    FilterPairwise(DirectoryEntries(children), e => Eligible(stored, allowHidden, e), EntryEarlier);
  }

  lemma EntriesRanked(chosen: seq<Name>, stored: seq<Name>, implicitIndex: Option<int>)
    requires Pairwise(chosen, EntryEarlier) && DistinctNames(SortBy(chosen, ByRank(stored, implicitIndex)))
    ensures EntriesInOrder(stored, implicitIndex, SortBy(chosen, ByRank(stored, implicitIndex)))
  {
    ByRankWeakOrder(stored, implicitIndex);
    SortedStably(chosen, ByRank(stored, implicitIndex), EntryEarlier);
    var entries := SortBy(chosen, ByRank(stored, implicitIndex));
    forall i, j | 0 <= i < j < |entries|
      ensures NamedAbove(stored, implicitIndex, EntryName(entries[i]), EntryName(entries[j]), EntryEarlier(entries[i], entries[j]))
    {
      EntryRanked(stored, implicitIndex, entries[i], entries[j]);
    }
  }

  lemma EntryRanked(stored: seq<Name>, implicitIndex: Option<int>, a: Name, b: Name)
    requires var less := ByRank(stored, implicitIndex); less(a, b) || (!less(b, a) && EntryEarlier(a, b))
    requires EntryName(a) != EntryName(b)
    ensures NamedAbove(stored, implicitIndex, EntryName(a), EntryName(b), EntryEarlier(a, b))
  {
  }

  lemma EntryNamed(children: seq<Child>, e: Name)
    requires ValidChildren(children) && IsEntry(children, e)
    ensures EntryName(e) != [] && EntryName(e) != ORDER_FILE_NAME
  {
    var c :| c in children && c.name != ORDER_FILE_NAME && Canonical(c) == e;
    CanonicalName(c);
  }
}
