/** Listings over a git tree: rows are walked, built, ordered and paged. */
module Listings {
  import opened Wrappers
  import opened Paths
  import opened Sorting
  import opened Bytewise
  import opened OrderIndex
  import opened TreeBuilding
  import NameSearch

  type Entry = NameSearch.Entry

  function Map<T, U>(f: T -> U, xs: seq<T>): seq<U> {
    if xs == [] then [] else [f(xs[0])] + Map(f, xs[1..])
  }

  lemma {:induction false} MapConcat<T, U>(f: T -> U, xs: seq<T>, ys: seq<T>)
    ensures Map(f, xs + ys) == Map(f, xs) + Map(f, ys)
  {
    if xs == [] {
      assert xs + ys == ys;
    } else {
      assert (xs + ys)[1..] == xs[1..] + ys;
      MapConcat(f, xs[1..], ys);
    }
  }

  lemma {:induction false} MapAt<T, U>(f: T -> U, xs: seq<T>)
    ensures |Map(f, xs)| == |xs| && forall i | 0 <= i < |xs| :: Map(f, xs)[i] == f(xs[i])
  {
    if xs != [] { MapAt(f, xs[1..]); }
  }

  lemma MapSlice<T, U>(f: T -> U, xs: seq<T>, i: nat, j: nat)
    requires i <= j <= |xs|
    ensures |Map(f, xs)| == |xs| && Map(f, xs)[i..j] == Map(f, xs[i..j])
  {
    MapAt(f, xs);
    MapAt(f, xs[i..j]);
  }

  lemma {:induction false} MapInserted<T, U>(f: T -> U, x: T, xs: seq<T>, less: (T, T) -> bool, less': (U, U) -> bool)
    requires forall a, b | a in [x] + xs && b in [x] + xs :: less'(f(a), f(b)) == less(a, b)
    ensures Map(f, Inserted(x, xs, less)) == Inserted(f(x), Map(f, xs), less')
  {
    if xs != [] {
      assert x in [x] + xs && xs[0] in [x] + xs;
      assert forall a | a in [x] + xs[1..] :: a in [x] + xs;
      if less(xs[0], x) {
        MapInserted(f, x, xs[1..], less, less');
        assert Map(f, [xs[0]] + Inserted(x, xs[1..], less)) == [f(xs[0])] + Map(f, Inserted(x, xs[1..], less));
      } else {
        assert ([x] + xs)[1..] == xs;
      }
    }
  }

  lemma {:induction false} SortPermutes<T>(xs: seq<T>, less: (T, T) -> bool)
    ensures multiset(SortBy(xs, less)) == multiset(xs)
  {
    if xs != [] {
      SortPermutes(xs[1..], less);
      InsertedPermutes(xs[0], SortBy(xs[1..], less), less);
      assert xs == [xs[0]] + xs[1..];
    }
  }

  lemma SortMembers<T(!new)>(xs: seq<T>, less: (T, T) -> bool)
    ensures |SortBy(xs, less)| == |xs| && forall a :: a in SortBy(xs, less) <==> a in xs
  {
    SortPermutes(xs, less);
    SameElements(SortBy(xs, less), xs);
  }

  /** A stable sort commutes with whatever leaves the sort key alone. */
  lemma {:induction false} MapSorted<T(!new), U>(f: T -> U, xs: seq<T>, less: (T, T) -> bool, less': (U, U) -> bool)
    requires forall a, b | a in xs && b in xs :: less'(f(a), f(b)) == less(a, b)
    ensures Map(f, SortBy(xs, less)) == SortBy(Map(f, xs), less')
  {
    if xs != [] {
      MapSorted(f, xs[1..], less, less');
      SortMembers(xs[1..], less);
      MapInserted(f, xs[0], SortBy(xs[1..], less), less, less');
    }
  }

  // Ordering rows

  /** Where a folder's stored order index is found, and where entries it does not name rank. */
  datatype Ordering = Ordering(stored: Path -> Option<seq<Name>>, implicitIndex: Option<int>)

  function PlaceOf(order: Option<seq<Name>>, name: Name): Option<int> {
    Some(if order.Some? then PositionOf(order.value, name) else UNLISTED_POSITION)
  }

  function ByName(order: seq<Name>, implicitIndex: Option<int>): (Name, Name) -> bool {
    (x, y) => RankLess(OrderRank(order, x, implicitIndex), OrderRank(order, y, implicitIndex))
  }

  function RowsByName(order: seq<Name>, implicitIndex: Option<int>): (TreeNode, TreeNode) -> bool {
    (x: TreeNode, y: TreeNode) => ByName(order, implicitIndex)(x.name, y.name)
  }

  /** Rows arranged by the index of their folder, and theirs below them by their own. */
  function Arranged(ordering: Ordering, directory: Path, nodes: seq<TreeNode>): seq<TreeNode>
    decreases nodes, 1
  {
    var order := ordering.stored(directory);
    var rows := ArrangedBelow(ordering, directory, order, nodes);
    if order.Some? then SortBy(rows, RowsByName(order.value, ordering.implicitIndex)) else rows
  }

  function ArrangedBelow(ordering: Ordering, directory: Path, order: Option<seq<Name>>,
                         nodes: seq<TreeNode>): seq<TreeNode>
    decreases nodes, 0
  {
    if nodes == [] then []
    else
      var node := nodes[0];
      var row := if node.FileNode? then FileNode(node.name, PlaceOf(order, node.name))
                 else DirectoryNode(node.name, Arranged(ordering, directory + [node.name], node.children), PlaceOf(order, node.name));
      [row] + ArrangedBelow(ordering, directory, order, nodes[1..])
  }

  function Placed(order: Option<seq<Name>>): TreeNode -> TreeNode {
    (node: TreeNode) => node.(position := PlaceOf(order, node.name))
  }

  function Opened(ordering: Ordering, directory: Path): TreeNode -> TreeNode {
    (node: TreeNode) => if node.FileNode? then node
                        else node.(children := Arranged(ordering, directory + [node.name], node.children))
  }

  lemma {:induction false} ArrangedBelowMaps(ordering: Ordering, directory: Path, order: Option<seq<Name>>,
                                             nodes: seq<TreeNode>)
    ensures ArrangedBelow(ordering, directory, order, nodes) == Map(Opened(ordering, directory), Map(Placed(order), nodes))
  {
    if nodes != [] {
      ArrangedBelowMaps(ordering, directory, order, nodes[1..]);
      assert Map(Placed(order), nodes)[1..] == Map(Placed(order), nodes[1..]);
    }
  }

  lemma MapMembers<T(!new), U(!new)>(f: T -> U, xs: seq<T>)
    ensures forall y :: y in Map(f, xs) <==> exists x :: x in xs && f(x) == y
  {
    MapAt(f, xs);
    forall y
      ensures y in Map(f, xs) <==> exists x :: x in xs && f(x) == y
    {
      if y in Map(f, xs) {
        var i :| 0 <= i < |xs| && Map(f, xs)[i] == y;
        assert xs[i] in xs && f(xs[i]) == y;
      }
      if x :| x in xs && f(x) == y {
        var i :| 0 <= i < |xs| && xs[i] == x;
        assert Map(f, xs)[i] == y;
      }
    }
  }

  /** One row in its final form: placed by its folder's index, and the rows below it arranged. */
  function Settled(ordering: Ordering, directory: Path, node: TreeNode): TreeNode {
    Opened(ordering, directory)(Placed(ordering.stored(directory))(node))
  }

  lemma ArrangedMembers(ordering: Ordering, directory: Path, nodes: seq<TreeNode>)
    ensures forall r :: r in Arranged(ordering, directory, nodes)
                   <==> exists n :: n in nodes && r == Settled(ordering, directory, n)
  {
    var order := ordering.stored(directory);
    var settle := (n: TreeNode) => Settled(ordering, directory, n);
    ArrangedBelowMaps(ordering, directory, order, nodes);
    MapMap(Placed(order), Opened(ordering, directory), settle, nodes);
    MapMembers(settle, nodes);
    if order.Some? {
      SortMembers(ArrangedBelow(ordering, directory, order, nodes), RowsByName(order.value, ordering.implicitIndex));
    }
  }

  /** Every folder row among `rows` has the children of one of `nodes`. */
  ghost predicate ChildrenFrom(rows: seq<TreeNode>, nodes: seq<TreeNode>) {
    forall r | r in rows && r.DirectoryNode? :: exists n :: n in nodes && n.DirectoryNode? && n.children == r.children
  }

  /** `apply_order`: this level is placed and sorted first, then each folder's rows in turn. */
  method ApplyOrder(ordering: Ordering, directory: Path, nodes: seq<TreeNode>) returns (arranged: seq<TreeNode>)
    ensures arranged == Arranged(ordering, directory, nodes)
    decreases nodes, 1
  {
    if nodes == [] {
      return [];
    }
    var order := ordering.stored(directory);
    var placed := Map(Placed(order), nodes);
    PlacedChildren(order, nodes);
    ArrangedBelowMaps(ordering, directory, order, nodes);
    var ranked := placed;
    if order.Some? {
      var less := RowsByName(order.value, ordering.implicitIndex);
      ranked := SortBy(placed, less);
      MapSorted(Opened(ordering, directory), placed, less, less);
      SortMembers(placed, less);
    }
    arranged := OpenFolders(ordering, directory, ranked, nodes);
  }

  lemma PlacedChildren(order: Option<seq<Name>>, nodes: seq<TreeNode>)
    ensures ChildrenFrom(Map(Placed(order), nodes), nodes)
  {
    MapAt(Placed(order), nodes);
    forall r | r in Map(Placed(order), nodes) && r.DirectoryNode?
      ensures exists n :: n in nodes && n.DirectoryNode? && n.children == r.children
    {
      var i :| 0 <= i < |nodes| && Map(Placed(order), nodes)[i] == r;
      assert nodes[i] in nodes;
    }
  }

  method OpenFolders(ordering: Ordering, directory: Path, ranked: seq<TreeNode>, ghost nodes: seq<TreeNode>)
    returns (arranged: seq<TreeNode>)
    requires ChildrenFrom(ranked, nodes)
    ensures arranged == Map(Opened(ordering, directory), ranked)
    decreases nodes, 0
  {
    arranged := [];
    for i := 0 to |ranked|
      invariant arranged == Map(Opened(ordering, directory), ranked[..i])
    {
      var node := ranked[i];
      if node.DirectoryNode? {
        var children := ApplyOrder(ordering, directory + [node.name], node.children);
        node := node.(children := children);
      }
      MapSnoc(Opened(ordering, directory), ranked, i);
      arranged := arranged + [node];
    }
    assert ranked[..|ranked|] == ranked;
  }

  lemma MapSnoc<T, U>(f: T -> U, xs: seq<T>, i: nat)
    requires i < |xs|
    ensures Map(f, xs[..i + 1]) == Map(f, xs[..i]) + [f(xs[i])]
  {
    assert xs[..i + 1] == xs[..i] + [xs[i]];
    MapConcat(f, xs[..i], [xs[i]]);
    MapAt(f, [xs[i]]);
  }

  // Pages

  function Offset(page: nat, perPage: nat, total: nat): nat
    requires page >= 1
  {
    Min((page - 1) * perPage, total)
  }

  function PageOf<T>(rows: seq<T>, page: nat, perPage: nat): seq<T>
    requires page >= 1
  {
    var offset := Offset(page, perPage, |rows|);
    rows[offset..Min(offset + perPage, |rows|)]
  }

  predicate HasMore(total: nat, page: nat, perPage: nat)
    requires page >= 1
  {
    total > Offset(page, perPage, total) + perPage
  }

  function Pages<T>(rows: seq<T>, last: nat, perPage: nat): seq<T> {
    if last == 0 then [] else Pages(rows, last - 1, perPage) + PageOf(rows, last, perPage)
  }

  /** The pages up to any one concatenate to a prefix of the rows, without gap or repeat; and there is a next page
      exactly when the prefix is not yet the whole. */
  lemma {:induction false} PagesConcatenate<T>(rows: seq<T>, last: nat, perPage: nat)
    requires perPage >= 1
    ensures Pages(rows, last, perPage) == rows[..Min(last * perPage, |rows|)]
    ensures last >= 1 ==> (HasMore(|rows|, last, perPage) <==> |Pages(rows, last, perPage)| < |rows|)
    ensures last >= 1 && HasMore(|rows|, last, perPage) ==> PageOf(rows, last + 1, perPage) != []
  {
    if last > 0 {
      PagesConcatenate(rows, last - 1, perPage);
      assert last * perPage == (last - 1) * perPage + perPage;
    }
  }

  // The plain listing

  predicate Visible(hidden: bool, name: Name) {
    hidden || !NameSearch.IsHidden(name)
  }

  function FolderNamesOf(entries: seq<Entry>, hidden: bool): seq<Name> {
    if entries == [] then []
    else if entries[0].TreeEntry? && Visible(hidden, entries[0].name)
    then [entries[0].name] + FolderNamesOf(entries[1..], hidden)
    else FolderNamesOf(entries[1..], hidden)
  }

  function FileNamesOf(entries: seq<Entry>, hidden: bool): seq<Name> {
    if entries == [] then []
    else if entries[0].BlobEntry? && Visible(hidden, entries[0].name) && entries[0].name != ORDER_FILE_NAME
    then [entries[0].name] + FileNamesOf(entries[1..], hidden)
    else FileNamesOf(entries[1..], hidden)
  }

  /** Every row of a listing, every folder opened: folders then files, each by name. `below` is what
      `collect_subtree` builds of a folder. */
  function AllRows(entries: seq<Entry>, hidden: bool, below: Name -> seq<TreeNode>): seq<TreeNode> {
    Map((n: Name) => DirectoryNode(n, below(n), None), SortBy(FolderNamesOf(entries, hidden), Less))
      + Map((n: Name) => FileNode(n, None), SortBy(FileNamesOf(entries, hidden), Less))
  }

  /** The simple listing: build every row, order every level. */
  function WholeListing(entries: seq<Entry>, hidden: bool, below: Name -> seq<TreeNode>,
                        ordering: Option<Ordering>): seq<TreeNode> {
    var rows := AllRows(entries, hidden, below);
    if ordering.Some? then Arranged(ordering.value, [], rows) else rows
  }

  datatype RootEntry = RootDirectory(name: Name, position: Option<int>) | RootFile(name: Name, position: Option<int>)

  function Unopened(entries: seq<Entry>, hidden: bool): seq<RootEntry> {
    Map((n: Name) => RootDirectory(n, None), SortBy(FolderNamesOf(entries, hidden), Less))
      + Map((n: Name) => RootFile(n, None), SortBy(FileNamesOf(entries, hidden), Less))
  }

  function RootByName(order: seq<Name>, implicitIndex: Option<int>): (RootEntry, RootEntry) -> bool {
    (x: RootEntry, y: RootEntry) => ByName(order, implicitIndex)(x.name, y.name)
  }

  /** The row a root entry becomes once its subtree is opened. */
  function OpenRow(below: Name -> seq<TreeNode>): RootEntry -> TreeNode {
    (e: RootEntry) => if e.RootFile? then FileNode(e.name, e.position) else DirectoryNode(e.name, below(e.name), e.position)
  }

  function PlacedRoot(order: Option<seq<Name>>): RootEntry -> RootEntry {
    (e: RootEntry) => e.(position := PlaceOf(order, e.name))
  }

  /** The root entries as the page window is cut from them: placed and sorted, nothing opened. */
  function RootRows(entries: seq<Entry>, hidden: bool, ordering: Option<Ordering>): seq<RootEntry> {
    var rows := Unopened(entries, hidden);
    if ordering.None? then rows
    else
      var order := ordering.value.stored([]);
      var placed := Map(PlacedRoot(order), rows);
      if order.Some? then SortBy(placed, RootByName(order.value, ordering.value.implicitIndex)) else placed
  }

  /** A page's row in its final form: opened, and its rows below arranged. */
  function FinishRow(below: Name -> seq<TreeNode>, ordering: Option<Ordering>): RootEntry -> TreeNode {
    (e: RootEntry) =>
      var row := OpenRow(below)(e);
      if ordering.Some? then Opened(ordering.value, [])(row) else row
  }

  lemma {:induction false} MapMap<T, U, V>(f: T -> U, g: U -> V, h: T -> V, xs: seq<T>)
    requires forall x | x in xs :: h(x) == g(f(x))
    ensures Map(h, xs) == Map(g, Map(f, xs))
  {
    if xs != [] { MapMap(f, g, h, xs[1..]); }
  }

  lemma {:induction false} MapSame<T, U>(f: T -> U, g: T -> U, xs: seq<T>)
    requires forall x | x in xs :: f(x) == g(x)
    ensures Map(f, xs) == Map(g, xs)
  {
    if xs != [] { MapSame(f, g, xs[1..]); }
  }

  /** Opening the unopened rows gives all rows. */
  lemma UnopenedRows(entries: seq<Entry>, hidden: bool, below: Name -> seq<TreeNode>)
    ensures Map(OpenRow(below), Unopened(entries, hidden)) == AllRows(entries, hidden, below)
  {
    var folders, files := SortBy(FolderNamesOf(entries, hidden), Less), SortBy(FileNamesOf(entries, hidden), Less);
    MapConcat(OpenRow(below), Map((n: Name) => RootDirectory(n, None), folders), Map((n: Name) => RootFile(n, None), files));
    MapMap((n: Name) => RootDirectory(n, None), OpenRow(below), (n: Name) => DirectoryNode(n, below(n), None), folders);
    MapMap((n: Name) => RootFile(n, None), OpenRow(below), (n: Name) => FileNode(n, None), files);
  }

  /** Sorting root entries before they are opened, and finishing each row afterwards, is building every row and
      ordering every level. */
  lemma RootRowsFinish(entries: seq<Entry>, hidden: bool, below: Name -> seq<TreeNode>, ordering: Option<Ordering>)
    ensures Map(FinishRow(below, ordering), RootRows(entries, hidden, ordering)) == WholeListing(entries, hidden, below, ordering)
  {
    var rows := Unopened(entries, hidden);
    var finish := FinishRow(below, ordering);
    UnopenedRows(entries, hidden, below);
    if ordering.None? {
      MapSame(finish, OpenRow(below), rows);
    } else {
      var order := ordering.value.stored([]);
      var placed := Map(PlacedRoot(order), rows);
      var all := AllRows(entries, hidden, below);
      ArrangedBelowMaps(ordering.value, [], order, all);
      var place := (e: RootEntry) => Placed(order)(OpenRow(below)(e));
      MapMap(OpenRow(below), Placed(order), place, rows);
      MapMap(PlacedRoot(order), OpenRow(below), place, rows);
      MapMap(OpenRow(below), Opened(ordering.value, []), finish, placed);
      if order.Some? {
        MapSorted(finish, placed, RootByName(order.value, ordering.value.implicitIndex),
                  RowsByName(order.value, ordering.value.implicitIndex));
      }
    }
  }

  lemma RootRowsCount(entries: seq<Entry>, hidden: bool, ordering: Option<Ordering>)
    ensures |RootRows(entries, hidden, ordering)| == |FolderNamesOf(entries, hidden)| + |FileNamesOf(entries, hidden)|
  {
    var folders, files := SortBy(FolderNamesOf(entries, hidden), Less), SortBy(FileNamesOf(entries, hidden), Less);
    SortMembers(FolderNamesOf(entries, hidden), Less);
    SortMembers(FileNamesOf(entries, hidden), Less);
    MapAt((n: Name) => RootDirectory(n, None), folders);
    MapAt((n: Name) => RootFile(n, None), files);
    if ordering.Some? {
      var order := ordering.value.stored([]);
      MapAt(PlacedRoot(order), Unopened(entries, hidden));
      if order.Some? {
        SortMembers(Map(PlacedRoot(order), Unopened(entries, hidden)), RootByName(order.value, ordering.value.implicitIndex));
      }
    }
  }

  /** The plain listing. Page arithmetic and root order are settled before any subtree is opened; the page is the one
      the simple listing would be cut into. */
  method ListFiles(entries: seq<Entry>, hidden: bool, below: Name -> seq<TreeNode>, ordering: Option<Ordering>,
                   page: nat, perPage: nat)
    returns (nodes: seq<TreeNode>, hasMore: bool)
    requires page >= 1
    ensures nodes == PageOf(WholeListing(entries, hidden, below, ordering), page, perPage)
    ensures hasMore == HasMore(|WholeListing(entries, hidden, below, ordering)|, page, perPage)
  {
    var rootDirs, rootFiles := CollectRoot(entries, hidden);
    var total := |rootDirs| + |rootFiles|;
    var offset := Offset(page, perPage, total);
    hasMore := total > offset + perPage;
    var rootEntries := SortRoot(rootDirs, rootFiles, entries, hidden, ordering);
    RootRowsCount(entries, hidden, ordering);
    RootRowsFinish(entries, hidden, below, ordering);
    MapSlice(FinishRow(below, ordering), rootEntries, offset, Min(offset + perPage, total));
    nodes := FinishPage(rootEntries[offset..Min(offset + perPage, total)], below, ordering);
  }

  method SortRoot(rootDirs: seq<Name>, rootFiles: seq<Name>, ghost entries: seq<Entry>, ghost hidden: bool,
                  ordering: Option<Ordering>)
    returns (rootEntries: seq<RootEntry>)
    requires rootDirs == FolderNamesOf(entries, hidden) && rootFiles == FileNamesOf(entries, hidden)
    ensures rootEntries == RootRows(entries, hidden, ordering)
  {
    rootEntries := Map((n: Name) => RootDirectory(n, None), SortBy(rootDirs, Less))
      + Map((n: Name) => RootFile(n, None), SortBy(rootFiles, Less));
    if ordering.Some? {
      var order := ordering.value.stored([]);
      rootEntries := Map(PlacedRoot(order), rootEntries);
      if order.Some? {
        rootEntries := SortBy(rootEntries, RootByName(order.value, ordering.value.implicitIndex));
      }
    }
  }

  method CollectRoot(entries: seq<Entry>, hidden: bool) returns (rootDirs: seq<Name>, rootFiles: seq<Name>)
    ensures rootDirs == FolderNamesOf(entries, hidden) && rootFiles == FileNamesOf(entries, hidden)
  {
    rootDirs, rootFiles := [], [];
    for i := 0 to |entries|
      invariant rootDirs + FolderNamesOf(entries[i..], hidden) == FolderNamesOf(entries, hidden)
      invariant rootFiles + FileNamesOf(entries[i..], hidden) == FileNamesOf(entries, hidden)
    {
      assert entries[i..][1..] == entries[i + 1..];
      if !hidden && NameSearch.IsHidden(entries[i].name) {
        continue;
      }
      match entries[i] {
        case TreeEntry(name, _) => rootDirs := rootDirs + [name];
        case BlobEntry(name) => if name != ORDER_FILE_NAME { rootFiles := rootFiles + [name]; }
        case LinkEntry(_) =>
      }
    }
    assert entries[|entries|..] == [];
  }

  /** The page's rows: subtrees opened, then the levels below them ordered. */
  method FinishPage(page: seq<RootEntry>, below: Name -> seq<TreeNode>, ordering: Option<Ordering>)
    returns (nodes: seq<TreeNode>)
    ensures nodes == Map(FinishRow(below, ordering), page)
  {
    nodes := [];
    for i := 0 to |page|
      invariant nodes == Map(OpenRow(below), page[..i])
    {
      MapSnoc(OpenRow(below), page, i);
      match page[i] {
        case RootFile(name, position) => nodes := nodes + [FileNode(name, position)];
        case RootDirectory(name, position) => nodes := nodes + [DirectoryNode(name, below(name), position)];
      }
    }
    assert page[..|page|] == page;
    if ordering.None? {
      MapSame(FinishRow(below, ordering), OpenRow(below), page);
      return;
    }
    MapMap(OpenRow(below), Opened(ordering.value, []), FinishRow(below, ordering), page);
    var rows := nodes;
    nodes := [];
    for i := 0 to |rows|
      invariant nodes == Map(Opened(ordering.value, []), rows[..i])
    {
      MapSnoc(Opened(ordering.value, []), rows, i);
      var node := rows[i];
      if node.DirectoryNode? {
        var children := ApplyOrder(ordering.value, [node.name], node.children);
        assert [] + [node.name] == [node.name];
        node := node.(children := children);
      }
      nodes := nodes + [node];
    }
    assert rows[..|rows|] == rows;
  }
}
