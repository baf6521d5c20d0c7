/** From a git tree's walk to the listing built of it. */
module Subtrees {
  import opened Wrappers
  import opened Paths
  import opened Sorting
  import opened Bytewise
  import opened TreeBuilding
  import opened NameSearch
  import Listings

  /** A tree object names nothing twice, at any level. */
  ghost predicate ValidTree(entries: seq<Entry>) {
    && (forall i, j | 0 <= i < j < |entries| :: entries[i].name != entries[j].name)
    && (forall e | e in entries && e.TreeEntry? :: ValidTree(e.entries))
  }

  /** Where a file is, nothing else is, and nothing is beneath it. */
  lemma {:induction false} FileStandsAlone(entries: seq<Entry>, p: Path, q: Path)
    requires ValidTree(entries) && HoldsFile(entries, p) && p <= q
    ensures HoldsFile(entries, q) ==> q == p
    ensures !HoldsFolder(entries, q)
    decreases |p|
  {
    var e :| e in entries && e.name == p[0] && if |p| == 1 then e.BlobEntry? else e.TreeEntry? && HoldsFile(e.entries, p[1..]);
    assert forall f | f in entries && f.name == q[0] :: f == e by {
      forall f | f in entries && f.name == q[0]
        ensures f == e
      {
        var i :| 0 <= i < |entries| && entries[i] == e;
        var j :| 0 <= j < |entries| && entries[j] == f;
      }
    }
    if |p| > 1 {
      assert p[1..] <= q[1..];
      FileStandsAlone(e.entries, p[1..], q[1..]);
    }
  }

  lemma PathsApart(entries: seq<Entry>, p: Path, q: Path)
    requires ValidTree(entries) && HoldsFile(entries, p)
    ensures HoldsFile(entries, q) ==> !Under(q, p)
    ensures HoldsFolder(entries, q) ==> q != p && !Under(q, p)
  {
    if p <= q { FileStandsAlone(entries, p, q); }
  }

  /** What a search finds is what `build_tree` may be given. */
  lemma SearchCompatible(query: Query, entries: seq<Entry>, inside: bool)
    requires ValidTree(entries)
    ensures var found := Search(query, entries, [], inside);
      Compatible(SetOf(found.files), SetOf(found.folders) + SetOf(found.atLimit))
  {
    var found := Search(query, entries, [], inside);
    FoundHolds(query, entries, inside);
    FilesApart(entries, SetOf(found.files));
    FoldersApart(entries, SetOf(found.files), SetOf(found.folders) + SetOf(found.atLimit));
  }

  lemma FilesApart(entries: seq<Entry>, files: set<Path>)
    requires ValidTree(entries) && forall p | p in files :: HoldsFile(entries, p)
    ensures [] !in files && forall p, q | p in files && q in files :: !Under(p, q)
  {
    forall p, q | p in files && q in files
      ensures !Under(p, q)
    {
      PathsApart(entries, q, p);
    }
  }

  lemma FoldersApart(entries: seq<Entry>, files: set<Path>, folders: set<Path>)
    requires ValidTree(entries)
    requires (forall p | p in files :: HoldsFile(entries, p)) && (forall s | s in folders :: HoldsFolder(entries, s))
    ensures [] !in folders && forall s, p | s in folders && p in files :: s != p && !Under(s, p)
  {
    forall s | s in folders
      ensures s != [] && forall p | p in files :: s != p && !Under(s, p)
    {
      FolderApart(entries, files, s);
    }
  }

  lemma FolderApart(entries: seq<Entry>, files: set<Path>, s: Path)
    requires ValidTree(entries) && HoldsFolder(entries, s) && forall p | p in files :: HoldsFile(entries, p)
    ensures s != [] && forall p | p in files :: s != p && !Under(s, p)
  {
    forall p | p in files
      ensures s != p && !Under(s, p)
    {
      PathsApart(entries, p, s);
    }
  }

  lemma FoundHolds(query: Query, entries: seq<Entry>, inside: bool)
    ensures var found := Search(query, entries, [], inside);
      && (forall p | p in found.files :: HoldsFile(entries, p))
      && (forall p | p in found.folders :: HoldsFolder(entries, p))
      && (forall p | p in found.atLimit :: HoldsFolder(entries, p))
  {
    var found := Search(query, entries, [], inside);
    FoundBeneath(query, entries, [], inside);
    forall p | p in found.files ensures HoldsFile(entries, p) {
      assert [] + p == p;
      FoundFileIff(query, entries, [], inside, p);
    }
    forall p | p in found.folders ensures HoldsFolder(entries, p) {
      assert [] + p == p;
      FoundFolderIff(query, entries, [], inside, p);
    }
    forall p | p in found.atLimit ensures HoldsFolder(entries, p) {
      assert [] + p == p;
      FoundAtLimitIff(query, entries, [], inside, p);
    }
  }

  /** The listing a name search ends with, before ordering and paging: its files are exactly those the search is for. */
  lemma SearchListingFiles(query: Query, entries: seq<Entry>, nodes: seq<TreeNode>, path: Path)
    requires ValidTree(entries) && path != []
    requires var found := Search(query, entries, [], false);
      Listing(nodes, SetOf(found.files), SetOf(found.folders) + SetOf(found.atLimit), None)
    ensures Shows(nodes, path, AFile) <==> HoldsFile(entries, path) && IsFound(query, 0, false, path)
  {
    var found := Search(query, entries, [], false);
    ListingShows(nodes, SetOf(found.files), SetOf(found.folders) + SetOf(found.atLimit), None, path, AFile);
    FoundFileIff(query, entries, [], false, path);
    assert [] + path == path;
  }

  function Everything(maxDepth: Option<nat>, hidden: bool): Query {
    Query((name: Name) => true, maxDepth, hidden)
  }

  /** `collect_flat_with_stubs`: the walk that passes no file or folder over. */
  function Collected(entries: seq<Entry>, maxDepth: Option<nat>, hidden: bool): Found {
    Search(Everything(maxDepth, hidden), entries, [], true)
  }

  /** The subtree listing: its files are exactly the shown ones within the depth, order indexes left out. */
  lemma SubtreeFiles(entries: seq<Entry>, maxDepth: Option<nat>, hidden: bool, nodes: seq<TreeNode>, path: Path)
    requires ValidTree(entries) && path != []
    requires var found := Collected(entries, maxDepth, hidden);
      Listing(nodes, SetOf(found.files), SetOf(found.atLimit), maxDepth)
    ensures Shows(nodes, path, AFile) <==>
      && HoldsFile(entries, path) && (hidden || forall name | name in path :: !NameSearch.IsHidden(name))
      && Within(|path|, maxDepth) && path[|path| - 1] != ORDER_FILE_NAME
  {
    var found := Collected(entries, maxDepth, hidden);
    ListingShows(nodes, SetOf(found.files), SetOf(found.atLimit), maxDepth, path, AFile);
    CollectedFileIff(entries, maxDepth, hidden, path);
  }

  lemma CollectedFileIff(entries: seq<Entry>, maxDepth: Option<nat>, hidden: bool, path: Path)
    requires path != []
    ensures path in Collected(entries, maxDepth, hidden).files <==>
      && HoldsFile(entries, path) && (hidden || forall name | name in path :: !NameSearch.IsHidden(name))
      && Within(|path|, maxDepth) && path[|path| - 1] != ORDER_FILE_NAME
  {
    assert [] + path == path;
    FoundFileIff(Everything(maxDepth, hidden), entries, [], true, path);
  }

  /** Something below the folder, or the folder itself at the depth limit, made it into the walk's result. */
  predicate LeavesTrace(found: Found, folder: Path) {
    (exists p | p in found.files :: Under(p, folder)) || (exists s | s in found.atLimit :: folder <= s)
  }

  /** A folder inside a subtree is shown only for what it leads to, unlike one at the root, which always has a row. */
  lemma SubtreeFolderIff(entries: seq<Entry>, maxDepth: Option<nat>, hidden: bool, nodes: seq<TreeNode>, folder: Path)
    requires ValidTree(entries) && folder != []
    requires var found := Collected(entries, maxDepth, hidden);
      Listing(nodes, SetOf(found.files), SetOf(found.atLimit), maxDepth)
    ensures Shows(nodes, folder, ADirectory) <==> LeavesTrace(Collected(entries, maxDepth, hidden), folder)
  {
    var query := Everything(maxDepth, hidden);
    var found := Collected(entries, maxDepth, hidden);
    ListingShows(nodes, SetOf(found.files), SetOf(found.atLimit), maxDepth, folder, ADirectory);
    SearchCompatible(query, entries, true);
    FoundWithin(query, entries, true);
    WantedTrace(found, maxDepth, folder);
  }

  lemma WantedTrace(found: Found, maxDepth: Option<nat>, folder: Path)
    requires Compatible(SetOf(found.files), SetOf(found.folders) + SetOf(found.atLimit))
    requires forall p | p in found.files :: Within(|p|, maxDepth)
    ensures Wanted(SetOf(found.files), SetOf(found.atLimit), maxDepth, folder) == Some(ADirectory) <==> LeavesTrace(found, folder)
  {
    var files, stubs := SetOf(found.files), SetOf(found.atLimit);
    assert HoldsListed(files, folder) <==> exists p :: p in found.files && Under(p, folder) by {
      if p :| p in found.files && Under(p, folder) { assert p in files; }
      if p :| p in files && Under(p, folder) { assert p in found.files; }
    }
    assert HoldsStub(stubs, folder) <==> exists s :: s in found.atLimit && folder <= s by {
      if s :| s in found.atLimit && folder <= s { assert s in stubs; }
      if s :| s in stubs && folder <= s { assert s in found.atLimit; }
    }
    if p :| p in files && Under(p, folder) {
      assert Within(|folder|, maxDepth) && folder !in files;
    }
    if s :| s in stubs && folder <= s {
      assert s in SetOf(found.folders) + stubs;
      assert folder == s || Under(s, folder);
    }
  }

  lemma FoundWithin(query: Query, entries: seq<Entry>, inside: bool)
    ensures forall p | p in Search(query, entries, [], inside).files :: Within(|p|, query.maxDepth)
  {
    forall p | p in Search(query, entries, [], inside).files
      ensures Within(|p|, query.maxDepth)
    {
      FileWithin(query, entries, inside, p);
    }
  }

  lemma FileWithin(query: Query, entries: seq<Entry>, inside: bool, p: Path)
    requires p in Search(query, entries, [], inside).files
    ensures Within(|p|, query.maxDepth)
  {
    FoundBeneath(query, entries, [], inside);
    assert [] + p == p;
    FoundFileIff(query, entries, [], inside, p);
  }

  // The whole listing

  function OneLevelDown(maxDepth: Option<nat>): Option<nat>
    requires maxDepth != Some(0)
  {
    if maxDepth.Some? then Some(maxDepth.value - 1) else None
  }

  /** What `collect_subtree` makes of every folder at the root of a listing; at a depth of one none is opened. */
  ghost predicate Collects(below: Name -> seq<TreeNode>, entries: seq<Entry>, maxDepth: Option<nat>, hidden: bool)
    requires maxDepth != Some(0)
  {
    forall e | e in entries && e.TreeEntry? :: CollectsOf(below(e.name), e.entries, maxDepth, hidden)
  }

  ghost predicate CollectsOf(nodes: seq<TreeNode>, entries: seq<Entry>, maxDepth: Option<nat>, hidden: bool)
    requires maxDepth != Some(0)
  {
    if maxDepth == Some(1) then nodes == []
    else
      var found := Collected(entries, OneLevelDown(maxDepth), hidden);
      Listing(nodes, SetOf(found.files), SetOf(found.atLimit), OneLevelDown(maxDepth))
  }

  predicate AllVisible(hidden: bool, path: Path) {
    hidden || forall name | name in path :: name == [] || name[0] != '.'
  }

  /** What a listing shows at a path: the visible files within the depth, indexes left out; every visible root folder, and
      below it the folders that lead to something. */
  ghost predicate Lists(entries: seq<Entry>, maxDepth: Option<nat>, hidden: bool, path: Path, kind: Kind)
    requires maxDepth != Some(0) && path != []
  {
    match kind
    case AFile =>
      HoldsFile(entries, path) && AllVisible(hidden, path) && Within(|path|, maxDepth) && path[|path| - 1] != ORDER_FILE_NAME
    case ADirectory =>
      exists e | e in entries && e.TreeEntry? && e.name == path[0] ::
        && AllVisible(hidden, [e.name])
        && (|path| > 1 ==> maxDepth != Some(1) && LeavesTrace(Collected(e.entries, OneLevelDown(maxDepth), hidden), path[1..]))
  }

  /** The whole plain listing, ordered level by level or not, of which `list_files` cuts its page. */
  lemma WholeListingShows(entries: seq<Entry>, maxDepth: Option<nat>, hidden: bool, below: Name -> seq<TreeNode>,
                          ordering: Option<Listings.Ordering>, path: Path, kind: Kind)
    requires ValidTree(entries) && maxDepth != Some(0) && path != [] && Collects(below, entries, maxDepth, hidden)
    ensures Shows(Listings.WholeListing(entries, hidden, below, ordering), path, kind)
       <==> Lists(entries, maxDepth, hidden, path, kind)
  {
    var rows := Listings.AllRows(entries, hidden, below);
    if ordering.Some? { ArrangedShows(ordering.value, [], rows, path, kind); }
    RowMembers(entries, hidden, below);
    if |path| == 1 {
      RootShows(entries, maxDepth, hidden, below, path, kind);
    } else {
      BelowShows(entries, maxDepth, hidden, below, path, kind);
    }
  }

  lemma RootShows(entries: seq<Entry>, maxDepth: Option<nat>, hidden: bool, below: Name -> seq<TreeNode>, path: Path,
                  kind: Kind)
    requires maxDepth != Some(0) && |path| == 1
    requires forall n :: n in Listings.AllRows(entries, hidden, below) <==> IsRow(entries, hidden, below, n)
    ensures Shows(Listings.AllRows(entries, hidden, below), path, kind) <==> Lists(entries, maxDepth, hidden, path, kind)
  {
    var rows := Listings.AllRows(entries, hidden, below);
    assert path == [path[0]];
    if e :| e in entries && e.TreeEntry? && e.name == path[0] && Listings.Visible(hidden, e.name) {
      assert IsRow(entries, hidden, below, DirectoryNode(e.name, below(e.name), None));
    }
    if e :| e in entries && e.BlobEntry? && e.name == path[0] && Listings.Visible(hidden, e.name) && e.name != ORDER_FILE_NAME {
      assert IsRow(entries, hidden, below, FileNode(e.name, None));
    }
  }

  lemma BelowShows(entries: seq<Entry>, maxDepth: Option<nat>, hidden: bool, below: Name -> seq<TreeNode>, path: Path,
                   kind: Kind)
    requires ValidTree(entries) && maxDepth != Some(0) && |path| > 1 && Collects(below, entries, maxDepth, hidden)
    requires forall n :: n in Listings.AllRows(entries, hidden, below) <==> IsRow(entries, hidden, below, n)
    ensures Shows(Listings.AllRows(entries, hidden, below), path, kind) <==> Lists(entries, maxDepth, hidden, path, kind)
  {
    var rows := Listings.AllRows(entries, hidden, below);
    forall e | e in entries && e.TreeEntry? && e.name == path[0]
      ensures Listings.Visible(hidden, e.name) && Shows(below(e.name), path[1..], kind) <==> FolderLists(e, maxDepth, hidden, path, kind)
    {
      FolderShows(e, maxDepth, hidden, below(e.name), path, kind);
    }
    forall e | e in entries && e.TreeEntry? && Listings.Visible(hidden, e.name)
      ensures DirectoryNode(e.name, below(e.name), None) in rows
    {
      assert IsRow(entries, hidden, below, DirectoryNode(e.name, below(e.name), None));
    }
    assert Shows(rows, path, kind)
      <==> exists e | e in entries && e.TreeEntry? && e.name == path[0] :: Listings.Visible(hidden, e.name) && Shows(below(e.name), path[1..], kind);
  }

  /** What one root folder contributes beneath itself. */
  ghost predicate FolderLists(e: Entry, maxDepth: Option<nat>, hidden: bool, path: Path, kind: Kind)
    requires e.TreeEntry? && maxDepth != Some(0) && |path| > 1
  {
    match kind
    case AFile =>
      HoldsFile(e.entries, path[1..]) && AllVisible(hidden, path) && Within(|path|, maxDepth) && path[|path| - 1] != ORDER_FILE_NAME
    case ADirectory =>
      && Listings.Visible(hidden, e.name) && maxDepth != Some(1)
      && LeavesTrace(Collected(e.entries, OneLevelDown(maxDepth), hidden), path[1..])
  }

  lemma FolderShows(e: Entry, maxDepth: Option<nat>, hidden: bool, nodes: seq<TreeNode>, path: Path, kind: Kind)
    requires e.TreeEntry? && ValidTree(e.entries) && maxDepth != Some(0) && |path| > 1 && e.name == path[0]
    requires CollectsOf(nodes, e.entries, maxDepth, hidden)
    ensures Listings.Visible(hidden, e.name) && Shows(nodes, path[1..], kind) <==> FolderLists(e, maxDepth, hidden, path, kind)
  {
    if maxDepth != Some(1) {
      assert AllVisible(hidden, path) <==> Listings.Visible(hidden, path[0]) && AllVisible(hidden, path[1..]) by {
        assert path == [path[0]] + path[1..];
      }
      match kind {
        case AFile => SubtreeFiles(e.entries, OneLevelDown(maxDepth), hidden, nodes, path[1..]);
        case ADirectory => SubtreeFolderIff(e.entries, OneLevelDown(maxDepth), hidden, nodes, path[1..]);
      }
    }
  }

  ghost predicate IsRow(entries: seq<Entry>, hidden: bool, below: Name -> seq<TreeNode>, n: TreeNode) {
    exists e | e in entries && e.name == n.name && Listings.Visible(hidden, e.name) ::
      || (e.TreeEntry? && n == DirectoryNode(e.name, below(e.name), None))
      || (e.BlobEntry? && e.name != ORDER_FILE_NAME && n == FileNode(e.name, None))
  }

  lemma RowMembers(entries: seq<Entry>, hidden: bool, below: Name -> seq<TreeNode>)
    ensures forall n :: n in Listings.AllRows(entries, hidden, below) <==> IsRow(entries, hidden, below, n)
  {
    var folders, files := Listings.FolderNamesOf(entries, hidden), Listings.FileNamesOf(entries, hidden);
    Listings.SortMembers(folders, Less);
    Listings.SortMembers(files, Less);
    Listings.MapMembers((n: Name) => DirectoryNode(n, below(n), None), SortBy(folders, Less));
    Listings.MapMembers((n: Name) => FileNode(n, None), SortBy(files, Less));
    forall n
      ensures n in Listings.AllRows(entries, hidden, below) <==> IsRow(entries, hidden, below, n)
    {
      RootNames(entries, hidden, n.name);
    }
  }

  lemma {:induction false} RootNames(entries: seq<Entry>, hidden: bool, name: Name)
    ensures name in Listings.FolderNamesOf(entries, hidden)
       <==> Listings.Visible(hidden, name) && exists e :: e in entries && e.TreeEntry? && e.name == name
    ensures name in Listings.FileNamesOf(entries, hidden)
       <==> Listings.Visible(hidden, name) && name != ORDER_FILE_NAME && exists e :: e in entries && e.BlobEntry? && e.name == name
  {
    if entries != [] {
      RootNames(entries[1..], hidden, name);
      assert entries == [entries[0]] + entries[1..];
    }
  }

  /** Ordering moves rows about within their level and shows nothing more and nothing less. */
  lemma {:induction false} ArrangedShows(ordering: Listings.Ordering, directory: Path, nodes: seq<TreeNode>, path: Path,
                                         kind: Kind)
    ensures Shows(Listings.Arranged(ordering, directory, nodes), path, kind) <==> Shows(nodes, path, kind)
    decreases |path|
  {
    if path != [] {
      var arranged := Listings.Arranged(ordering, directory, nodes);
      Listings.ArrangedMembers(ordering, directory, nodes);
      if |path| > 1 {
        forall n | n in nodes && n.DirectoryNode?
          ensures Shows(Listings.Arranged(ordering, directory + [n.name], n.children), path[1..], kind)
             <==> Shows(n.children, path[1..], kind)
        {
          ArrangedShows(ordering, directory + [n.name], n.children, path[1..], kind);
        }
      }
      forall n | n in nodes
        ensures Listings.Settled(ordering, directory, n) in arranged
      {
      }
      forall r | r in arranged
        ensures exists n :: n in nodes && r == Listings.Settled(ordering, directory, n)
      {
      }
    }
  }

  /** A folder holding nothing but its order index: shown as a row at the root, gone one level down. */
  lemma BareFolderShownAtRootOnly(nodes: seq<TreeNode>)
    requires var below := [TreeEntry("drafts", [BlobEntry(ORDER_FILE_NAME)])];
      Listing(nodes, SetOf(Collected(below, None, false).files), SetOf(Collected(below, None, false).atLimit), None)
    ensures Listings.FolderNamesOf([TreeEntry("drafts", [BlobEntry(ORDER_FILE_NAME)])], false) == ["drafts"]
    ensures !Shows(nodes, ["drafts"], ADirectory)
  {
    var inner := [BlobEntry(ORDER_FILE_NAME)];
    var below := [TreeEntry("drafts", inner)];
    assert ValidTree(inner) && ValidTree(below);
    var query := Everything(None, false);
    assert inner[1..] == [] && below[1..] == [];
    assert Search(query, inner, ["drafts"], true) == NOTHING;
    assert [] + ["drafts"] == ["drafts"];
    assert SearchEntry(query, below[0], [], true) == NOTHING;
    assert Search(query, below[1..], [], true) == NOTHING;
    assert Collected(below, None, false) == NOTHING;
    SubtreeFolderIff(below, None, false, nodes, ["drafts"]);
  }
}
