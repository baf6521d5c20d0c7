/** From flat paths and directory stubs to the nested listing: `build_tree`. */
module TreeBuilding {
  import opened Wrappers
  import opened Paths
  import opened Sorting
  import opened Bytewise

  datatype Builder = FileLeaf | Folder(children: map<Name, Builder>)

  /** A row of a listing; `position` is its place in the folder's order index, once asked for. */
  datatype TreeNode =
    | FileNode(name: Name, position: Option<int>)
    | DirectoryNode(name: Name, children: seq<TreeNode>, position: Option<int>)

  datatype Kind = AFile | ADirectory

  const EMPTY := Folder(map[])

  // Inserting

  /** A path's file, its folders made as needed; past the depth limit only the folder at the limit is. */
  function Insert(dir: Builder, path: Path, maxDepth: Option<nat>, depth: nat): (grown: Builder)
    requires dir.Folder?
    ensures grown.Folder?
    decreases |path|
  {
    if path == [] then dir
    else if |path| == 1 then Folder(dir.children[path[0] := FileLeaf])
    else
      var child := if path[0] in dir.children then dir.children[path[0]] else EMPTY;
      if maxDepth.Some? && depth >= maxDepth.value then Folder(dir.children[path[0] := child])
      else if child.Folder? then Folder(dir.children[path[0] := Insert(child, path[1..], maxDepth, depth + 1)])
      else dir
  }

  function InsertStub(dir: Builder, path: Path): (grown: Builder)
    requires dir.Folder?
    ensures grown.Folder?
    decreases |path|
  {
    if path == [] then dir
    else
      var child := if path[0] in dir.children then dir.children[path[0]] else EMPTY;
      if |path| == 1 then Folder(dir.children[path[0] := child])
      else if child.Folder? then Folder(dir.children[path[0] := InsertStub(child, path[1..])])
      else dir
  }

  /** What is at a path beneath a folder. */
  function Find(dir: Builder, path: Path): Option<Kind>
    requires dir.Folder?
    decreases |path|
  {
    if path == [] then Some(ADirectory)
    else if path[0] !in dir.children then None
    else
      var child := dir.children[path[0]];
      if child.Folder? then Find(child, path[1..]) else if |path| == 1 then Some(AFile) else None
  }

  lemma FindName(dir: Builder, name: Name)
    requires dir.Folder?
    ensures Find(dir, [name]) == if name in dir.children then Some(KindOf(dir.children[name])) else None
  {
    assert [name][1..] == [];
  }

  function KindOf(b: Builder): Kind {
    if b.Folder? then ADirectory else AFile
  }

  /** How much of a path the limit lets in when its first component sits at `depth`. */
  function Reaching(path: Path, maxDepth: Option<nat>, depth: nat): nat {
    if maxDepth.None? || |path| <= 1 then |path|
    else if depth >= maxDepth.value then 1
    else if |path| <= maxDepth.value - depth + 1 then |path| else maxDepth.value - depth + 1
  }

  /** The path's own folders are free to be folders, and it is free to be a file. */
  predicate Fits(dir: Builder, path: Path)
    requires dir.Folder?
  {
    Find(dir, path) != Some(ADirectory) && forall i | 0 < i < |path| :: Find(dir, path[..i]) != Some(AFile)
  }

  lemma FitsChild(dir: Builder, path: Path)
    requires dir.Folder? && Fits(dir, path) && |path| > 1
    ensures path[0] in dir.children ==> dir.children[path[0]].Folder? && Fits(dir.children[path[0]], path[1..])
    ensures Fits(EMPTY, path[1..])
  {
    assert path[..1] == [path[0]] && Find(dir, path[..1]) != Some(AFile);
    if path[0] in dir.children {
      var child := dir.children[path[0]];
      assert child.Folder?;
      forall i | 0 < i < |path[1..]|
        ensures Find(child, path[1..][..i]) != Some(AFile)
      {
        assert path[..i + 1][1..] == path[1..][..i] && Find(dir, path[..i + 1]) != Some(AFile);
      }
    }
  }

  /** Inserting changes what is at the path's own prefixes and nothing else. */
  lemma {:induction false} FindInserted(dir: Builder, path: Path, maxDepth: Option<nat>, depth: nat, q: Path)
    requires dir.Folder? && path != [] && q != [] && Fits(dir, path)
    ensures var k := Reaching(path, maxDepth, depth);
      Find(Insert(dir, path, maxDepth, depth), q) ==
        if q == path && k == |path| then Some(AFile)
        else if q != path && q <= path[..k] then Some(ADirectory) else Find(dir, q)
    decreases |path|
  {
    if |path| == 1 {
      FindName(dir, path[0]);
      assert path == [path[0]];
      assert q[0] == path[0] && |q| == 1 ==> q == path;
    } else {
      FitsChild(dir, path);
      var child := if path[0] in dir.children then dir.children[path[0]] else EMPTY;
      var k := Reaching(path, maxDepth, depth);
      if q[0] == path[0] {
        assert q == [q[0]] + q[1..] && path == [path[0]] + path[1..];
        assert path[..k] == [path[0]] + path[1..][..k - 1];
        if q[1..] == [] {
        } else if maxDepth.Some? && depth >= maxDepth.value {
          assert Find(EMPTY, q[1..]) == None;
        } else {
          assert Reaching(path[1..], maxDepth, depth + 1) == k - 1;
          FindInserted(child, path[1..], maxDepth, depth + 1, q[1..]);
          assert Find(EMPTY, q[1..]) == None;
        }
      }
    }
  }

  lemma {:induction false} FindStubbed(dir: Builder, path: Path, q: Path)
    requires dir.Folder? && path != [] && q != []
    requires forall i | 0 < i <= |path| :: Find(dir, path[..i]) != Some(AFile)
    ensures Find(InsertStub(dir, path), q) == if q <= path then Some(ADirectory) else Find(dir, q)
    decreases |path|
  {
    var child := if path[0] in dir.children then dir.children[path[0]] else EMPTY;
    FindName(dir, path[0]);
    assert path[..1] == [path[0]] && Find(dir, path[..1]) != Some(AFile) && child.Folder?;
    if q[0] == path[0] {
      assert q == [q[0]] + q[1..] && path == [path[0]] + path[1..];
      if |path| > 1 && q[1..] != [] {
        forall i | 0 < i <= |path[1..]|
          ensures Find(child, path[1..][..i]) != Some(AFile)
        {
          assert path[..i + 1][1..] == path[1..][..i] && Find(dir, path[..i + 1]) != Some(AFile);
        }
        FindStubbed(child, path[1..], q[1..]);
      }
    }
  }

  // What the listing shows

  /** No file is a folder of another, and no stub is a file or sits beneath one. */
  predicate Compatible(flat: set<Path>, stubs: set<Path>) {
    && [] !in flat && [] !in stubs
    && (forall p, q | p in flat && q in flat :: !Under(p, q))
    && (forall s, p | s in stubs && p in flat :: s != p && !Under(s, p))
  }

  /** Depth 0 lets in as much as depth 1. */
  predicate Within(n: nat, maxDepth: Option<nat>) {
    maxDepth.None? || n <= maxDepth.value || n <= 1
  }

  predicate HoldsListed(flat: set<Path>, q: Path) {
    exists p | p in flat :: Under(p, q)
  }

  predicate HoldsStub(stubs: set<Path>, q: Path) {
    exists s | s in stubs :: q <= s
  }

  /** Every path within the depth is a file, every folder of a path within the depth a directory, and every stub
      and its folders directories. */
  function Wanted(flat: set<Path>, stubs: set<Path>, maxDepth: Option<nat>, q: Path): Option<Kind> {
    if q in flat && Within(|q|, maxDepth) then Some(AFile)
    else if (HoldsListed(flat, q) && Within(|q|, maxDepth)) || HoldsStub(stubs, q) then Some(ADirectory)
    else None
  }

  ghost predicate Describes(dir: Builder, flat: set<Path>, stubs: set<Path>, maxDepth: Option<nat>) {
    dir.Folder? && forall q: Path | q != [] :: Find(dir, q) == Wanted(flat, stubs, maxDepth, q)
  }

  lemma PathInserted(dir: Builder, flat: set<Path>, maxDepth: Option<nat>, path: Path)
    requires Describes(dir, flat, {}, maxDepth) && Compatible(flat + {path}, {})
    ensures Describes(Insert(dir, path, maxDepth, 1), flat + {path}, {}, maxDepth)
  {
    assert path in flat + {path};
    forall i | 0 < i < |path|
      ensures Find(dir, path[..i]) != Some(AFile)
    {
      assert Under(path, path[..i]);
      assert Find(dir, path[..i]) == Wanted(flat, {}, maxDepth, path[..i]);
    }
    assert Find(dir, path) == Wanted(flat, {}, maxDepth, path);
    forall q: Path | q != []
      ensures Find(Insert(dir, path, maxDepth, 1), q) == Wanted(flat + {path}, {}, maxDepth, q)
    {
      FindInserted(dir, path, maxDepth, 1, q);
      assert Find(dir, q) == Wanted(flat, {}, maxDepth, q);
      var k := Reaching(path, maxDepth, 1);
      assert k == |path| <==> Within(|path|, maxDepth);
      assert q != path && q <= path[..k] <==> Under(path, q) && Within(|q|, maxDepth);
      HoldsGrown(flat, path, q);
    }
  }

  lemma HoldsGrown(flat: set<Path>, path: Path, q: Path)
    ensures HoldsListed(flat + {path}, q) <==> HoldsListed(flat, q) || Under(path, q)
  {
    if HoldsListed(flat, q) {
      var p :| p in flat && Under(p, q);
      assert p in flat + {path};
    }
    if Under(path, q) { assert path in flat + {path}; }
  }

  lemma StubInserted(dir: Builder, flat: set<Path>, stubs: set<Path>, maxDepth: Option<nat>, stub: Path)
    requires Describes(dir, flat, stubs, maxDepth) && Compatible(flat, stubs + {stub})
    ensures Describes(InsertStub(dir, stub), flat, stubs + {stub}, maxDepth)
  {
    assert stub in stubs + {stub};
    forall i | 0 < i <= |stub|
      ensures Find(dir, stub[..i]) != Some(AFile)
    {
      assert i < |stub| ==> Under(stub, stub[..i]);
      assert i == |stub| ==> stub[..i] == stub;
      assert Find(dir, stub[..i]) == Wanted(flat, stubs, maxDepth, stub[..i]);
    }
    forall q: Path | q != []
      ensures Find(InsertStub(dir, stub), q) == Wanted(flat, stubs + {stub}, maxDepth, q)
    {
      FindStubbed(dir, stub, q);
      assert Find(dir, q) == Wanted(flat, stubs, maxDepth, q);
      assert q <= stub && q != stub ==> Under(stub, q);
      assert HoldsStub(stubs + {stub}, q) <==> HoldsStub(stubs, q) || q <= stub;
    }
  }

  /** One builder at most fits a description. */
  lemma {:induction false} DescribedOnce(a: Builder, b: Builder)
    requires a.Folder? && b.Folder? && forall q: Path | q != [] :: Find(a, q) == Find(b, q)
    ensures a == b
    decreases a
  {
    forall name
      ensures (name in a.children <==> name in b.children)
      ensures name in a.children && name in b.children ==> a.children[name] == b.children[name]
    {
      FindName(a, name);
      FindName(b, name);
      assert Find(a, [name]) == Find(b, [name]);
      if name in a.children && a.children[name].Folder? {
        forall q: Path | q != []
          ensures Find(a.children[name], q) == Find(b.children[name], q)
        {
          assert ([name] + q)[1..] == q;
          assert Find(a, [name] + q) == Find(b, [name] + q);
        }
        DescribedOnce(a.children[name], b.children[name]);
      }
    }
    assert a.children == b.children;
  }

  // Iterating in name order

  lemma {:induction false} LeastExists(names: set<Name>)
    requires names != {}
    ensures exists n | n in names :: forall m | m in names && m != n :: Less(n, m)
    decreases |names|
  {
    var any :| any in names;
    var rest := names - {any};
    if rest != {} {
      LeastExists(rest);
      var least :| least in rest && forall m | m in rest && m != least :: Less(least, m);
      LessWeakOrder();
      var n := if Less(any, least) then any else least;
      assert forall m | m in names && m != n :: Less(n, m);
    }
  }

  function Least(names: set<Name>): (n: Name)
    requires names != {}
    ensures n in names && forall m | m in names && m != n :: Less(n, m)
  {
    LeastExists(names);
    LessWeakOrder();
    var n :| n in names && forall m | m in names && m != n :: Less(n, m);
    n
  }

  predicate Ascending(names: seq<Name>) {
    forall i, j | 0 <= i < j < |names| :: Less(names[i], names[j])
  }

  /** The order a `BTreeMap` yields its keys in. */
  function SortedNames(names: set<Name>): seq<Name>
    decreases |names|
  {
    if names == {} then [] else [Least(names)] + SortedNames(names - {Least(names)})
  }

  lemma {:induction false} SortedNamesAscend(names: set<Name>)
    ensures Ascending(SortedNames(names)) && forall n :: n in SortedNames(names) <==> n in names
    decreases |names|
  {
    if names != {} {
      var least := Least(names);
      SortedNamesAscend(names - {least});
      assert forall n | n in SortedNames(names - {least}) :: Less(least, n);
    }
  }

  // Rendering

  /** `convert`: children folders first, each group in name order. */
  function Level(dir: Builder): seq<TreeNode>
    requires dir.Folder?
    decreases dir, 1
  {
    var names := SortedNames(dir.children.Keys);
    SortedNamesAscend(dir.children.Keys);
    Converted(dir, names, ADirectory) + Converted(dir, names, AFile)
  }

  function Node(name: Name, b: Builder): TreeNode
    decreases b, 2
  {
    if b.FileLeaf? then FileNode(name, None) else DirectoryNode(name, Level(b), None)
  }

  function Converted(dir: Builder, names: seq<Name>, kind: Kind): seq<TreeNode>
    requires dir.Folder? && forall n | n in names :: n in dir.children
    decreases dir, 0, |names|
  {
    if names == [] then []
    else
      var child := dir.children[names[0]];
      var rest := Converted(dir, names[1..], kind);
      if KindOf(child) == kind then [Node(names[0], child)] + rest else rest
  }

  /** Directories before files, each group ascending, no name twice, at every level. */
  ghost predicate Ordered(nodes: seq<TreeNode>) {
    && (forall i, j | 0 <= i < j < |nodes| :: Before(nodes[i], nodes[j]) && nodes[i].name != nodes[j].name)
    && forall n | n in nodes && n.DirectoryNode? :: Ordered(n.children)
  }

  predicate Before(a: TreeNode, b: TreeNode) {
    if a.DirectoryNode? == b.DirectoryNode? then Less(a.name, b.name) else a.DirectoryNode?
  }

  /** What a listing shows at a path. */
  ghost predicate Shows(nodes: seq<TreeNode>, path: Path, kind: Kind)
    decreases |path|
  {
    && path != []
    && exists n | n in nodes && n.name == path[0] ::
         if |path| == 1 then kind == (if n.DirectoryNode? then ADirectory else AFile)
         else n.DirectoryNode? && Shows(n.children, path[1..], kind)
  }

  predicate AscendingNodes(nodes: seq<TreeNode>) {
    forall i, j | 0 <= i < j < |nodes| :: Less(nodes[i].name, nodes[j].name)
  }

  lemma {:induction false} ConvertedNodes(dir: Builder, names: seq<Name>, kind: Kind)
    requires dir.Folder? && forall n | n in names :: n in dir.children
    ensures forall n: TreeNode :: n in Converted(dir, names, kind) <==>
      n.name in names && n == Node(n.name, dir.children[n.name]) && KindOf(dir.children[n.name]) == kind
    decreases |names|
  {
    if names != [] {
      ConvertedNodes(dir, names[1..], kind);
      var rest := Converted(dir, names[1..], kind);
      var first := Node(names[0], dir.children[names[0]]);
      assert forall name :: name in names <==> name == names[0] || name in names[1..];
      assert forall n: TreeNode :: n in [first] + rest <==> n == first || n in rest;
    }
  }

  lemma AscendingCons(first: TreeNode, rest: seq<TreeNode>)
    requires AscendingNodes(rest) && forall i | 0 <= i < |rest| :: Less(first.name, rest[i].name)
    ensures AscendingNodes([first] + rest)
  {
  }

  lemma {:induction false} ConvertedAscend(dir: Builder, names: seq<Name>, kind: Kind)
    requires dir.Folder? && Ascending(names) && forall n | n in names :: n in dir.children
    ensures AscendingNodes(Converted(dir, names, kind))
    decreases |names|
  {
    if names != [] {
      ConvertedAscend(dir, names[1..], kind);
      ConvertedNodes(dir, names[1..], kind);
      var rest := Converted(dir, names[1..], kind);
      forall i | 0 <= i < |rest|
        ensures Less(names[0], rest[i].name)
      {
        assert rest[i] in rest && rest[i].name in names[1..];
      }
      AscendingCons(Node(names[0], dir.children[names[0]]), rest);
    }
  }

  /** A level's nodes are its children ... */
  lemma LevelNodes(dir: Builder)
    requires dir.Folder?
    ensures forall n :: n in Level(dir) <==> n.name in dir.children && n == Node(n.name, dir.children[n.name])
  {
    var names := SortedNames(dir.children.Keys);
    SortedNamesAscend(dir.children.Keys);
    ConvertedNodes(dir, names, ADirectory);
    ConvertedNodes(dir, names, AFile);
    var folders, files := Converted(dir, names, ADirectory), Converted(dir, names, AFile);
    forall n: TreeNode
      ensures n in folders + files <==> n.name in dir.children && n == Node(n.name, dir.children[n.name])
    {
      assert n.name in dir.children ==> n.name in names;
    }
  }

  /** ... in order. */
  lemma LevelBefore(dir: Builder, i: nat, j: nat)
    requires dir.Folder? && i < j < |Level(dir)|
    ensures Before(Level(dir)[i], Level(dir)[j]) && Level(dir)[i].name != Level(dir)[j].name
  {
    var names := SortedNames(dir.children.Keys);
    SortedNamesAscend(dir.children.Keys);
    ConvertedNodes(dir, names, ADirectory);
    ConvertedNodes(dir, names, AFile);
    ConvertedAscend(dir, names, ADirectory);
    ConvertedAscend(dir, names, AFile);
    var folders, files := Converted(dir, names, ADirectory), Converted(dir, names, AFile);
    GroupsBefore(folders, files, i, j);
  }

  lemma GroupsBefore(folders: seq<TreeNode>, files: seq<TreeNode>, i: nat, j: nat)
    requires AscendingNodes(folders) && AscendingNodes(files) && i < j < |folders| + |files|
    requires (forall n | n in folders :: n.DirectoryNode?) && (forall n | n in files :: n.FileNode?)
    requires forall m, n | m in folders && n in files :: m.name != n.name
    ensures Before((folders + files)[i], (folders + files)[j]) && (folders + files)[i].name != (folders + files)[j].name
  {
    var a, b := (folders + files)[i], (folders + files)[j];
    LessTrichotomy(a.name, b.name);
    assert if i < |folders| then a == folders[i] && a in folders else a == files[i - |folders|] && a in files;
    assert if j < |folders| then b == folders[j] && b in folders else b == files[j - |folders|] && b in files;
  }

  lemma {:induction false} LevelOrdered(dir: Builder)
    requires dir.Folder?
    ensures Ordered(Level(dir))
    decreases dir
  {
    LevelNodes(dir);
    forall i, j | 0 <= i < j < |Level(dir)|
      ensures Before(Level(dir)[i], Level(dir)[j]) && Level(dir)[i].name != Level(dir)[j].name
    {
      LevelBefore(dir, i, j);
    }
    forall n | n in Level(dir) && n.DirectoryNode?
      ensures Ordered(n.children)
    {
      LevelOrdered(dir.children[n.name]);
    }
  }

  lemma {:induction false} LevelShows(dir: Builder, path: Path, kind: Kind)
    requires dir.Folder? && path != []
    ensures Shows(Level(dir), path, kind) <==> Find(dir, path) == Some(kind)
    decreases |path|
  {
    LevelNodes(dir);
    if path[0] in dir.children {
      var child := dir.children[path[0]];
      assert Node(path[0], child) in Level(dir);
      if |path| > 1 && child.Folder? { LevelShows(child, path[1..], kind); }
      if |path| == 1 {
        assert path == [path[0]];
        FindName(dir, path[0]);
      }
    }
  }

  /** The listing of some paths and stubs. */
  ghost predicate Listing(nodes: seq<TreeNode>, flat: set<Path>, stubs: set<Path>, maxDepth: Option<nat>) {
    exists dir: Builder :: Describes(dir, flat, stubs, maxDepth) && nodes == Level(dir)
  }

  function SetOf(paths: seq<Path>): set<Path> {
    set p | p in paths
  }

  lemma SetOfPrefix(paths: seq<Path>, i: nat)
    requires i < |paths|
    ensures SetOf(paths[..i + 1]) == SetOf(paths[..i]) + {paths[i]} && SetOf(paths[..i + 1]) <= SetOf(paths)
  {
  }

  /** `build_tree`. */
  method BuildTree(flat: seq<Path>, stubs: seq<Path>, maxDepth: Option<nat>) returns (nodes: seq<TreeNode>)
    requires Compatible(SetOf(flat), SetOf(stubs))
    ensures Listing(nodes, SetOf(flat), SetOf(stubs), maxDepth)
  {
    var root := EMPTY;
    assert forall q: Path | q != [] :: Find(EMPTY, q) == None;
    for i := 0 to |flat|
      invariant Describes(root, SetOf(flat[..i]), {}, maxDepth)
    {
      SetOfPrefix(flat, i);
      PathInserted(root, SetOf(flat[..i]), maxDepth, flat[i]);
      root := Insert(root, flat[i], maxDepth, 1);
    }
    assert flat[..|flat|] == flat && SetOf(stubs[..0]) == {};
    for i := 0 to |stubs|
      invariant Describes(root, SetOf(flat), SetOf(stubs[..i]), maxDepth)
    {
      SetOfPrefix(stubs, i);
      StubInserted(root, SetOf(flat), SetOf(stubs[..i]), maxDepth, stubs[i]);
      root := InsertStub(root, stubs[i]);
    }
    assert stubs[..|stubs|] == stubs;
    nodes := Level(root);
  }

  /** What a listing is: ordered at every level ... */
  lemma ListingOrdered(nodes: seq<TreeNode>, flat: set<Path>, stubs: set<Path>, maxDepth: Option<nat>)
    requires Listing(nodes, flat, stubs, maxDepth)
    ensures Ordered(nodes)
  {
    var dir :| Describes(dir, flat, stubs, maxDepth) && nodes == Level(dir);
    LevelOrdered(dir);
  }

  /** ... and showing exactly what is wanted. Its files are exactly the given paths within the depth. */
  lemma ListingShows(nodes: seq<TreeNode>, flat: set<Path>, stubs: set<Path>, maxDepth: Option<nat>, path: Path,
                     kind: Kind)
    requires Listing(nodes, flat, stubs, maxDepth) && path != []
    ensures Shows(nodes, path, kind) <==> Wanted(flat, stubs, maxDepth, path) == Some(kind)
    ensures Shows(nodes, path, AFile) <==> path in flat && Within(|path|, maxDepth)
  {
    var dir :| Describes(dir, flat, stubs, maxDepth) && nodes == Level(dir);
    LevelShows(dir, path, kind);
    LevelShows(dir, path, AFile);
  }

  /** Input order and duplicates leave no trace: the listing is a function of the two sets. */
  lemma ListingUnique(a: seq<TreeNode>, b: seq<TreeNode>, flat: set<Path>, stubs: set<Path>, maxDepth: Option<nat>)
    requires Listing(a, flat, stubs, maxDepth) && Listing(b, flat, stubs, maxDepth)
    ensures a == b
  {
    var x :| Describes(x, flat, stubs, maxDepth) && a == Level(x);
    var y :| Describes(y, flat, stubs, maxDepth) && b == Level(y);
    assert forall q: Path | q != [] :: Find(x, q) == Find(y, q);
    DescribedOnce(x, y);
  }

  // Cutting at a depth

  /** Directories at depth `d` lose their children. */
  function Cut(nodes: seq<TreeNode>, d: nat): seq<TreeNode>
    decreases d, 1, |nodes|
  {
    if nodes == [] then [] else [CutNode(nodes[0], d)] + Cut(nodes[1..], d)
  }

  function CutNode(node: TreeNode, d: nat): TreeNode
    decreases d, 0
  {
    if node.FileNode? then node else node.(children := if d <= 1 then [] else Cut(node.children, d - 1))
  }

  lemma {:induction false} CutConcat(a: seq<TreeNode>, b: seq<TreeNode>, d: nat)
    ensures Cut(a + b, d) == Cut(a, d) + Cut(b, d)
  {
    if a == [] {
      assert a + b == b;
    } else {
      assert (a + b)[1..] == a[1..] + b;
      CutConcat(a[1..], b, d);
    }
  }

  function CutBuilder(dir: Builder, d: nat): (cut: Builder)
    requires dir.Folder?
    ensures cut.Folder?
    decreases dir
  {
    Folder(map n | n in dir.children ::
      if dir.children[n].FileLeaf? then FileLeaf else if d <= 1 then EMPTY else CutBuilder(dir.children[n], d - 1))
  }

  lemma {:induction false} FindCut(dir: Builder, d: nat, q: Path)
    requires dir.Folder? && q != []
    ensures Find(CutBuilder(dir, d), q) == if |q| <= d || |q| == 1 then Find(dir, q) else None
    decreases dir
  {
    if q[0] in dir.children && dir.children[q[0]].Folder? && |q| > 1 && d > 1 {
      FindCut(dir.children[q[0]], d - 1, q[1..]);
    }
  }

  lemma {:induction false} ConvertedCut(dir: Builder, names: seq<Name>, kind: Kind, d: nat)
    requires dir.Folder? && forall n | n in names :: n in dir.children
    ensures Converted(CutBuilder(dir, d), names, kind) == Cut(Converted(dir, names, kind), d)
    decreases dir, 0, |names|
  {
    if names != [] {
      ConvertedCut(dir, names[1..], kind, d);
      var name := names[0];
      var child := dir.children[name];
      NodeCut(dir, name, d);
      if KindOf(child) == kind {
        CutConcat([Node(name, child)], Converted(dir, names[1..], kind), d);
        assert Cut([Node(name, child)], d) == [CutNode(Node(name, child), d)] + Cut([], d);
      }
    }
  }

  lemma {:induction false} NodeCut(dir: Builder, name: Name, d: nat)
    requires dir.Folder? && name in dir.children
    ensures var cut := CutBuilder(dir, d).children[name];
      KindOf(cut) == KindOf(dir.children[name]) && Node(name, cut) == CutNode(Node(name, dir.children[name]), d)
    decreases dir.children[name], 2
  {
    var child := dir.children[name];
    if child.Folder? {
      if d > 1 {
        LevelCut(child, d - 1);
      } else {
        assert SortedNames({}) == [] && Level(EMPTY) == [];
      }
    }
  }

  lemma {:induction false} LevelCut(dir: Builder, d: nat)
    requires dir.Folder?
    ensures Level(CutBuilder(dir, d)) == Cut(Level(dir), d)
    decreases dir, 1
  {
    assert CutBuilder(dir, d).children.Keys == dir.children.Keys;
    var names := SortedNames(dir.children.Keys);
    SortedNamesAscend(dir.children.Keys);
    ConvertedCut(dir, names, ADirectory, d);
    ConvertedCut(dir, names, AFile, d);
    CutConcat(Converted(dir, names, ADirectory), Converted(dir, names, AFile), d);
  }

  /** Building to depth `d` is building in full and cutting at depth `d`, for stubs no deeper than that. */
  lemma DepthIsCut(full: seq<TreeNode>, limited: seq<TreeNode>, flat: set<Path>, stubs: set<Path>, d: nat)
    requires Listing(full, flat, stubs, None) && Listing(limited, flat, stubs, Some(d))
    requires forall s | s in stubs :: Within(|s|, Some(d))
    ensures limited == Cut(full, d)
  {
    var x :| Describes(x, flat, stubs, None) && full == Level(x);
    var y :| Describes(y, flat, stubs, Some(d)) && limited == Level(y);
    forall q: Path | q != []
      ensures Find(CutBuilder(x, d), q) == Find(y, q)
    {
      FindCut(x, d, q);
    }
    DescribedOnce(CutBuilder(x, d), y);
    LevelCut(x, d);
  }
}
