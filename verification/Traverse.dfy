/** Delivery order of a replay: each folder's own files, then its sub-folders one after the other. */
module Traverse {
  import opened Wrappers
  import opened Paths
  import opened Sorting
  import opened Bytewise

  // Path strings and their components

  /** `path.split('/')` without the empty pieces, `current` being the piece read so far. */
  function SplitOn(path: string, current: string): Path {
    if path == [] then if current == [] then [] else [current]
    else if path[0] == '/' then (if current == [] then [] else [current]) + SplitOn(path[1..], [])
    else SplitOn(path[1..], current + [path[0]])
  }

  function Components(path: string): Path {
    SplitOn(path, [])
  }

  function Joined(path: Path): string {
    if path == [] then ""
    else if |path| == 1 then path[0]
    else path[0] + "/" + Joined(path[1..])
  }

  predicate ValidNames(path: Path) {
    forall name | name in path :: name != [] && '/' !in name
  }

  lemma {:induction false} SplitName(name: string, rest: string, current: string)
    requires '/' !in name
    ensures SplitOn(name + rest, current) == SplitOn(rest, current + name)
  {
    if name == [] {
      assert name + rest == rest && current + name == current;
    } else {
      assert (name + rest)[1..] == name[1..] + rest;
      SplitName(name[1..], rest, current + [name[0]]);
      assert current + [name[0]] + name[1..] == current + name;
    }
  }

  /** A path string and its components are two spellings of one path. */
  lemma {:induction false} ComponentsOfJoined(path: Path)
    requires ValidNames(path)
    ensures Components(Joined(path)) == path
  {
    if path != [] {
      assert path[0] in path && forall name | name in path[1..] :: name in path;
      if |path| == 1 {
        SplitName(path[0], "", "");
        assert path[0] + "" == path[0] && "" + path[0] == path[0];
      } else {
        var rest := Joined(path[1..]);
        ComponentsOfJoined(path[1..]);
        SplitName(path[0], "/" + rest, "");
        assert path[0] + "/" + rest == path[0] + ("/" + rest) && "" + path[0] == path[0];
        assert ("/" + rest)[1..] == rest;
      }
    }
  }

  // The comparator

  datatype Ordering = Before | Same | After

  predicate IsVisible(name: Name) {
    name == [] || name[0] != '.'
  }

  /** Hidden names first, then bytewise. */
  predicate NameBefore(left: Name, right: Name) {
    if IsVisible(left) != IsVisible(right) then !IsVisible(left) else Less(left, right)
  }

  predicate IsLeafFile(path: Path, leafIsFile: bool) {
    leafIsFile && |path| == 1
  }

  function Compare(left: Path, right: Path, leafIsFile: bool): Ordering {
    if left == [] && right == [] then Same
    else if left == [] then Before
    else if right == [] then After
    else if IsLeafFile(left, leafIsFile) != IsLeafFile(right, leafIsFile) then
      if IsLeafFile(left, leafIsFile) then Before else After
    else if left[0] != right[0] then if NameBefore(left[0], right[0]) then Before else After
    else Compare(left[1..], right[1..], leafIsFile)
  }

  /** The source's walk over both paths at once. */
  method ComparePaths(left: string, right: string, leafIsFile: bool) returns (order: Ordering)
    ensures order == Compare(Components(left), Components(right), leafIsFile)
  {
    var ls, rs := Components(left), Components(right);
    var i := 0;
    while true
      invariant i <= |ls| && i <= |rs|
      invariant Compare(ls, rs, leafIsFile) == Compare(ls[i..], rs[i..], leafIsFile)
      decreases |ls| - i
    {
      if i == |ls| && i == |rs| {
        return Same;
      }
      if i == |ls| {
        return Before;
      }
      if i == |rs| {
        return After;
      }
      var leftIsFile := leafIsFile && i + 1 == |ls|;
      var rightIsFile := leafIsFile && i + 1 == |rs|;
      if leftIsFile && !rightIsFile {
        return Before;
      }
      if !leftIsFile && rightIsFile {
        return After;
      }
      if ls[i] != rs[i] {
        if IsVisible(ls[i]) != IsVisible(rs[i]) {
          return if IsVisible(ls[i]) then After else Before;
        }
        return if Less(ls[i], rs[i]) then Before else After;
      }
      assert ls[i..][1..] == ls[i + 1..] && rs[i..][1..] == rs[i + 1..];
      i := i + 1;
    }
  }

  predicate FileBefore(left: Path, right: Path) {
    Compare(left, right, true).Before?
  }

  predicate DirectoryBefore(left: Path, right: Path) {
    Compare(left, right, false).Before?
  }

  lemma NameOrder(a: Name, b: Name, c: Name)
    ensures a != b ==> NameBefore(a, b) != NameBefore(b, a)
    ensures !NameBefore(a, a)
    ensures NameBefore(a, b) && NameBefore(b, c) ==> NameBefore(a, c)
  {
    LessTrichotomy(a, b);
    LessTrichotomy(a, a);
    if Less(a, b) && Less(b, c) { LessTransitive(a, b, c); }
  }

  lemma {:induction false} CompareAntisymmetric(l: Path, r: Path, leafIsFile: bool)
    ensures Compare(l, r, leafIsFile).Before? <==> Compare(r, l, leafIsFile).After?
    ensures Compare(l, r, leafIsFile).Same? <==> l == r
  {
    if l != [] && r != [] {
      NameOrder(l[0], r[0], r[0]);
      CompareAntisymmetric(l[1..], r[1..], leafIsFile);
      assert l == [l[0]] + l[1..] && r == [r[0]] + r[1..];
    }
  }

  lemma {:induction false} CompareTransitive(l: Path, m: Path, r: Path, leafIsFile: bool)
    requires Compare(l, m, leafIsFile).Before? && Compare(m, r, leafIsFile).Before?
    ensures Compare(l, r, leafIsFile).Before?
  {
    if l != [] && m != [] && r != [] {
      NameOrder(l[0], m[0], r[0]);
      NameOrder(m[0], l[0], l[0]);
      NameOrder(r[0], m[0], m[0]);
      NameOrder(l[0], r[0], r[0]);
      if l[0] == m[0] == r[0] && IsLeafFile(l, leafIsFile) == IsLeafFile(m, leafIsFile) == IsLeafFile(r, leafIsFile) {
        CompareTransitive(l[1..], m[1..], r[1..], leafIsFile);
      }
    }
  }

  /** Both comparators are strict total orders on component sequences. */
  lemma DeliveryOrders()
    ensures WeakOrder(FileBefore) && WeakOrder(DirectoryBefore)
    ensures forall l, r :: l != r ==> FileBefore(l, r) || FileBefore(r, l)
    ensures forall l, r :: l != r ==> DirectoryBefore(l, r) || DirectoryBefore(r, l)
  {
    forall l, r, leafIsFile
      ensures Compare(l, r, leafIsFile).Before? <==> Compare(r, l, leafIsFile).After?
      ensures Compare(l, r, leafIsFile).Same? <==> l == r
    {
      CompareAntisymmetric(l, r, leafIsFile);
    }
    forall l, m, r, leafIsFile | Compare(l, m, leafIsFile).Before? && Compare(m, r, leafIsFile).Before?
      ensures Compare(l, r, leafIsFile).Before?
    {
      CompareTransitive(l, m, r, leafIsFile);
    }
    WeakFromTotal(FileBefore);
    WeakFromTotal(DirectoryBefore);
  }

  lemma WeakFromTotal(less: (Path, Path) -> bool)
    requires forall x :: !less(x, x)
    requires forall x, y, z :: less(x, y) && less(y, z) ==> less(x, z)
    requires forall x, y :: x != y ==> less(x, y) || less(y, x)
    ensures WeakOrder(less)
  {
    forall x, y, z | less(x, y) ensures less(x, z) || less(z, y) {
      if x != z && !less(x, z) { assert less(z, x); }
    }
  }

  // Where two paths part

  predicate DotNamed(name: Name) {
    name != [] && name[0] == '.'
  }

  /** Within one folder hidden names come first, and names of a kind ascend bytewise. */
  predicate SiblingFirst(a: Name, b: Name) {
    if DotNamed(a) == DotNamed(b) then Less(a, b) else DotNamed(a)
  }

  lemma {:induction false} SharedFolder(directory: Path, l: Path, r: Path, leafIsFile: bool)
    requires l != [] && r != []
    ensures Compare(directory + l, directory + r, leafIsFile) == Compare(l, r, leafIsFile)
  {
    if directory == [] {
      assert [] + l == l && [] + r == r;
    } else {
      assert (directory + l)[1..] == directory[1..] + l && (directory + r)[1..] == directory[1..] + r;
      SharedFolder(directory[1..], l, r, leafIsFile);
    }
  }

  /** Two files that part in a folder: a file of its own comes before anything in a sub-folder, and otherwise the names
      at which they part decide. */
  lemma FilesPart(directory: Path, l: Path, r: Path)
    requires l != [] && r != [] && ((|l| == 1) != (|r| == 1) || l[0] != r[0])
    ensures FileBefore(directory + l, directory + r) <==>
      if (|l| == 1) != (|r| == 1) then |l| == 1 else SiblingFirst(l[0], r[0])
  {
    SharedFolder(directory, l, r, true);
  }

  /** Two folders that part in a folder are ordered by the names at which they part ... */
  lemma FoldersPart(directory: Path, l: Path, r: Path)
    requires l != [] && r != [] && l[0] != r[0]
    ensures DirectoryBefore(directory + l, directory + r) <==> SiblingFirst(l[0], r[0])
  {
    SharedFolder(directory, l, r, false);
  }

  /** ... and a folder comes before everything beneath it, the root first of all. */
  lemma {:induction false} FolderFirst(directory: Path, rest: Path)
    requires rest != []
    ensures DirectoryBefore(directory, directory + rest)
  {
    if directory == [] {
      assert [] + rest == rest;
    } else {
      assert (directory + rest)[1..] == directory[1..] + rest;
      FolderFirst(directory[1..], rest);
    }
  }

  // The onion

  /** `file` sits directly in `directory`. */
  predicate DirectlyIn(file: Path, directory: Path) {
    file != [] && Parent(file) == directory
  }

  lemma {:induction false} OwnFilesFirst(file: Path, deeper: Path, directory: Path)
    requires DirectlyIn(file, directory) && Under(deeper, directory) && !DirectlyIn(deeper, directory)
    ensures FileBefore(file, deeper)
  {
    if directory != [] {
      assert file[0] == directory[0] == deeper[0] by {
        assert file[0] == Parent(file)[0] && deeper[0] == deeper[..|directory|][0];
      }
      assert deeper[1..][..|directory| - 1] == deeper[..|directory|][1..] == directory[1..];
      ParentTail(file);
      ParentTail(deeper);
      assert directory == [directory[0]] + directory[1..];
      OwnFilesFirst(file[1..], deeper[1..], directory[1..]);
    }
  }

  lemma ParentTail(path: Path)
    requires |path| > 1
    ensures Parent(path) == [path[0]] + Parent(path[1..])
    ensures Parent(path)[1..] == Parent(path[1..])
  {}

  /** A path between two paths of one folder is in that folder too. */
  lemma {:induction false} FolderIsConvex(l: Path, m: Path, r: Path, directory: Path)
    requires Under(l, directory) && Under(r, directory)
    requires FileBefore(l, m) && FileBefore(m, r)
    requires m != []
    ensures Under(m, directory)
  {
    if directory != [] {
      assert l[0] == directory[0] == r[0] by {
        assert l[0] == l[..|directory|][0] && r[0] == r[..|directory|][0];
      }
      NameOrder(l[0], m[0], m[0]);
      assert m[0] == directory[0] && |m| > 1;
      assert l[1..][..|directory| - 1] == l[..|directory|][1..];
      assert r[1..][..|directory| - 1] == r[..|directory|][1..];
      FolderIsConvex(l[1..], m[1..], r[1..], directory[1..]);
      assert m[1..][..|directory| - 1] == directory[1..];
      assert m[..|directory|] == [m[0]] + m[1..][..|directory| - 1] == [directory[0]] + directory[1..];
    }
  }

  /** A sorted list of file paths peels like an onion: every file directly in an ancestor folder of a
      path is delivered before it, and each folder's subtree is delivered in one piece. */
  lemma SortedIsOnion(paths: seq<Path>, directory: Path)
    requires forall p | p in paths :: p != []
    ensures var sorted := SortBy(paths, FileBefore);
      && multiset(sorted) == multiset(paths)
      && (forall i, j | 0 <= i < |sorted| && 0 <= j < |sorted| && DirectlyIn(sorted[i], directory)
            && Under(sorted[j], directory) && !DirectlyIn(sorted[j], directory) :: i < j)
      && (forall i, j, k | 0 <= i <= j <= k < |sorted| && Under(sorted[i], directory) && Under(sorted[k], directory) ::
            Under(sorted[j], directory))
  {
    DeliveryOrders();
    var sorted := SortBy(paths, FileBefore);
    SortBySorts(paths, FileBefore);
    SameElements(paths, sorted);
    OwnFilesLead(sorted, directory);
    FoldersInOnePiece(sorted, directory);
  }

  lemma OwnFilesLead(sorted: seq<Path>, directory: Path)
    requires Sorted(sorted, FileBefore)
    ensures forall i, j | 0 <= i < |sorted| && 0 <= j < |sorted| && DirectlyIn(sorted[i], directory)
      && Under(sorted[j], directory) && !DirectlyIn(sorted[j], directory) :: i < j
  {
    forall i, j | 0 <= i < |sorted| && 0 <= j < |sorted| && DirectlyIn(sorted[i], directory)
      && Under(sorted[j], directory) && !DirectlyIn(sorted[j], directory)
      ensures i < j
    {
      OwnFilesFirst(sorted[i], sorted[j], directory);
    }
  }

  lemma FoldersInOnePiece(sorted: seq<Path>, directory: Path)
    requires Sorted(sorted, FileBefore) && forall p | p in sorted :: p != []
    ensures forall i, j, k | 0 <= i <= j <= k < |sorted| && Under(sorted[i], directory) && Under(sorted[k], directory) ::
      Under(sorted[j], directory)
  {
    DeliveryOrders();
    forall i, j, k | 0 <= i <= j <= k < |sorted| && Under(sorted[i], directory) && Under(sorted[k], directory)
      ensures Under(sorted[j], directory)
    {
      assert sorted[j] in sorted;
      if i < j < k && sorted[i] != sorted[j] && sorted[j] != sorted[k] {
        FolderIsConvex(sorted[i], sorted[j], sorted[k], directory);
      }
    }
  }
}
