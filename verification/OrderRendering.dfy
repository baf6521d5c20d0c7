/** What a reorder writes against what the caller was looking at. */
module OrderRendering {
  import opened Wrappers
  import opened Paths
  import opened Sorting
  import opened Bytewise
  import opened OrderIndex

  function Other(name: Name): Name -> bool {
    e => EntryName(e) != name
  }

  function IsEligible(stored: seq<Name>, allowHidden: bool): Name -> bool {
    e => Eligible(stored, allowHidden, e)
  }

  /** The rows a reorder of `name` pins besides `name` itself. */
  function Kept(stored: seq<Name>, allowHidden: bool, name: Name): Name -> bool {
    Both(IsEligible(stored, allowHidden), Other(name))
  }

  function Implicit(stored: seq<Name>): Name -> bool {
    e => !Listed(stored, e)
  }

  /** The two base sorts agree on the folders only base order can rank: those kept and not listed. */
  ghost predicate NoImplicitClash(children: seq<Child>, stored: seq<Name>, allowHidden: bool, name: Name) {
    forall a, b | a in FolderNames(children) && b in FolderNames(children)
      && Kept(stored, allowHidden, name)(DirectoryEntry(a)) && Kept(stored, allowHidden, name)(DirectoryEntry(b))
      && Implicit(stored)(DirectoryEntry(a)) && Implicit(stored)(DirectoryEntry(b)) :: !SlashClash(a, b)
  }

  function OnFolder(keep: Name -> bool): Name -> bool {
    name => keep(DirectoryEntry(name))
  }

  lemma {:induction false} FilterSpelled(names: seq<Name>, keep: Name -> bool)
    ensures Filter(Spelled(names), keep) == Spelled(Filter(names, OnFolder(keep)))
  {
    if names == [] {
      assert Spelled(names) == [];
    } else {
      FilterSpelled(names[1..], keep);
      assert Spelled(names) == [DirectoryEntry(names[0])] + Spelled(names[1..]);
      FilterCons(DirectoryEntry(names[0]), Spelled(names[1..]), keep);
      var rest := Filter(names[1..], OnFolder(keep));
      assert Spelled([names[0]] + rest) == [DirectoryEntry(names[0])] + Spelled(rest);
    }
  }

  lemma {:induction false} FolderEntriesSpelled(children: seq<Child>)
    requires ValidChildren(children)
    ensures FolderEntries(children) == Filter(Spelled(FolderNames(children)), NotIndex)
  {
    if children == [] {
      assert Spelled([]) == [];
    } else {
      ValidTail(children);
      FolderEntriesSpelled(children[1..]);
      if children[0].Folder? { SpelledCons(children[0].name, FolderNames(children[1..])); }
    }
  }

  lemma SpelledCons(name: Name, names: seq<Name>)
    ensures Filter(Spelled([name] + names), NotIndex)
         == (if name != ORDER_FILE_NAME then [DirectoryEntry(name)] else []) + Filter(Spelled(names), NotIndex)
  {
    assert Spelled([name] + names) == [DirectoryEntry(name)] + Spelled(names);
    FilterCons(DirectoryEntry(name), Spelled(names), NotIndex);
    assert EntryName(DirectoryEntry(name)) == name;
  }

  lemma {:induction false} FolderNamesValid(children: seq<Child>)
    requires ValidChildren(children)
    ensures Distinct(FolderNames(children))
    ensures forall name | name in FolderNames(children) :: '/' !in name && Folder(name) in children
  {
    if children != [] {
      ValidTail(children);
      FolderNamesValid(children[1..]);
      assert children == [children[0]] + children[1..];
    }
  }

  lemma SpelledPermutes(s: seq<Name>, t: seq<Name>)
    requires Distinct(s) && Distinct(t) && forall name :: name in s <==> name in t
    ensures multiset(Spelled(s)) == multiset(Spelled(t))
  {
    SpelledWithin(s, t);
    SpelledWithin(t, s);
    SameSetSameMultiset(Spelled(s), Spelled(t));
  }

  lemma SpelledWithin(s: seq<Name>, t: seq<Name>)
    requires Distinct(s) && forall name | name in s :: name in t
    ensures Distinct(Spelled(s)) && forall e | e in Spelled(s) :: e in Spelled(t)
  {
    forall i, j | 0 <= i < j < |s| ensures Spelled(s)[i] != Spelled(s)[j] {
      assert EntryName(Spelled(s)[i]) == s[i] && EntryName(Spelled(s)[j]) == s[j];
    }
    forall e | e in Spelled(s) ensures e in Spelled(t) {
      var i :| 0 <= i < |s| && Spelled(s)[i] == e;
      assert s[i] in s;
      var j :| 0 <= j < |t| && t[j] == s[i];
      assert Spelled(t)[j] == e;
    }
  }

  /** Sorting names and then spelling them as folders is sorting the spelled names, exactly when no
      two of them clash. */
  lemma SpelledSortIffNoClash(names: seq<Name>)
    requires Distinct(names) && forall name | name in names :: '/' !in name
    ensures Spelled(SortBy(names, Less)) == SortBy(Spelled(names), Less)
       <==> forall a, b | a in names && b in names :: !SlashClash(a, b)
  {
    LessWeakOrder();
    var s := SortBy(names, Less);
    SortBySorts(names, Less);
    SameElements(names, s);
    SortBySorts(Spelled(names), Less);
    SpelledPermutes(s, names);
    SpelledSortedIffNoClash(s);
    if Sorted(Spelled(s), Less) {
      SortedUnique(Spelled(s), SortBy(Spelled(names), Less), Less);
    }
  }

  lemma SpelledSortedIffNoClash(s: seq<Name>)
    requires Distinct(s) && Sorted(s, Less) && forall name | name in s :: '/' !in name
    ensures Sorted(Spelled(s), Less) <==> forall a, b | a in s && b in s :: !SlashClash(a, b)
  {
    forall i, j | 0 <= i < j < |s|
      ensures Less(Spelled(s)[j], Spelled(s)[i]) <==> SlashClash(s[i], s[j])
      ensures !SlashClash(s[j], s[i])
    {
      InOrderClash(s, i, j);
    }
    if Sorted(Spelled(s), Less) {
      forall a, b | a in s && b in s ensures !SlashClash(a, b) {
        var i :| 0 <= i < |s| && s[i] == a;
        var j :| 0 <= j < |s| && s[j] == b;
        assert i < j ==> !Less(Spelled(s)[j], Spelled(s)[i]);
      }
    }
  }

  lemma InOrderClash(s: seq<Name>, i: nat, j: nat)
    requires Distinct(s) && Sorted(s, Less) && (forall name | name in s :: '/' !in name) && i < j < |s|
    ensures Less(Spelled(s)[j], Spelled(s)[i]) <==> SlashClash(s[i], s[j])
    ensures !SlashClash(s[j], s[i])
  {
    assert s[i] in s && s[j] in s && s[i] != s[j] && !Less(s[j], s[i]);
    SlashOrder(s[j], s[i]);
  }

  lemma RenderedKept(children: seq<Child>, stored: Option<seq<Name>>, implicitIndex: Option<int>, keep: Name -> bool)
    ensures var listed := if stored.Some? then stored.value else [];
      Filter(Rendered(children, stored, implicitIndex), keep)
      == SortBy(Filter(Spelled(SortBy(FolderNames(children), Less)), keep) + Filter(SortBy(FileEntries(children), Less), keep),
                ByRank(listed, implicitIndex))
  {
    var listed := if stored.Some? then stored.value else [];
    var less := ByRank(listed, implicitIndex);
    var folders, files := Spelled(SortBy(FolderNames(children), Less)), SortBy(FileEntries(children), Less);
    ByRankWeakOrder(listed, implicitIndex);
    FilterConcat(folders, files, keep);
    if stored.Some? {
      SortByFilter(folders + files, less, keep);
    } else {
      SortBySorted(Filter(folders + files, keep), less);
    }
  }

  lemma RestKept(children: seq<Child>, stored: seq<Name>, name: Name, implicitIndex: Option<int>, allowHidden: bool)
    ensures var keep := Kept(stored, allowHidden, name);
      Without(MaterializedOrder(children, stored, implicitIndex, allowHidden), name)
      == SortBy(Filter(SortBy(FolderEntries(children), Less), keep) + Filter(SortBy(FileEntries(children), Less), keep),
                ByRank(stored, implicitIndex))
  {
    var keep := Kept(stored, allowHidden, name);
    var less := ByRank(stored, implicitIndex);
    var entries := DirectoryEntries(children);
    var folders, files := SortBy(FolderEntries(children), Less), SortBy(FileEntries(children), Less);
    ByRankWeakOrder(stored, implicitIndex);
    FilterSame(entries, e => Eligible(stored, allowHidden, e), IsEligible(stored, allowHidden));
    var chosen := Filter(entries, IsEligible(stored, allowHidden));
    assert MaterializedOrder(children, stored, implicitIndex, allowHidden) == SortBy(chosen, less);
    FilterSame(SortBy(chosen, less), (e: Name) => EntryName(e) != name, Other(name));
    SortByFilter(chosen, less, Other(name));
    FilterBoth(entries, IsEligible(stored, allowHidden), Other(name));
    FilterConcat(folders, files, keep);
  }

  /** A reorder writes what was rendered, with its exact condition: the index it writes is the entry at
      the requested slot among the rendered rows it pins, in their rendered order, iff no two folders
      that only base order ranks sort differently with and without the trailing slash. */
  lemma ReorderKeepsRenderedIff(children: seq<Child>, stored: Option<seq<Name>>, entry: Child, slot: nat,
                                implicitIndex: Option<int>, allowHidden: bool)
    requires ValidChildren(children) && entry in children && IndexEntry(entry)
    ensures var listed := if stored.Some? then stored.value else [];
      var rows := Filter(Rendered(children, stored, implicitIndex), Kept(listed, allowHidden, entry.name));
      Reordered(children, stored, entry, PlacedAt(slot), implicitIndex, allowHidden)
        == rows[..Min(slot, |rows|)] + [Canonical(entry)] + rows[Min(slot, |rows|)..]
      <==> NoImplicitClash(children, listed, allowHidden, entry.name)
  {
    var listed := if stored.Some? then stored.value else [];
    var name, keep := entry.name, Kept(listed, allowHidden, entry.name);
    var rows := Filter(Rendered(children, stored, implicitIndex), keep);
    var rest := Without(MaterializedOrder(children, listed, implicitIndex, allowHidden), name);
    RestIsRenderedIff(children, stored, name, implicitIndex, allowHidden);
    CanonicalName(entry);
    KeptOthers(Rendered(children, stored, implicitIndex), listed, allowHidden, name);
    WithoutOthers(MaterializedOrder(children, listed, implicitIndex, allowHidden), name);
    PlacedAlikeIff(rest, rows, name, Canonical(entry), slot);
  }

  lemma KeptOthers(entries: seq<Name>, stored: seq<Name>, allowHidden: bool, name: Name)
    ensures forall e | e in Filter(entries, Kept(stored, allowHidden, name)) :: EntryName(e) != name
  {
    FilterMembers(entries, Kept(stored, allowHidden, name));
  }

  lemma WithoutOthers(entries: seq<Name>, name: Name)
    ensures forall e | e in Without(entries, name) :: EntryName(e) != name
  {
    FilterMembers(entries, (e: Name) => EntryName(e) != name);
  }

  /** Placing the same entry at the same slot gives the same index only of the same rest. */
  lemma PlacedAlikeIff(rest: seq<Name>, rows: seq<Name>, name: Name, c: Name, slot: nat)
    requires EntryName(c) == name
    requires (forall e | e in rest :: EntryName(e) != name) && (forall e | e in rows :: EntryName(e) != name)
    ensures rest[..Min(slot, |rest|)] + [c] + rest[Min(slot, |rest|)..] == rows[..Min(slot, |rows|)] + [c] + rows[Min(slot, |rows|)..]
       <==> rest == rows
  {
    WithoutPlaced(rows, name, c, Min(slot, |rows|));
    WithoutPlaced(rest, name, c, Min(slot, |rest|));
  }

  lemma RestIsRenderedIff(children: seq<Child>, stored: Option<seq<Name>>, name: Name, implicitIndex: Option<int>,
                          allowHidden: bool)
    requires ValidChildren(children)
    ensures var listed := if stored.Some? then stored.value else [];
      Without(MaterializedOrder(children, listed, implicitIndex, allowHidden), name)
        == Filter(Rendered(children, stored, implicitIndex), Kept(listed, allowHidden, name))
      <==> NoImplicitClash(children, listed, allowHidden, name)
  {
    var listed := if stored.Some? then stored.value else [];
    RenderedKept(children, stored, implicitIndex, Kept(listed, allowHidden, name));
    RestKept(children, listed, name, implicitIndex, allowHidden);
    RestIsRowsIff(children, listed, name, implicitIndex, allowHidden);
  }

  lemma RestIsRowsIff(children: seq<Child>, listed: seq<Name>, name: Name, implicitIndex: Option<int>,
                      allowHidden: bool)
    requires ValidChildren(children)
    ensures var keep, less := Kept(listed, allowHidden, name), ByRank(listed, implicitIndex);
      var files := Filter(SortBy(FileEntries(children), Less), keep);
      SortBy(Filter(SortBy(FolderEntries(children), Less), keep) + files, less)
        == SortBy(Filter(Spelled(SortBy(FolderNames(children), Less)), keep) + files, less)
      <==> NoImplicitClash(children, listed, allowHidden, name)
  {
    var keep, less, tied := Kept(listed, allowHidden, name), ByRank(listed, implicitIndex), Implicit(listed);
    var names := FolderNames(children);
    var kept := Filter(names, OnFolder(keep));
    var files := Filter(SortBy(FileEntries(children), Less), keep);
    LessWeakOrder();
    ByRankWeakOrder(listed, implicitIndex);
    FolderNamesValid(children);
    FilterDistinct(names, OnFolder(keep));
    FilterMembers(names, OnFolder(keep));
    KeptFolders(children, keep);
    ShownFolders(children, keep);
    RowsComparable(children, listed, name, implicitIndex, allowHidden);
    FoldersSameEntries(kept);
    SortEqualIffTiesEqual(SortBy(Spelled(kept), Less) + files, Spelled(SortBy(kept, Less)) + files, less, tied);
    ImplicitFoldersIffNoClash(kept, files, tied);
  }

  lemma FoldersSameEntries(kept: seq<Name>)
    requires Distinct(kept)
    ensures multiset(SortBy(Spelled(kept), Less)) == multiset(Spelled(SortBy(kept, Less)))
  {
    LessWeakOrder();
    SortBySorts(kept, Less);
    SameElements(kept, SortBy(kept, Less));
    SortBySorts(Spelled(kept), Less);
    SpelledPermutes(SortBy(kept, Less), kept);
  }

  /** Of the two folder orders, only the part `tied` selects is compared, and it agrees iff nothing clashes. */
  lemma ImplicitFoldersIffNoClash(kept: seq<Name>, files: seq<Name>, tied: Name -> bool)
    requires Distinct(kept) && forall name | name in kept :: '/' !in name
    ensures Filter(SortBy(Spelled(kept), Less) + files, tied) == Filter(Spelled(SortBy(kept, Less)) + files, tied)
       <==> forall a, b | a in kept && b in kept && tied(DirectoryEntry(a)) && tied(DirectoryEntry(b)) :: !SlashClash(a, b)
  {
    LessWeakOrder();
    var implicit := Filter(kept, OnFolder(tied));
    FilterDistinct(kept, OnFolder(tied));
    FilterMembers(kept, OnFolder(tied));
    FilterConcat(SortBy(Spelled(kept), Less), files, tied);
    FilterConcat(Spelled(SortBy(kept, Less)), files, tied);
    SortByFilter(Spelled(kept), Less, tied);
    FilterSpelled(kept, tied);
    FilterSpelled(SortBy(kept, Less), tied);
    SortByFilter(kept, Less, OnFolder(tied));
    CancelSuffix(SortBy(Spelled(implicit), Less), Spelled(SortBy(implicit, Less)), Filter(files, tied));
    SpelledSortIffNoClash(implicit);
  }

  lemma ShownFolders(children: seq<Child>, keep: Name -> bool)
    ensures Filter(Spelled(SortBy(FolderNames(children), Less)), keep)
         == Spelled(SortBy(Filter(FolderNames(children), OnFolder(keep)), Less))
  {
    LessWeakOrder();
    FilterSpelled(SortBy(FolderNames(children), Less), keep);
    SortByFilter(FolderNames(children), Less, OnFolder(keep));
  }

  lemma CancelSuffix(s: seq<Name>, t: seq<Name>, u: seq<Name>)
    ensures s + u == t + u <==> s == t
  {
    if s + u == t + u {
      assert |s| == |t|;
      assert s == (s + u)[..|s|] && t == (t + u)[..|t|];
    }
  }

  /** The written folders that are kept: filtering the sorted folder entries. */
  lemma KeptFolders(children: seq<Child>, keep: Name -> bool)
    requires ValidChildren(children) && forall e | keep(e) :: NotIndex(e)
    ensures Filter(SortBy(FolderEntries(children), Less), keep)
         == SortBy(Spelled(Filter(FolderNames(children), OnFolder(keep))), Less)
  {
    LessWeakOrder();
    FolderEntriesSpelled(children);
    SortByFilter(FolderEntries(children), Less, keep);
    FilterBoth(Spelled(FolderNames(children)), NotIndex, keep);
    FilterSame(Spelled(FolderNames(children)), Both(NotIndex, keep), keep);
    FilterSpelled(FolderNames(children), keep);
  }

  lemma RowsComparable(children: seq<Child>, listed: seq<Name>, name: Name, implicitIndex: Option<int>,
                       allowHidden: bool)
    requires ValidChildren(children)
    ensures var keep, less, tied := Kept(listed, allowHidden, name), ByRank(listed, implicitIndex), Implicit(listed);
      var left := SortBy(Spelled(Filter(FolderNames(children), OnFolder(keep))), Less)
                + Filter(SortBy(FileEntries(children), Less), keep);
      && (forall x, y | x in left && y in left && tied(x) && tied(y) :: !less(x, y))
      && (forall x, y | x in left && y in left && x != y && !(tied(x) && tied(y)) :: less(x, y) || less(y, x))
  {
    var keep, less := Kept(listed, allowHidden, name), ByRank(listed, implicitIndex);
    var files := SortBy(FileEntries(children), Less);
    var left := SortBy(Spelled(Filter(FolderNames(children), OnFolder(keep))), Less) + Filter(files, keep);
    KeptFolders(children, keep);
    FilterMembers(SortBy(FolderEntries(children), Less), keep);
    FilterMembers(files, keep);
    forall e | e in left ensures IsEntry(children, e) {
      assert e in DirectoryEntries(children);
      EntryMembers(children, e);
    }
    forall x, y | x in left && y in left && x != y && (Listed(listed, x) || Listed(listed, y))
      ensures less(x, y) || less(y, x)
    {
      if EntryName(x) == EntryName(y) {
        SameNameSameEntry(children, x, y);
      } else if Listed(listed, x) && Listed(listed, y) {
        assert PositionOf(listed, EntryName(x)) != PositionOf(listed, EntryName(y));
      }
    }
  }

  /** The two base orders do part ways: with no index, a folder and its `-old` sibling render in that order, and
      pinning any other entry writes them the other way round. */
  lemma OldSiblingChangesPlaces(a: Name, other: Name)
    requires a != [] && '/' !in a && a[0] != '.'
    requires other != [] && '/' !in other && other != a && other != a + "-old"
    ensures var children := [Folder(a), Folder(a + "-old"), File(other)];
      ValidChildren(children) && !NoImplicitClash(children, [], false, other)
  {
    var b := a + "-old";
    var children := [Folder(a), Folder(b), File(other)];
    assert '/' !in b && b != [] && b[0] == a[0] && |b| == |a| + 4;
    TwoFolders(a, b, other);
    assert b[..|a|] == a && b[|a|] == '-' && SlashClash(a, b);
    ImplicitFolder(a, other);
    ImplicitFolder(b, other);
    ClashBreaks(children, other, a, b);
  }

  lemma TwoFolders(a: Name, b: Name, other: Name)
    requires a != b && a != other && b != other
    requires a != [] && b != [] && other != [] && '/' !in a && '/' !in b && '/' !in other
    ensures var children := [Folder(a), Folder(b), File(other)];
      ValidChildren(children) && a in FolderNames(children) && b in FolderNames(children)
  {
    var children := [Folder(a), Folder(b), File(other)];
    assert children[1..] == [Folder(b), File(other)] && children[1..][1..] == [File(other)];
    assert FolderNames(children) == [a] + ([b] + FolderNames([File(other)]));
  }

  lemma ClashBreaks(children: seq<Child>, other: Name, a: Name, b: Name)
    requires a in FolderNames(children) && b in FolderNames(children) && SlashClash(a, b)
    requires Kept([], false, other)(DirectoryEntry(a)) && Implicit([])(DirectoryEntry(a))
    requires Kept([], false, other)(DirectoryEntry(b)) && Implicit([])(DirectoryEntry(b))
    ensures !NoImplicitClash(children, [], false, other)
  {
  }

  /** With no index at all, a visible folder other than the entry placed is pinned by base order alone. */
  lemma ImplicitFolder(name: Name, other: Name)
    requires name != [] && '/' !in name && name[0] != '.' && name != other
    ensures Kept([], false, other)(DirectoryEntry(name)) && Implicit([])(DirectoryEntry(name))
  {
    assert EntryName(DirectoryEntry(name)) == name;
  }
}
