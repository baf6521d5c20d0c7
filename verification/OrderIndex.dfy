/** The per-directory order index: ranking a listing by it, and moving one entry inside it. */
module OrderIndex {
  import opened Wrappers
  import opened Paths
  import opened Sorting
  import opened Bytewise

  const UNLISTED_POSITION: int := -1
  const I64_MAX: int := 0x7fff_ffff_ffff_ffff

  function EntryName(entry: Name): Name {
    if entry != [] && entry[|entry| - 1] == '/' then entry[..|entry| - 1] else entry
  }

  function DirectoryEntry(name: Name): Name {
    name + "/"
  }

  predicate IsHidden(entry: Name) {
    var name := EntryName(entry);
    name != [] && name[0] == '.'
  }

  /** Where `order` first names `name`, under either spelling. */
  function PositionOf(order: seq<Name>, name: Name): (position: int)
    ensures UNLISTED_POSITION <= position < |order|
    ensures position >= 0 ==> EntryName(order[position]) == name
    ensures forall j | 0 <= j < (if position >= 0 then position else |order|) :: EntryName(order[j]) != name
  {
    if order == [] then UNLISTED_POSITION
    else if EntryName(order[0]) == name then 0
    else
      var rest := PositionOf(order[1..], name);
      if rest < 0 then UNLISTED_POSITION else rest + 1
  }

  predicate Listed(order: seq<Name>, entry: Name) {
    PositionOf(order, EntryName(entry)) >= 0
  }

  lemma PositionUnique(order: seq<Name>, name: Name, i: nat)
    requires i < |order| && EntryName(order[i]) == name
    requires forall j | 0 <= j < i :: EntryName(order[j]) != name
    ensures PositionOf(order, name) == i
  {}

  /** `order_ranks`: the first position of every name, as a table. */
  method OrderRanks(order: seq<Name>) returns (ranks: map<Name, int>)
    ensures forall name :: name in ranks <==> PositionOf(order, name) >= 0
    ensures forall name | name in ranks :: ranks[name] == PositionOf(order, name)
  {
    ranks := map[];
    for position := 0 to |order|
      invariant forall name | name in ranks :: 0 <= ranks[name] < position && EntryName(order[ranks[name]]) == name
      invariant forall name, j | name in ranks && 0 <= j < ranks[name] :: EntryName(order[j]) != name
      invariant forall j | 0 <= j < position :: EntryName(order[j]) in ranks
    {
      var name := EntryName(order[position]);
      if name !in ranks {
        ranks := ranks[name := position];
      }
    }
    forall name | name in ranks ensures ranks[name] == PositionOf(order, name) {
      PositionUnique(order, name, ranks[name]);
    }
  }

  type Rank = (int, bool)

  /** A listed entry ranks at its position; an unlisted one at the implicit index, above a listed tie. */
  function OrderRank(order: seq<Name>, name: Name, implicitIndex: Option<int>): Rank {
    var position := PositionOf(order, name);
    if position >= 0 then (position, true)
    else (if implicitIndex.Some? then implicitIndex.value else I64_MAX, false)
  }

  predicate RankLess(left: Rank, right: Rank) {
    left.0 < right.0 || (left.0 == right.0 && !left.1 && right.1)
  }

  function ByRank(order: seq<Name>, implicitIndex: Option<int>): (Name, Name) -> bool {
    (x, y) => RankLess(OrderRank(order, EntryName(x), implicitIndex), OrderRank(order, EntryName(y), implicitIndex))
  }

  lemma ByRankWeakOrder(order: seq<Name>, implicitIndex: Option<int>)
    ensures WeakOrder(ByRank(order, implicitIndex))
  {}

  // A directory's children

  datatype Child = Folder(name: Name) | File(name: Name)

  function FolderNames(children: seq<Child>): seq<Name> {
    if children == [] then []
    else if children[0].Folder? then [children[0].name] + FolderNames(children[1..])
    else FolderNames(children[1..])
  }

  predicate IndexEntry(child: Child) {
    child.name != ORDER_FILE_NAME
  }

  /** The folders an index can name, in index spelling. */
  function FolderEntries(children: seq<Child>): seq<Name> {
    if children == [] then []
    else if children[0].Folder? && IndexEntry(children[0])
    then [DirectoryEntry(children[0].name)] + FolderEntries(children[1..])
    else FolderEntries(children[1..])
  }

  /** The files a listing shows: all but the index itself. */
  function FileEntries(children: seq<Child>): seq<Name> {
    if children == [] then []
    else if children[0].File? && IndexEntry(children[0]) then [children[0].name] + FileEntries(children[1..])
    else FileEntries(children[1..])
  }

  function Spelled(names: seq<Name>): seq<Name> {
    seq(|names|, i requires 0 <= i < |names| => DirectoryEntry(names[i]))
  }

  /** What a tree object guarantees: names are unique, not empty and hold no slash. */
  predicate ValidChildren(children: seq<Child>) {
    && (forall i, j | 0 <= i < j < |children| :: children[i].name != children[j].name)
    && (forall c | c in children :: c.name != [] && '/' !in c.name)
  }

  predicate NotIndex(entry: Name) {
    EntryName(entry) != ORDER_FILE_NAME
  }

  /** `directory_entries`: folders sorted with their trailing slash, then files, without the index. */
  function DirectoryEntries(children: seq<Child>): seq<Name> {
    SortBy(FolderEntries(children), Less) + SortBy(FileEntries(children), Less)
  }

  /** The source's loop over the tree's entries, skipping the index and splitting folders from files. */
  method CollectDirectoryEntries(children: seq<Child>) returns (entries: seq<Name>)
    ensures entries == DirectoryEntries(children)
  {
    var directories: seq<Name> := [];
    var files: seq<Name> := [];
    for i := 0 to |children|
      invariant directories + FolderEntries(children[i..]) == FolderEntries(children)
      invariant files + FileEntries(children[i..]) == FileEntries(children)
    {
      assert children[i..][1..] == children[i + 1..];
      if children[i].name == ORDER_FILE_NAME {
        continue;
      }
      match children[i] {
        case Folder(name) => directories := directories + [DirectoryEntry(name)];
        case File(name) => files := files + [name];
      }
    }
    assert children[|children|..] == [];
    assert directories + [] == directories && files + [] == files;
    entries := SortBy(directories, Less) + SortBy(files, Less);
  }

  /** The rendered rows of a directory in index spelling: folders by bare name, then files, ranked by
      the stored order when there is one. */
  function Rendered(children: seq<Child>, stored: Option<seq<Name>>, implicitIndex: Option<int>): seq<Name> {
    var base := Spelled(SortBy(FolderNames(children), Less)) + SortBy(FileEntries(children), Less);
    if stored.Some? then SortBy(base, ByRank(stored.value, implicitIndex)) else base
  }

  predicate Eligible(stored: seq<Name>, allowHidden: bool, entry: Name) {
    NotIndex(entry) && (allowHidden || !IsHidden(entry) || Listed(stored, entry))
  }

  function MaterializedOrder(children: seq<Child>, stored: seq<Name>, implicitIndex: Option<int>,
                             allowHidden: bool): seq<Name> {
    SortBy(Filter(DirectoryEntries(children), e => Eligible(stored, allowHidden, e)), ByRank(stored, implicitIndex))
  }

  datatype OrderPosition = PlacedAt(slot: nat) | Unlisted

  function Without(entries: seq<Name>, name: Name): seq<Name> {
    Filter(entries, e => EntryName(e) != name)
  }

  function Min(a: nat, b: nat): nat {
    if a < b then a else b
  }

  /** `reorder_entry` up to staging: the entries the index ends up with. */
  function Reordered(children: seq<Child>, stored: Option<seq<Name>>, entry: Child, position: OrderPosition,
                     implicitIndex: Option<int>, allowHidden: bool): seq<Name>
  {
    var listed := if stored.Some? then stored.value else [];
    match position
    case Unlisted => Without(listed, entry.name)
    case PlacedAt(slot) =>
      var rest := Without(MaterializedOrder(children, listed, implicitIndex, allowHidden), entry.name);
      var at := Min(slot, |rest|);
      rest[..at] + [Canonical(entry)] + rest[at..]
  }

  function Canonical(entry: Child): Name {
    match entry
    case Folder(name) => DirectoryEntry(name)
    case File(name) => name
  }

  lemma CanonicalName(entry: Child)
    requires entry.name != [] && '/' !in entry.name
    ensures EntryName(Canonical(entry)) == entry.name
  {}

  // Reading a slot back

  lemma PlacedReadsBack(rest: seq<Name>, entry: Child, slot: nat)
    requires entry.name != [] && '/' !in entry.name && slot <= |rest|
    requires forall e | e in rest :: EntryName(e) != entry.name
    ensures PositionOf(rest[..slot] + [Canonical(entry)] + rest[slot..], entry.name) == slot
  {
    CanonicalName(entry);
    PositionUnique(rest[..slot] + [Canonical(entry)] + rest[slot..], entry.name, slot);
  }

  /** After placing an entry, the read route reports the slot it was placed at, clamped to the tail. */
  lemma ReorderReadsBack(children: seq<Child>, stored: Option<seq<Name>>, entry: Child, slot: nat,
                         implicitIndex: Option<int>, allowHidden: bool)
    requires ValidChildren(children) && entry in children
    ensures var written := Reordered(children, stored, entry, PlacedAt(slot), implicitIndex, allowHidden);
      PositionOf(written, entry.name) == Min(slot, |written| - 1)
  {
    var listed := if stored.Some? then stored.value else [];
    var keep := (e: Name) => EntryName(e) != entry.name;
    var entries := MaterializedOrder(children, listed, implicitIndex, allowHidden);
    FilterMembers(entries, keep);
    PlacedReadsBack(Without(entries, entry.name), entry, Min(slot, |Without(entries, entry.name)|));
  }

  // Repeating the request

  ghost predicate DistinctNames(entries: seq<Name>) {
    forall i, j | 0 <= i < j < |entries| :: EntryName(entries[i]) != EntryName(entries[j])
  }

  /** Ranking the entries of a complete index by that index gives the index back. */
  lemma RankedByItself(entries: seq<Name>, written: seq<Name>, implicitIndex: Option<int>)
    requires multiset(entries) == multiset(written) && DistinctNames(written)
    ensures SortBy(entries, ByRank(written, implicitIndex)) == written
  {
    var less := ByRank(written, implicitIndex);
    ByRankWeakOrder(written, implicitIndex);
    SortBySorts(entries, less);
    forall i | 0 <= i < |written| ensures PositionOf(written, EntryName(written[i])) == i {
      PositionUnique(written, EntryName(written[i]), i);
    }
    assert Sorted(written, less);
    forall x, y | x in written && y in written && x != y ensures less(x, y) || less(y, x) {
      var i :| 0 <= i < |written| && written[i] == x;
      var j :| 0 <= j < |written| && written[j] == y;
    }
    SortedUnique(written, SortBy(entries, less), less);
  }

  // What a directory's entries are

  lemma {:induction false} FolderEntriesMembers(children: seq<Child>, e: Name)
    requires ValidChildren(children)
    ensures e in FolderEntries(children) <==> e != [] && e[|e| - 1] == '/' && NotIndex(e) && Folder(EntryName(e)) in children
  {
    if children != [] {
      ValidTail(children);
      FolderEntriesMembers(children[1..], e);
      CanonicalName(children[0]);
      if e != [] && e[|e| - 1] == '/' {
        assert e == DirectoryEntry(EntryName(e));
      }
    }
  }

  lemma {:induction false} FileEntriesMembers(children: seq<Child>, e: Name)
    requires ValidChildren(children)
    ensures e in FileEntries(children) <==> NotIndex(e) && File(e) in children
  {
    if children != [] {
      ValidTail(children);
      FileEntriesMembers(children[1..], e);
      CanonicalName(children[0]);
    }
  }

  lemma EntryListsMembers(children: seq<Child>, e: Name)
    requires ValidChildren(children)
    ensures e in FolderEntries(children) <==> e != [] && e[|e| - 1] == '/' && NotIndex(e) && Folder(EntryName(e)) in children
    ensures e in FileEntries(children) <==> NotIndex(e) && File(e) in children
  {
    FolderEntriesMembers(children, e);
    FileEntriesMembers(children, e);
  }

  lemma ValidTail(children: seq<Child>)
    requires ValidChildren(children) && children != []
    ensures ValidChildren(children[1..])
    ensures forall c | c in children[1..] :: c.name != children[0].name
  {
    forall i, j | 0 <= i < j < |children[1..]| ensures children[1..][i].name != children[1..][j].name {
      assert children[i + 1].name != children[j + 1].name;
    }
    forall c | c in children[1..] ensures c.name != children[0].name {
      var i :| 0 <= i < |children[1..]| && children[1..][i] == c;
      assert children[i + 1] == c;
    }
  }

  lemma {:induction false} EntryListsDistinct(children: seq<Child>)
    requires ValidChildren(children)
    ensures Distinct(FolderEntries(children)) && Distinct(FileEntries(children))
  {
    if children != [] {
      ValidTail(children);
      EntryListsDistinct(children[1..]);
      CanonicalName(children[0]);
      EntryListsMembers(children[1..], Canonical(children[0]));
    }
  }

  ghost predicate IsEntry(children: seq<Child>, e: Name) {
    exists c :: c in children && c.name != ORDER_FILE_NAME && Canonical(c) == e
  }

  lemma EntryMembers(children: seq<Child>, e: Name)
    requires ValidChildren(children)
    ensures e in DirectoryEntries(children) <==> IsEntry(children, e)
  {
    DirectoryEntriesMembers(children, e);
    ListedIsEntry(children, e);
    EntryListsMembers(children, e);
    if IsEntry(children, e) {
      var c :| c in children && c.name != ORDER_FILE_NAME && Canonical(c) == e;
      CanonicalName(c);
    }
  }

  lemma DirectoryEntriesMembers(children: seq<Child>, e: Name)
    ensures e in DirectoryEntries(children) <==> e in FolderEntries(children) || e in FileEntries(children)
  {
    LessWeakOrder();
    var folders, files := FolderEntries(children), FileEntries(children);
    SortBySorts(folders, Less);
    SortBySorts(files, Less);
    SameElements(folders, SortBy(folders, Less));
    SameElements(files, SortBy(files, Less));
  }

  lemma ListedIsEntry(children: seq<Child>, e: Name)
    requires ValidChildren(children)
    ensures e in FolderEntries(children) || e in FileEntries(children) ==> IsEntry(children, e)
  {
    EntryListsMembers(children, e);
    if e in FolderEntries(children) {
      var c := Folder(EntryName(e));
      assert c in children && c.name != ORDER_FILE_NAME && Canonical(c) == e;
    } else if e in FileEntries(children) {
      var c := File(e);
      assert c in children && c.name != [] && '/' !in c.name;
      CanonicalName(c);
      assert c.name != ORDER_FILE_NAME && Canonical(c) == e;
    }
  }

  lemma SameNameSameEntry(children: seq<Child>, e: Name, f: Name)
    requires ValidChildren(children) && IsEntry(children, e) && IsEntry(children, f)
    requires EntryName(e) == EntryName(f)
    ensures e == f
  {
    var c :| c in children && c.name != ORDER_FILE_NAME && Canonical(c) == e;
    var d :| d in children && d.name != ORDER_FILE_NAME && Canonical(d) == f;
    CanonicalName(c);
    CanonicalName(d);
    var i :| 0 <= i < |children| && children[i] == c;
    var j :| 0 <= j < |children| && children[j] == d;
    assert i == j;
  }

  lemma EntriesDistinct(children: seq<Child>)
    requires ValidChildren(children)
    ensures Distinct(DirectoryEntries(children))
  {
    LessWeakOrder();
    var folders, files := FolderEntries(children), FileEntries(children);
    EntryListsDistinct(children);
    SortBySorts(folders, Less);
    SortBySorts(files, Less);
    SameElements(folders, SortBy(folders, Less));
    SameElements(files, SortBy(files, Less));
    forall e | e in folders ensures e !in files {
      EntryListsMembers(children, e);
    }
    DistinctConcat(SortBy(folders, Less), SortBy(files, Less));
  }

  lemma DistinctConcat<T>(s: seq<T>, t: seq<T>)
    requires Distinct(s) && Distinct(t) && forall x | x in s :: x !in t
    ensures Distinct(s + t)
  {
    forall i, j | 0 <= i < j < |s + t| ensures (s + t)[i] != (s + t)[j] {
      if i < |s| <= j { assert s[i] in s && t[j - |s|] in t; }
    }
  }

  /** The materialised entries: the eligible ones, each once. */
  lemma MaterializedMembers(children: seq<Child>, stored: seq<Name>, implicitIndex: Option<int>, allowHidden: bool)
    requires ValidChildren(children)
    ensures var entries := MaterializedOrder(children, stored, implicitIndex, allowHidden);
      && DistinctNames(entries)
      && forall e :: e in entries <==> IsEntry(children, e) && Eligible(stored, allowHidden, e)
  {
    var elig := (e: Name) => Eligible(stored, allowHidden, e);
    var chosen := Filter(DirectoryEntries(children), elig);
    var less := ByRank(stored, implicitIndex);
    var entries := MaterializedOrder(children, stored, implicitIndex, allowHidden);
    ByRankWeakOrder(stored, implicitIndex);
    EntriesDistinct(children);
    FilterDistinct(DirectoryEntries(children), elig);
    FilterMembers(DirectoryEntries(children), elig);
    SortBySorts(chosen, less);
    SameElements(chosen, SortBy(chosen, less));
    forall e ensures e in entries <==> IsEntry(children, e) && Eligible(stored, allowHidden, e) {
      EntryMembers(children, e);
      assert e in chosen <==> e in DirectoryEntries(children) && elig(e);
    }
    forall i, j | 0 <= i < j < |entries| ensures EntryName(entries[i]) != EntryName(entries[j]) {
      assert entries[i] in entries && entries[j] in entries;
      if EntryName(entries[i]) == EntryName(entries[j]) {
        SameNameSameEntry(children, entries[i], entries[j]);
      }
    }
  }

  lemma PlacedDistinct(rest: seq<Name>, entry: Child, slot: nat)
    requires DistinctNames(rest) && slot <= |rest| && entry.name != [] && '/' !in entry.name
    requires forall e | e in rest :: EntryName(e) != entry.name
    ensures DistinctNames(rest[..slot] + [Canonical(entry)] + rest[slot..])
  {
    CanonicalName(entry);
  }

  /** The index written: the eligible entries and the one placed, each named once. */
  lemma WrittenMembers(children: seq<Child>, stored: seq<Name>, entry: Child, slot: nat,
                       implicitIndex: Option<int>, allowHidden: bool)
    requires ValidChildren(children) && entry in children && entry.name != ORDER_FILE_NAME
    ensures var written := Reordered(children, Some(stored), entry, PlacedAt(slot), implicitIndex, allowHidden);
      && DistinctNames(written)
      && forall e :: e in written <==> e == Canonical(entry) || (IsEntry(children, e) && Eligible(stored, allowHidden, e))
  {
    var entries := MaterializedOrder(children, stored, implicitIndex, allowHidden);
    var keep := (e: Name) => EntryName(e) != entry.name;
    var rest := Without(entries, entry.name);
    var at := Min(slot, |rest|);
    CanonicalName(entry);
    MaterializedMembers(children, stored, implicitIndex, allowHidden);
    FilterMembers(entries, keep);
    FilterDistinctNames(entries, keep);
    PlacedDistinct(rest, entry, at);
    var written := rest[..at] + [Canonical(entry)] + rest[at..];
    forall e ensures e in written <==> e == Canonical(entry) || (IsEntry(children, e) && Eligible(stored, allowHidden, e)) {
      assert e in written <==> e == Canonical(entry) || e in rest by { assert rest == rest[..at] + rest[at..]; }
      if IsEntry(children, e) && EntryName(e) == entry.name {
        assert IsEntry(children, Canonical(entry));
        SameNameSameEntry(children, e, Canonical(entry));
      }
    }
  }

  /** A complete index materialises to itself. */
  lemma CompleteIndexMaterializes(children: seq<Child>, written: seq<Name>, implicitIndex: Option<int>,
                                  allowHidden: bool)
    requires ValidChildren(children) && DistinctNames(written)
    requires forall e | e in written :: IsEntry(children, e)
    requires forall e | IsEntry(children, e) && (allowHidden || !IsHidden(e)) :: e in written
    ensures MaterializedOrder(children, written, implicitIndex, allowHidden) == written
  {
    var elig := (e: Name) => Eligible(written, allowHidden, e);
    var chosen := Filter(DirectoryEntries(children), elig);
    EntriesDistinct(children);
    FilterDistinct(DirectoryEntries(children), elig);
    FilterMembers(DirectoryEntries(children), elig);
    forall e ensures e in chosen <==> e in written {
      EntryMembers(children, e);
      if e in written {
        var i :| 0 <= i < |written| && written[i] == e;
        PositionUnique(written, EntryName(e), i);
        var c :| c in children && c.name != ORDER_FILE_NAME && Canonical(c) == e;
        CanonicalName(c);
      }
      if e in chosen && Listed(written, e) {
        var p := PositionOf(written, EntryName(e));
        assert written[p] in written;
        SameNameSameEntry(children, e, written[p]);
      }
    }
    assert Distinct(written);
    SameSetSameMultiset(chosen, written);
    RankedByItself(chosen, written, implicitIndex);
  }

  /** Two listings of a directory that differ at most in its index file. */
  ghost predicate SameEntries(children: seq<Child>, later: seq<Child>) {
    forall c: Child :: c.name != ORDER_FILE_NAME ==> (c in children <==> c in later)
  }

  lemma SameEntriesListed(children: seq<Child>, later: seq<Child>, e: Name)
    requires SameEntries(children, later)
    ensures IsEntry(children, e) <==> IsEntry(later, e)
  {
    if IsEntry(children, e) {
      var c :| c in children && c.name != ORDER_FILE_NAME && Canonical(c) == e;
      assert c in later;
    }
    if IsEntry(later, e) {
      var c :| c in later && c.name != ORDER_FILE_NAME && Canonical(c) == e;
      assert c in children;
    }
  }

  /** Asking again for the slot just given changes nothing: on the directory as it is by then, the index file the first
      request may have added among its children, the same request writes the index it wrote. */
  lemma ReorderTwiceIsOnce(children: seq<Child>, later: seq<Child>, stored: Option<seq<Name>>, entry: Child, slot: nat,
                           implicitIndex: Option<int>, again: Option<int>, allowHidden: bool)
    requires ValidChildren(children) && ValidChildren(later) && SameEntries(children, later)
    requires entry in children && entry.name != ORDER_FILE_NAME
    ensures var written := Reordered(children, stored, entry, PlacedAt(slot), implicitIndex, allowHidden);
      Reordered(later, Some(written), entry, PlacedAt(slot), again, allowHidden) == written
  {
    var listed := if stored.Some? then stored.value else [];
    var entries := MaterializedOrder(children, listed, implicitIndex, allowHidden);
    var rest := Without(entries, entry.name);
    var at := Min(slot, |rest|);
    var written := rest[..at] + [Canonical(entry)] + rest[at..];
    CanonicalName(entry);
    WrittenMembers(children, listed, entry, slot, implicitIndex, allowHidden);
    WrittenIsComplete(children, later, listed, entry, written, allowHidden);
    CompleteIndexMaterializes(later, written, again, allowHidden);
    FilterMembers(entries, (e: Name) => EntryName(e) != entry.name);
    WithoutPlaced(rest, entry.name, Canonical(entry), at);
  }

  /** An index with those members is complete for the directory as it is afterwards. */
  lemma WrittenIsComplete(children: seq<Child>, later: seq<Child>, stored: seq<Name>, entry: Child, written: seq<Name>,
                          allowHidden: bool)
    requires SameEntries(children, later) && entry in children && entry.name != ORDER_FILE_NAME
    requires ValidChildren(children)
    requires forall e :: e in written <==> e == Canonical(entry) || (IsEntry(children, e) && Eligible(stored, allowHidden, e))
    ensures forall e | e in written :: IsEntry(later, e)
    ensures forall e | IsEntry(later, e) && (allowHidden || !IsHidden(e)) :: e in written
  {
    assert IsEntry(children, Canonical(entry));
    forall e
      ensures e in written ==> IsEntry(later, e)
      ensures IsEntry(later, e) && (allowHidden || !IsHidden(e)) ==> e in written
    {
      SameEntriesListed(children, later, e);
      if IsEntry(children, e) {
        var c :| c in children && c.name != ORDER_FILE_NAME && Canonical(c) == e;
        CanonicalName(c);
      }
    }
  }

  /** Dropping an entry twice is dropping it once. */
  lemma WithoutTwice(entries: seq<Name>, name: Name)
    ensures Without(Without(entries, name), name) == Without(entries, name)
    ensures PositionOf(Without(entries, name), name) == UNLISTED_POSITION
  {
    var keep := (e: Name) => EntryName(e) != name;
    FilterMembers(entries, keep);
    FilterAll(Filter(entries, keep), keep);
    var at := PositionOf(Without(entries, name), name);
    if at >= 0 { assert Without(entries, name)[at] in Filter(entries, keep); }
  }

  lemma WithoutPlaced(rest: seq<Name>, name: Name, c: Name, at: nat)
    requires at <= |rest| && EntryName(c) == name && forall e | e in rest :: EntryName(e) != name
    ensures Without(rest[..at] + [c] + rest[at..], name) == rest
  {
    var keep := (e: Name) => EntryName(e) != name;
    var front, back := rest[..at], rest[at..];
    assert rest == front + back;
    WithoutBetween(front, back, c, keep);
  }

  lemma WithoutBetween(front: seq<Name>, back: seq<Name>, c: Name, keep: Name -> bool)
    requires !keep(c) && (forall e | e in front :: keep(e)) && (forall e | e in back :: keep(e))
    ensures Filter(front + [c] + back, keep) == front + back
  {
    FilterConcat(front + [c], back, keep);
    FilterConcat(front, [c], keep);
    FilterAll(front, keep);
    FilterAll(back, keep);
    FilterNone([c], keep);
  }

  lemma {:induction false} FilterDistinctNames(xs: seq<Name>, keep: Name -> bool)
    requires DistinctNames(xs)
    ensures DistinctNames(Filter(xs, keep))
  {
    if xs != [] {
      assert DistinctNames(xs[1..]) by {
        forall i, j | 0 <= i < j < |xs[1..]| ensures EntryName(xs[1..][i]) != EntryName(xs[1..][j]) {
          assert EntryName(xs[i + 1]) != EntryName(xs[j + 1]);
        }
      }
      FilterDistinctNames(xs[1..], keep);
      FilterMembers(xs[1..], keep);
      forall e | e in xs[1..] ensures EntryName(e) != EntryName(xs[0]) {
        var i :| 0 <= i < |xs[1..]| && xs[1..][i] == e;
        assert xs[i + 1] == e;
      }
    }
  }
}
