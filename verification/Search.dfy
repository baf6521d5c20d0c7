/** Name search: one pre-order walk that remembers, in one variable, the matched folder it is inside of. */
module NameSearch {
  import opened Wrappers
  import opened Paths

  /** A git tree as the walk yields it; a link is a submodule, which the search passes over. */
  datatype Entry = BlobEntry(name: Name) | TreeEntry(name: Name, entries: seq<Entry>) | LinkEntry(name: Name)

  /** `hit` is "the lower-cased name starts with one of the lower-cased needles". */
  datatype Query = Query(hit: Name -> bool, maxDepth: Option<nat>, hidden: bool)

  predicate IsHidden(name: Name) {
    name != [] && name[0] == '.'
  }

  // The recursive definition

  /** Files found, matched folders, and folders found at the depth limit. */
  datatype Found = Found(files: seq<Path>, folders: seq<Path>, atLimit: seq<Path>)

  const NOTHING := Found([], [], [])

  function Plus(a: Found, b: Found): Found {
    Found(a.files + b.files, a.folders + b.folders, a.atLimit + b.atLimit)
  }

  predicate AtLimit(query: Query, depth: nat) {
    query.maxDepth.Some? && depth >= query.maxDepth.value
  }

  /** `inside`: some folder on the way down matched. */
  function Search(query: Query, entries: seq<Entry>, root: Path, inside: bool): Found
    decreases entries, 0
  {
    if entries == [] then NOTHING
    else Plus(SearchEntry(query, entries[0], root, inside), Search(query, entries[1..], root, inside))
  }

  function SearchEntry(query: Query, e: Entry, root: Path, inside: bool): Found
    decreases e, 1
  {
    var path := root + [e.name];
    var matched := inside || query.hit(e.name);
    if !query.hidden && IsHidden(e.name) then NOTHING
    else if e.BlobEntry? then
      if e.name != ORDER_FILE_NAME && matched then Found([path], [], []) else NOTHING
    else if e.LinkEntry? then NOTHING
    else if AtLimit(query, |path|) then
      if matched then Found([], [], [path]) else NOTHING
    else
      var below := Search(query, e.entries, path, matched);
      if matched && !inside then below.(folders := [path] + below.folders) else below
  }

  // The walk

  /** A root as the walk hands it to its callback: every component followed by a slash. */
  function Text(root: Path): string {
    if root == [] then "" else Text(root[..|root| - 1]) + root[|root| - 1] + "/"
  }

  function FullText(path: Path): string {
    if path == [] then "" else Text(Parent(path)) + Leaf(path)
  }

  function Texts(paths: seq<Path>): seq<string> {
    if paths == [] then [] else [FullText(paths[0])] + Texts(paths[1..])
  }

  function Slashes(s: string): nat {
    if s == "" then 0 else Slashes(s[..|s| - 1]) + if s[|s| - 1] == '/' then 1 else 0
  }

  lemma {:induction false} SlashesConcat(a: string, b: string)
    ensures Slashes(a + b) == Slashes(a) + Slashes(b)
  {
    if b == "" {
      assert a + b == a;
    } else {
      assert (a + b)[..|a + b| - 1] == a + b[..|b| - 1];
      SlashesConcat(a, b[..|b| - 1]);
    }
  }

  lemma {:induction false} NoSlashes(s: string)
    requires '/' !in s
    ensures Slashes(s) == 0
  {
    if s != "" { NoSlashes(s[..|s| - 1]); }
  }

  predicate Proper(root: Path) {
    forall name | name in root :: '/' !in name
  }

  ghost predicate ProperEntries(entries: seq<Entry>) {
    forall e | e in entries :: '/' !in e.name && (e.TreeEntry? ==> ProperEntries(e.entries))
  }

  /** A root's slashes count its depth. */
  lemma {:induction false} RootDepth(root: Path)
    requires Proper(root)
    ensures Slashes(Text(root)) == |root|
  {
    if root != [] {
      var up, name := root[..|root| - 1], root[|root| - 1];
      assert Proper(up) && name in root;
      RootDepth(up);
      SlashesConcat(Text(up) + name, "/");
      SlashesConcat(Text(up), name);
      NoSlashes(name);
      assert "/"[..0] == "";
    }
  }

  lemma {:induction false} TextsConcat(a: seq<Path>, b: seq<Path>)
    ensures Texts(a + b) == Texts(a) + Texts(b)
  {
    if a == [] {
      assert a + b == b;
    } else {
      assert (a + b)[1..] == a[1..] + b;
      TextsConcat(a[1..], b);
    }
  }

  lemma TextChild(root: Path, name: Name)
    ensures Text(root + [name]) == Text(root) + name + "/" && FullText(root + [name]) == Text(root) + name
  {
    assert (root + [name])[..|root|] == root;
  }

  /** Everything found below a root is spelled beneath it. */
  ghost predicate Beneath(found: Found, root: Path) {
    forall p | p in found.files + found.folders + found.atLimit :: |root| < |p| && root <= p
  }

  lemma {:induction false} FoundBeneath(query: Query, entries: seq<Entry>, root: Path, inside: bool)
    ensures Beneath(Search(query, entries, root, inside), root)
    decreases entries, 0
  {
    if entries != [] {
      EntryBeneath(query, entries[0], root, inside);
      FoundBeneath(query, entries[1..], root, inside);
    }
  }

  lemma {:induction false} EntryBeneath(query: Query, e: Entry, root: Path, inside: bool)
    ensures Beneath(SearchEntry(query, e, root, inside), root)
    ensures forall p | p in (var f := SearchEntry(query, e, root, inside); f.files + f.folders + f.atLimit) :: p[|root|] == e.name
    decreases e, 1
  {
    if e.TreeEntry? {
      FoundBeneath(query, e.entries, root + [e.name], inside || query.hit(e.name));
      assert forall p: Path | |root| + 1 < |p| && root + [e.name] <= p :: root <= p && p[|root|] == e.name;
    }
  }

  datatype Captures = Captures(flat: seq<string>, dirStubs: seq<string>, depthStubs: seq<string>)

  /** Where the walk stands relative to the folder remembered. */
  predicate Inside(matched: Option<string>, root: string) {
    matched.Some? && matched.value <= root
  }

  /** A folder the walk goes into. */
  predicate Entered(query: Query, depth: nat, e: Entry) {
    e.TreeEntry? && (query.hidden || !IsHidden(e.name)) && !AtLimit(query, depth + 1)
  }

  /** What the callback records at one entry, `inside` a matched folder or not. */
  function Visited(query: Query, before: Captures, root: string, depth: nat, e: Entry, inside: bool): Captures {
    var full := root + e.name;
    if (!query.hidden && IsHidden(e.name)) || !(inside || query.hit(e.name)) || e.LinkEntry? then before
    else if e.BlobEntry? then (if e.name == ORDER_FILE_NAME then before else before.(flat := before.flat + [full]))
    else if AtLimit(query, depth + 1) then before.(depthStubs := before.depthStubs + [full])
    else if inside then before
    else before.(dirStubs := before.dirStubs + [full])
  }

  /** The closure's captured variables. */
  class Walker {
    const query: Query
    var flat: seq<string>
    var dirStubs: seq<string>
    var depthStubs: seq<string>
    var insideMatched: Option<string>

    constructor (query: Query)
      ensures this.query == query && flat == [] && dirStubs == [] && depthStubs == [] && insideMatched.None?
    {
      this.query := query;
      flat, dirStubs, depthStubs, insideMatched := [], [], [], None;
    }

    /** The walk's callback; `skip` keeps the walk out of the entry's subtree. */
    method Visit(root: string, e: Entry) returns (skip: bool)
      modifies this
      ensures skip == (e.TreeEntry? && !Entered(query, Slashes(root), e))
      ensures Captured() == Visited(query, old(Captured()), root, Slashes(root), e, Inside(old(insideMatched), root))
      ensures insideMatched ==
        if Inside(old(insideMatched), root) then old(insideMatched)
        else if Entered(query, Slashes(root), e) && query.hit(e.name) then Some(root + e.name + "/") else None
    {
      if insideMatched.Some? && !(insideMatched.value <= root) {
        insideMatched := None;
      }
      if !query.hidden && IsHidden(e.name) {
        return e.TreeEntry?;
      }
      var fullPath := root + e.name;
      var inMatched := insideMatched.Some?;
      var selfMatches := query.hit(e.name);
      match e {
        case TreeEntry(name, _) =>
          var matched := inMatched || selfMatches;
          if query.maxDepth.Some? {
            if Slashes(root) + 1 >= query.maxDepth.value {
              if matched {
                depthStubs := depthStubs + [fullPath];
              }
              return true;
            }
          }
          if selfMatches && !inMatched {
            insideMatched := Some(fullPath + "/");
            dirStubs := dirStubs + [fullPath];
          }
        case BlobEntry(name) =>
          if name != ORDER_FILE_NAME && (inMatched || selfMatches) {
            flat := flat + [fullPath];
          }
        case LinkEntry(_) =>
      }
      return false;
    }

    function Captured(): Captures
      reads this
    {
      Captures(flat, dirStubs, depthStubs)
    }

    /** libgit2's pre-order walk with that callback, from a folder's entries on. However the variable was left by
        the entries before, the walk records what the recursive definition finds. */
    method Walk(entries: seq<Entry>, rootText: string, ghost root: Path)
      requires rootText == Text(root) && Proper(root) && ProperEntries(entries)
      modifies this
      ensures Captured() == Recorded(old(Captured()), Search(query, entries, root, Inside(old(insideMatched), rootText)))
      ensures StandsAs(old(insideMatched), insideMatched, rootText)
      decreases entries, 0
    {
      if entries == [] {
        return;
      }
      ghost var inside := Inside(insideMatched, rootText);
      ghost var before := Captured();
      WalkEntry(entries[0], rootText, root);
      Walk(entries[1..], rootText, root);
      RecordedPlus(before, query, entries, root, inside);
    }

    method WalkEntry(e: Entry, rootText: string, ghost root: Path)
      requires rootText == Text(root) && Proper(root) && ProperEntries([e])
      modifies this
      ensures Captured() == Recorded(old(Captured()), SearchEntry(query, e, root, Inside(old(insideMatched), rootText)))
      ensures StandsAs(old(insideMatched), insideMatched, rootText)
      decreases e, 1
    {
      ghost var inside := Inside(insideMatched, rootText);
      ghost var before := Captured();
      RootDepth(root);
      var skip := Visit(rootText, e);
      if e.TreeEntry? && !skip {
        TextChild(root, e.name);
        assert e in [e] && Proper(root + [e.name]);
        ghost var visited := insideMatched;
        Walk(e.entries, rootText + e.name + "/", root + [e.name]);
        StandsOutside(visited, insideMatched, rootText, e.name);
        RecordedFolder(before, query, e, root, inside);
      } else {
        RecordedLeaf(before, query, e, root, inside);
      }
    }
  }

  /** What a walk below `root` does to the variable, seen from `root`: nothing if it stood inside a matched folder,
      and otherwise nothing that puts it inside one. */
  predicate StandsAs(before: Option<string>, after: Option<string>, root: string) {
    if Inside(before, root) then after == before else !Inside(after, root)
  }

  lemma StandsOutside(visited: Option<string>, after: Option<string>, root: string, name: Name)
    requires StandsAs(visited, after, root + name + "/")
    ensures Inside(visited, root) ==> after == visited
    ensures !Inside(visited, root) ==> !Inside(after, root)
  {
    if Inside(visited, root) || Inside(after, root) {
      assert root <= root + name + "/";
    }
  }

  function Recorded(before: Captures, found: Found): Captures {
    Captures(before.flat + Texts(found.files), before.dirStubs + Texts(found.folders), before.depthStubs + Texts(found.atLimit))
  }

  lemma TextsAppended(before: seq<string>, a: seq<Path>, b: seq<Path>)
    ensures before + Texts(a + b) == (before + Texts(a)) + Texts(b)
  {
    TextsConcat(a, b);
  }

  lemma RecordedTwice(before: Captures, a: Found, b: Found)
    ensures Recorded(before, Plus(a, b)) == Recorded(Recorded(before, a), b)
  {
    TextsAppended(before.flat, a.files, b.files);
    TextsAppended(before.dirStubs, a.folders, b.folders);
    TextsAppended(before.depthStubs, a.atLimit, b.atLimit);
  }

  lemma RecordedPlus(before: Captures, query: Query, entries: seq<Entry>, root: Path, inside: bool)
    requires entries != []
    ensures Recorded(before, Search(query, entries, root, inside))
         == Recorded(Recorded(before, SearchEntry(query, entries[0], root, inside)), Search(query, entries[1..], root, inside))
  {
    RecordedTwice(before, SearchEntry(query, entries[0], root, inside), Search(query, entries[1..], root, inside));
  }

  lemma TextsOne(path: Path)
    ensures Texts([path]) == [FullText(path)]
  {
    assert Texts([path][1..]) == [];
  }

  /** What the callback records at an entry the walk does not go into is all there is to find there. */
  lemma RecordedLeaf(before: Captures, query: Query, e: Entry, root: Path, inside: bool)
    requires !Entered(query, |root|, e)
    ensures Recorded(before, SearchEntry(query, e, root, inside)) == Visited(query, before, Text(root), |root|, e, inside)
  {
    TextsOne(root + [e.name]);
    TextChild(root, e.name);
    assert before.flat + [] == before.flat && before.dirStubs + [] == before.dirStubs && before.depthStubs + [] == before.depthStubs;
  }

  /** At a folder it does go into, the folder's own entries come on top. */
  lemma RecordedFolder(before: Captures, query: Query, e: Entry, root: Path, inside: bool)
    requires Entered(query, |root|, e)
    ensures Recorded(before, SearchEntry(query, e, root, inside))
         == Recorded(Visited(query, before, Text(root), |root|, e, inside),
                     Search(query, e.entries, root + [e.name], inside || query.hit(e.name)))
  {
    TextChild(root, e.name);
    TextsOne(root + [e.name]);
    var below := Search(query, e.entries, root + [e.name], inside || query.hit(e.name));
    TextsAppended(before.dirStubs, [root + [e.name]], below.folders);
  }

  // What is found, path by path

  ghost predicate HoldsFile(entries: seq<Entry>, rest: Path)
    decreases |rest|
  {
    rest != [] && exists e | e in entries && e.name == rest[0] ::
      if |rest| == 1 then e.BlobEntry? else e.TreeEntry? && HoldsFile(e.entries, rest[1..])
  }

  ghost predicate HoldsFolder(entries: seq<Entry>, rest: Path)
    decreases |rest|
  {
    rest != [] && exists e | e in entries && e.name == rest[0] ::
      e.TreeEntry? && (|rest| == 1 || HoldsFolder(e.entries, rest[1..]))
  }

  predicate Shown(query: Query, rest: Path) {
    query.hidden || forall name | name in rest :: !IsHidden(name)
  }

  /** Every folder on the way to `rest`, itself left out, may be entered. */
  predicate Reachable(query: Query, depth: nat, rest: Path) {
    |rest| <= 1 || !AtLimit(query, depth + |rest| - 1)
  }

  predicate AnyHit(query: Query, rest: Path) {
    exists name | name in rest :: query.hit(name)
  }

  /** A file is found exactly when it is there, shown, within the depth, no order index, and its leaf or a folder on
      its way matches. */
  predicate IsFound(query: Query, depth: nat, inside: bool, rest: Path) {
    && rest != [] && Shown(query, rest) && Reachable(query, depth, rest)
    && rest[|rest| - 1] != ORDER_FILE_NAME && (inside || AnyHit(query, rest))
  }

  lemma IsFoundStep(query: Query, depth: nat, inside: bool, rest: Path)
    requires |rest| > 1
    ensures IsFound(query, depth, inside, rest) <==>
      && (query.hidden || !IsHidden(rest[0])) && !AtLimit(query, depth + 1)
      && IsFound(query, depth + 1, inside || query.hit(rest[0]), rest[1..])
  {
    assert forall name :: name in rest <==> name == rest[0] || name in rest[1..];
  }

  lemma {:induction false} FoundFileIff(query: Query, entries: seq<Entry>, root: Path, inside: bool, rest: Path)
    requires rest != []
    ensures root + rest in Search(query, entries, root, inside).files
       <==> HoldsFile(entries, rest) && IsFound(query, |root|, inside, rest)
    decreases entries, 0
  {
    if entries != [] {
      EntryFileIff(query, entries[0], root, inside, rest);
      FoundFileIff(query, entries[1..], root, inside, rest);
      HoldsFileSplit(entries, rest);
    }
  }

  lemma HoldsFileSplit(entries: seq<Entry>, rest: Path)
    requires entries != []
    ensures HoldsFile(entries, rest) <==> HoldsFile([entries[0]], rest) || HoldsFile(entries[1..], rest)
  {
    assert forall e :: e in entries <==> e in [entries[0]] || e in entries[1..];
  }

  lemma {:induction false} EntryFileIff(query: Query, e: Entry, root: Path, inside: bool, rest: Path)
    requires rest != []
    ensures root + rest in SearchEntry(query, e, root, inside).files
       <==> HoldsFile([e], rest) && IsFound(query, |root|, inside, rest)
    decreases e, 1
  {
    EntryBeneath(query, e, root, inside);
    assert e in [e] && (root + rest)[|root|] == rest[0];
    if rest[0] == e.name {
      if |rest| == 1 {
        assert rest == [e.name];
        if e.TreeEntry? { FoundBeneath(query, e.entries, root + rest, inside || query.hit(e.name)); }
      } else {
        IsFoundStep(query, |root|, inside, rest);
        assert root + rest == (root + [e.name]) + rest[1..];
        if e.TreeEntry? { FoundFileIff(query, e.entries, root + [e.name], inside || query.hit(e.name), rest[1..]); }
      }
    }
  }

  /** A folder found at the limit: it sits exactly there, and it or a folder on its way matches. */
  predicate IsFoundAtLimit(query: Query, depth: nat, inside: bool, rest: Path) {
    && rest != [] && Shown(query, rest) && Reachable(query, depth, rest) && AtLimit(query, depth + |rest|)
    && (inside || AnyHit(query, rest))
  }

  lemma IsFoundAtLimitStep(query: Query, depth: nat, inside: bool, rest: Path)
    requires |rest| > 1
    ensures IsFoundAtLimit(query, depth, inside, rest) <==>
      && (query.hidden || !IsHidden(rest[0])) && !AtLimit(query, depth + 1)
      && IsFoundAtLimit(query, depth + 1, inside || query.hit(rest[0]), rest[1..])
  {
    assert forall name :: name in rest <==> name == rest[0] || name in rest[1..];
  }

  lemma {:induction false} FoundAtLimitIff(query: Query, entries: seq<Entry>, root: Path, inside: bool, rest: Path)
    requires rest != []
    ensures root + rest in Search(query, entries, root, inside).atLimit
       <==> HoldsFolder(entries, rest) && IsFoundAtLimit(query, |root|, inside, rest)
    decreases entries, 0
  {
    if entries != [] {
      EntryAtLimitIff(query, entries[0], root, inside, rest);
      FoundAtLimitIff(query, entries[1..], root, inside, rest);
      HoldsFolderSplit(entries, rest);
    }
  }

  lemma HoldsFolderSplit(entries: seq<Entry>, rest: Path)
    requires entries != []
    ensures HoldsFolder(entries, rest) <==> HoldsFolder([entries[0]], rest) || HoldsFolder(entries[1..], rest)
  {
    assert forall e :: e in entries <==> e in [entries[0]] || e in entries[1..];
  }

  lemma EntryAtLimitHere(query: Query, e: Entry, root: Path, inside: bool)
    ensures root + [e.name] in SearchEntry(query, e, root, inside).atLimit
       <==> e.TreeEntry? && IsFoundAtLimit(query, |root|, inside, [e.name])
  {
    var rest := [e.name];
    assert AnyHit(query, rest) == query.hit(e.name) && Shown(query, rest) == (query.hidden || !IsHidden(e.name));
    if e.TreeEntry? { FoundBeneath(query, e.entries, root + rest, inside || query.hit(e.name)); }
  }

  lemma HoldsFolderOne(e: Entry, rest: Path)
    requires rest != []
    ensures HoldsFolder([e], rest) <==> e.name == rest[0] && e.TreeEntry? && (|rest| == 1 || HoldsFolder(e.entries, rest[1..]))
  {
    assert e in [e];
  }

  lemma {:induction false} EntryAtLimitIff(query: Query, e: Entry, root: Path, inside: bool, rest: Path)
    requires rest != []
    ensures root + rest in SearchEntry(query, e, root, inside).atLimit
       <==> HoldsFolder([e], rest) && IsFoundAtLimit(query, |root|, inside, rest)
    decreases e, 1
  {
    EntryBeneath(query, e, root, inside);
    HoldsFolderOne(e, rest);
    assert (root + rest)[|root|] == rest[0];
    if rest == [e.name] {
      EntryAtLimitHere(query, e, root, inside);
    } else if rest[0] == e.name && e.TreeEntry? {
      IsFoundAtLimitStep(query, |root|, inside, rest);
      assert root + rest == (root + [e.name]) + rest[1..];
      FoundAtLimitIff(query, e.entries, root + [e.name], inside || query.hit(e.name), rest[1..]);
    }
  }

  /** A matched folder short of the limit: the outermost match on its way. */
  predicate IsFoundFolder(query: Query, depth: nat, inside: bool, rest: Path) {
    && rest != [] && Shown(query, rest) && !AtLimit(query, depth + |rest|)
    && !inside && query.hit(rest[|rest| - 1]) && !AnyHit(query, rest[..|rest| - 1])
  }

  lemma IsFoundFolderStep(query: Query, depth: nat, inside: bool, rest: Path)
    requires |rest| > 1
    ensures IsFoundFolder(query, depth, inside, rest) <==>
      && (query.hidden || !IsHidden(rest[0])) && !AtLimit(query, depth + 1)
      && IsFoundFolder(query, depth + 1, inside || query.hit(rest[0]), rest[1..])
  {
    assert forall name :: name in rest <==> name == rest[0] || name in rest[1..];
    var front, back := rest[..|rest| - 1], rest[1..][..|rest| - 2];
    assert front == [rest[0]] + back;
    assert forall name :: name in front <==> name == rest[0] || name in back;
  }

  lemma {:induction false} FoundFolderIff(query: Query, entries: seq<Entry>, root: Path, inside: bool, rest: Path)
    requires rest != []
    ensures root + rest in Search(query, entries, root, inside).folders
       <==> HoldsFolder(entries, rest) && IsFoundFolder(query, |root|, inside, rest)
    decreases entries, 0
  {
    if entries != [] {
      EntryFolderIff(query, entries[0], root, inside, rest);
      FoundFolderIff(query, entries[1..], root, inside, rest);
      HoldsFolderSplit(entries, rest);
    }
  }

  lemma {:induction false} EntryFolderIff(query: Query, e: Entry, root: Path, inside: bool, rest: Path)
    requires rest != []
    ensures root + rest in SearchEntry(query, e, root, inside).folders
       <==> HoldsFolder([e], rest) && IsFoundFolder(query, |root|, inside, rest)
    decreases e, 1
  {
    EntryBeneath(query, e, root, inside);
    assert e in [e] && (root + rest)[|root|] == rest[0];
    if rest[0] == e.name {
      if |rest| == 1 {
        assert rest == [e.name] && rest[..0] == [];
        if e.TreeEntry? { FoundBeneath(query, e.entries, root + rest, inside || query.hit(e.name)); }
      } else {
        IsFoundFolderStep(query, |root|, inside, rest);
        assert root + rest == (root + [e.name]) + rest[1..];
        if e.TreeEntry? { FoundFolderIff(query, e.entries, root + [e.name], inside || query.hit(e.name), rest[1..]); }
      }
    }
  }
}
