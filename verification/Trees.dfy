/** Validated repository paths, as component sequences; the root is the empty sequence. */
module Paths {
  type Name = string

  type Path = seq<Name>

  const ORDER_FILE_NAME: Name := ".order.json"

  /** `path` sits strictly beneath the folder `directory`, at any depth. */
  predicate Under(path: Path, directory: Path) {
    |directory| < |path| && path[..|directory|] == directory
  }

  function Parent(path: Path): Path
    requires path != []
  {
    path[..|path| - 1]
  }

  function Leaf(path: Path): Name
    requires path != []
  {
    path[|path| - 1]
  }

  function OrderFilePath(directory: Path): Path {
    directory + [ORDER_FILE_NAME]
  }

  predicate IsOrderFile(path: Path) {
    path != [] && Leaf(path) == ORDER_FILE_NAME
  }
}

/** A tenant's tree: a finite map from path to blob, and libgit2's tree updater over it. */
module Trees {
  import opened Wrappers
  import opened Paths

  /** A blob, told apart by what this service can read out of it: an order document in one of its
      spellings (0 is the one `serialize` writes), other UTF-8 text, or bytes that are not UTF-8. */
  datatype Blob =
    | OrderDocument(order: seq<Name>, spelling: nat)
    | PlainText(text: string)
    | NotUtf8(bytes: seq<bv8>)

  type Tree = map<Path, Blob>

  function Serialize(order: seq<Name>): Blob {
    OrderDocument(order, 0)
  }

  function Parse(content: Blob): Option<seq<Name>> {
    if content.OrderDocument? then Some(content.order) else None
  }

  function At(tree: Tree, path: Path): Option<Blob> {
    if path in tree then Some(tree[path]) else None
  }

  predicate IsDirectory(tree: Tree, directory: Path) {
    directory == [] || exists path | path in tree :: Under(path, directory)
  }

  /** `get_path` resolves: a file or a folder is there. */
  predicate Exists(tree: Tree, path: Path) {
    path in tree || IsDirectory(tree, path)
  }

  /** No file is at the root itself or doubles as a folder of another file. */
  predicate PrefixFree(tree: Tree) {
    [] !in tree && forall p, q | p in tree && q in tree :: !Under(p, q)
  }

  datatype Update = Upsert(path: Path, blob: Blob) | Remove(path: Path)

  /** What the tree updater refuses: removing an absent entry, or a file where a folder is needed
      and the other way round. */
  predicate Clashes(base: Tree, update: Update) {
    match update
    case Upsert(path, _) => IsDirectory(base, path) || exists file | file in base :: Under(path, file)
    case Remove(path) => path == [] || !Exists(base, path)
  }

  /** No update clashes with the base, and none lies beneath another: a file cannot double as a folder. */
  predicate Accepts(base: Tree, updates: seq<Update>) {
    && (forall u | u in updates :: !Clashes(base, u))
    && (forall u, v | u in updates && v in updates :: !Under(u.path, v.path))
  }

  function Applied(base: Tree, update: Update): Tree {
    match update
    case Upsert(path, blob) => base[path := blob]
    case Remove(path) => map p | p in base && p != path && !Under(p, path) :: base[p]
  }

  function AppliedAll(base: Tree, updates: seq<Update>): Tree {
    if updates == [] then base
    else Applied(AppliedAll(base, updates[..|updates| - 1]), updates[|updates| - 1])
  }

  /** `TreeUpdateBuilder::create_updated`: every update checked against the base tree. */
  function CreateUpdated(base: Tree, updates: seq<Update>): Option<Tree> {
    if Accepts(base, updates) then Some(AppliedAll(base, updates)) else None
  }

  /** A path of the updated tree was in the base tree or is upserted. */
  lemma {:induction false} AppliedAllOrigin(base: Tree, updates: seq<Update>, path: Path)
    requires path in AppliedAll(base, updates)
    ensures path in base || exists u :: u in updates && u.Upsert? && u.path == path
  {
    if updates != [] {
      var last := updates[|updates| - 1];
      if !(last.Upsert? && last.path == path) {
        AppliedAllOrigin(base, updates[..|updates| - 1], path);
      }
    }
  }

  /** An accepted update keeps files and folders apart. */
  lemma CreateUpdatedPrefixFree(base: Tree, updates: seq<Update>)
    requires PrefixFree(base) && Accepts(base, updates)
    ensures PrefixFree(AppliedAll(base, updates))
  {
    var after := AppliedAll(base, updates);
    forall p, q | p in after && q in after
      ensures p != [] && !Under(p, q)
    {
      AppliedAllOrigin(base, updates, p);
      AppliedAllOrigin(base, updates, q);
    }
    if [] in after {
      AppliedAllOrigin(base, updates, []);
    }
  }
}
