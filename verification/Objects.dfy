/** Git's object graph. An object is its own content, so equal ids are equal objects and no cycle exists. */
module Objects {
  datatype Object =
    | BlobObject(bytes: nat)
    | TreeObject(entries: seq<Object>)
    | CommitObject(parents: seq<Object>, tree: Object, signature: nat)
    | TagObject(target: Object, message: nat)

  /** Everything `o` leads to, itself included. */
  function Reach(o: Object): set<Object>
    decreases o, 1
  {
    match o
    case BlobObject(_) => {o}
    case TreeObject(entries) => {o} + ReachAll(entries)
    case CommitObject(parents, tree, _) => {o} + Reach(tree) + ReachAll(parents)
    case TagObject(target, _) => {o} + Reach(target)
  }

  function ReachAll(os: seq<Object>): set<Object>
    decreases os, 0
  {
    if os == [] then {} else Reach(os[0]) + ReachAll(os[1..])
  }

  /** The commits of a history, through parents alone. */
  function Ancestors(c: Object): set<Object>
    decreases c, 1
  {
    if c.CommitObject? then {c} + AncestorsAll(c.parents) else {}
  }

  function AncestorsAll(cs: seq<Object>): set<Object>
    decreases cs, 0
  {
    if cs == [] then {} else Ancestors(cs[0]) + AncestorsAll(cs[1..])
  }

  /** A commit whose parents are commits all the way down. */
  predicate IsHistory(c: Object) {
    c.CommitObject? && forall p | p in c.parents :: IsHistory(p)
  }

  lemma {:induction false} AncestorIsHistory(c: Object, a: Object)
    requires IsHistory(c) && a in Ancestors(c)
    ensures IsHistory(a)
    decreases c
  {
    if a != c {
      var p := AncestorsAllOrigin(c.parents, a);
      AncestorIsHistory(p, a);
    }
  }

  /** `graph_descendant_of`: strictly below in history. */
  predicate DescendsFrom(c: Object, a: Object) {
    c != a && a in Ancestors(c)
  }

  lemma {:induction false} ReachAllMember(os: seq<Object>, o: Object)
    requires o in os
    ensures Reach(o) <= ReachAll(os)
  {
    if os[0] != o { ReachAllMember(os[1..], o); }
  }

  lemma {:induction false} AncestorsAllMember(cs: seq<Object>, c: Object)
    requires c in cs
    ensures Ancestors(c) <= AncestorsAll(cs)
  {
    if cs[0] != c { AncestorsAllMember(cs[1..], c); }
  }

  lemma {:induction false} AncestorsAllOrigin(cs: seq<Object>, a: Object) returns (c: Object)
    requires a in AncestorsAll(cs)
    ensures c in cs && a in Ancestors(c)
  {
    if a in Ancestors(cs[0]) { c := cs[0]; } else { c := AncestorsAllOrigin(cs[1..], a); }
  }

  /** Reaching an ancestor reaches all it leads to. */
  lemma {:induction false} AncestorReach(c: Object, a: Object)
    requires a in Ancestors(c)
    ensures a.CommitObject? && a in Reach(c) && Reach(a) <= Reach(c)
    decreases c
  {
    if a != c {
      var p := AncestorsAllOrigin(c.parents, a);
      AncestorReach(p, a);
      ReachAllMember(c.parents, p);
    }
  }

  lemma {:induction false} AncestorsTransitive(c: Object, b: Object, a: Object)
    requires b in Ancestors(c) && a in Ancestors(b)
    ensures a in Ancestors(c)
    decreases c
  {
    if b != c {
      var p := AncestorsAllOrigin(c.parents, b);
      AncestorsTransitive(p, b, a);
      AncestorsAllMember(c.parents, p);
    }
  }

  /** History has no cycles: two commits cannot descend from each other. */
  lemma {:induction false} AncestorSmaller(c: Object, a: Object)
    requires DescendsFrom(c, a)
    ensures !DescendsFrom(a, c)
  {
    AncestorDepth(c, a);
    if DescendsFrom(a, c) { AncestorDepth(a, c); }
  }

  function Depth(c: Object): nat
    decreases c, 1
  {
    if c.CommitObject? then 1 + DepthAll(c.parents) else 0
  }

  function DepthAll(cs: seq<Object>): nat
    decreases cs, 0
  {
    if cs == [] then 0 else Depth(cs[0]) + DepthAll(cs[1..])
  }

  lemma {:induction false} DepthAllMember(cs: seq<Object>, c: Object)
    requires c in cs
    ensures Depth(c) <= DepthAll(cs)
  {
    if cs[0] != c { DepthAllMember(cs[1..], c); }
  }

  lemma {:induction false} AncestorDepth(c: Object, a: Object)
    requires DescendsFrom(c, a)
    ensures Depth(a) < Depth(c)
    decreases c
  {
    var p := AncestorsAllOrigin(c.parents, a);
    DepthAllMember(c.parents, p);
    if p != a { AncestorDepth(p, a); }
  }
}

/** Packs: what the master sends for a head and a `have`, and what importing one does. */
module Packs {
  import opened Wrappers
  import opened Objects

  /** `build_pack`: the commits not already behind `have`, each with its whole tree. */
  function WalkedCommits(head: Object, have: Option<Object>): set<Object> {
    Ancestors(head) - if have.Some? then Ancestors(have.value) else {}
  }

  /** A pack the master may answer with: all that the walk inserts, less what `have` leads to anyway. */
  ghost predicate PackFor(pack: set<Object>, head: Object, have: Option<Object>) {
    forall c, o | c in WalkedCommits(head, have) && (o == c || (c.CommitObject? && o in Reach(c.tree)))
      && (have.Some? ==> o !in Reach(have.value)) :: o in pack
  }

  /** The law the import rests on: a pack holds whatever the head leads to and `have` does not. */
  lemma {:induction false} PackCompletes(pack: set<Object>, head: Object, have: Option<Object>, c: Object)
    requires PackFor(pack, head, have) && c in Ancestors(head) && IsHistory(head)
    ensures Reach(c) <= pack + if have.Some? then Reach(have.value) else {}
    decreases c, 1
  {
    AncestorReach(head, c);
    AncestorIsHistory(head, c);
    if have.Some? && c in Ancestors(have.value) {
      AncestorReach(have.value, c);
    } else {
      assert c in WalkedCommits(head, have);
      ParentsComplete(pack, head, have, c, c.parents);
    }
  }

  lemma {:induction false} ParentsComplete(pack: set<Object>, head: Object, have: Option<Object>, c: Object,
                                           parents: seq<Object>)
    requires PackFor(pack, head, have) && c in Ancestors(head) && IsHistory(head) && IsHistory(c)
    requires forall p | p in parents :: p in c.parents
    ensures ReachAll(parents) <= pack + if have.Some? then Reach(have.value) else {}
    decreases c, 0, |parents|
  {
    if parents != [] {
      var p := parents[0];
      assert p in c.parents && IsHistory(p);
      AncestorsAllMember(c.parents, p);
      AncestorsTransitive(head, c, p);
      PackCompletes(pack, head, have, p);
      ParentsComplete(pack, head, have, c, parents[1..]);
    }
  }
}
