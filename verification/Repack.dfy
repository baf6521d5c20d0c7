/** Maintenance: one consolidated pack is written, then the files it supersedes are deleted one by one. */
module Maintenance {
  import opened Wrappers
  import opened Objects

  /** A packfile's path without its extension. */
  type Stem(==,!new)

  /** What refs name: HEAD's commit, if born, and the target of every other reference. */
  datatype Roots = Roots(head: Option<Object>, refs: seq<Object>)

  function PackedIn(packs: map<Stem, set<Object>>): set<Object> {
    set s, o | s in packs && o in packs[s] :: o
  }

  // What a destructive prune keeps

  /** `push_ref` peels tags down to a commit; a reference that peels to anything else is not walked. */
  function Peeled(o: Object): Object {
    if o.TagObject? then Peeled(o.target) else o
  }

  function WalkedFrom(refs: seq<Object>): set<Object> {
    if refs == [] then {}
    else WalkedFrom(refs[..|refs| - 1]) + var c := Peeled(refs[|refs| - 1]); if c.CommitObject? then Reach(c) else {}
  }

  /** `insert_reachable_objects`: the walk from HEAD and the refs, plus the tag a ref names directly. */
  function Inserted(head: Object, refs: seq<Object>): set<Object> {
    Reach(head) + WalkedFrom(refs) + set r | r in refs && r.TagObject?
  }

  /** What a tag chain ends in when that is no commit, and the tags on the way. */
  function Beyond(o: Object): set<Object> {
    if o.CommitObject? then {} else if o.TagObject? then {o} + Beyond(o.target) else Reach(o)
  }

  /** The objects a reference leads to that neither the walk nor the tag insertion brings in on its account: those
      of a reference to a tree or blob, and of a tag that does not name a commit directly. */
  function Overlooked(ref: Object): set<Object> {
    if ref.TagObject? then Beyond(ref.target) else Beyond(ref)
  }

  lemma {:induction false} PeeledReach(o: Object)
    ensures Reach(o) == Beyond(o) + if Peeled(o).CommitObject? then Reach(Peeled(o)) else {}
  {
    if o.TagObject? { PeeledReach(o.target); }
  }

  lemma {:induction false} WalkedRef(refs: seq<Object>, ref: Object)
    requires ref in refs && Peeled(ref).CommitObject?
    ensures Reach(Peeled(ref)) <= WalkedFrom(refs)
  {
    if refs[|refs| - 1] != ref { WalkedRef(refs[..|refs| - 1], ref); }
  }

  /** A destructive prune keeps everything its references lead to exactly when whatever they lead to short of a
      commit happens to be kept for another reason. References to commits, and tags of commits, overlook nothing. */
  lemma PruneHonoursRefsIff(head: Object, refs: seq<Object>)
    ensures (forall r | r in refs :: Reach(r) <= Inserted(head, refs))
       <==> (forall r | r in refs :: Overlooked(r) <= Inserted(head, refs))
    ensures forall r | r in refs && (r.CommitObject? || (r.TagObject? && r.target.CommitObject?)) :: Overlooked(r) == {}
  {
    forall r | r in refs
      ensures Reach(r) <= Inserted(head, refs) <==> Overlooked(r) <= Inserted(head, refs)
    {
      PeeledReach(r);
      if r.TagObject? { PeeledReach(r.target); }
      if Peeled(r).CommitObject? { WalkedRef(refs, r); }
    }
  }

  /** A tag of a tag: the ref's own tag and the commit survive a prune, the tag between them does not. */
  lemma NestedTagPruned(head: Object, outer: Object, inner: Object)
    requires head == CommitObject([], TreeObject([]), 0) && inner == TagObject(head, 1) && outer == TagObject(inner, 2)
    ensures inner in Reach(outer) && inner !in Inserted(head, [outer])
  {
    assert Reach(TreeObject([])) == {TreeObject([])} && Reach(head) == {head, TreeObject([])};
    assert [outer][..0] == [] && WalkedFrom([outer]) == WalkedFrom([]) + Reach(head);
    assert inner in Reach(inner);
  }

  datatype Report = Report(packed: set<Object>, looseRemoved: nat, packsRemoved: nat)

  class ObjectStore {
    var loose: set<Object>
    var packs: map<Stem, set<Object>>

    constructor (loose: set<Object>, packs: map<Stem, set<Object>>)
      ensures this.loose == loose && this.packs == packs
    {
      this.loose, this.packs := loose, packs;
    }

    /** What a lookup finds. */
    function Available(): set<Object>
      reads this
    {
      loose + PackedIn(packs)
    }

    /** `run`'s repack half. `stem` is the name the new pack comes out with, which may be an existing pack's; the
        process dies after `crashAt` file operations, and the n-th removal is refused by the file system when
        `refused(n)`. Whatever those are, nothing that was to be kept is ever out of reach. */
    method Run(prune: bool, roots: Roots, stem: Stem, crashAt: nat, refused: nat -> bool)
      returns (report: Result<Report, ()>)
      modifies this
      ensures !prune ==> old(Available()) <= Available()
      ensures prune && roots.head.Some? && Inserted(roots.head.value, roots.refs) <= old(Available()) ==>
        Inserted(roots.head.value, roots.refs) <= Available()
      ensures Available() <= old(Available())
      ensures report.Err? ==> loose == old(loose) && packs == old(packs)
      ensures old(loose) == {} && |old(packs)| <= 1 ==> loose == old(loose) && packs == old(packs)
      ensures report.Ok? && !(old(loose) == {} && |old(packs)| <= 1) && crashAt > |old(loose)| + |old(packs)| && (forall n :: !refused(n)) ==>
        && loose == {} && (prune ==> roots.head.Some?)
        && var kept := if prune then Inserted(roots.head.value, roots.refs) else old(Available());
           packs == if stem in old(packs) then old(packs)[stem := kept] else map[stem := kept]
    {
      if loose == {} && |packs| <= 1 {
        return Ok(Report({}, 0, 0));
      }
      if prune && (roots.head.None? || !(Inserted(roots.head.value, roots.refs) <= Available())) {
        return Err(());
      }
      var kept := if prune then Inserted(roots.head.value, roots.refs) else Available();
      report := Repack(kept, stem, crashAt, refused);
    }

    /** `repack`: the new packfile first, then the loose files, then the old packs if a new name appeared. */
    method Repack(kept: set<Object>, stem: Stem, crashAt: nat, refused: nat -> bool)
      returns (report: Result<Report, ()>)
      requires kept <= Available()
      modifies this
      ensures report.Ok? && kept <= Available() <= old(Available())
      ensures crashAt > |old(loose)| + |old(packs)| && (forall n :: !refused(n)) ==>
        && loose == {}
        && packs == if stem in old(packs) then old(packs)[stem := kept] else map[stem := kept]
    {
      var before := packs;
      report := Ok(Report(kept, |loose|, 0));
      if crashAt == 0 {
        return;
      }
      packs := packs[stem := kept];
      var looseRemoved, done := RemoveFiles(loose, 1, crashAt, refused);
      loose := loose - looseRemoved;
      var appeared := packs.Keys - before.Keys;
      assert appeared == if stem in before then {} else {stem};
      if appeared != {} {
        var packsRemoved, _ := RemoveFiles(before.Keys, done, crashAt, refused);
        assert |before.Keys| == |before| && packs - before.Keys == map[stem := kept];
        packs := packs - packsRemoved;
        report := Ok(report.value.(packsRemoved := |before|));
      }
      PackFindable(packs, stem);
      PackedWithin(packs, before, kept);
    }
  }

  /** Removals one file at a time, from operation `from` on, until none is left or the process dies. */
  method RemoveFiles<T>(files: set<T>, from: nat, crashAt: nat, refused: nat -> bool)
    returns (removed: set<T>, done: nat)
    ensures removed <= files && from <= done <= from + |files|
    ensures from + |files| <= crashAt && (forall n :: !refused(n)) ==> removed == files
  {
    var left := files;
    removed, done := {}, from;
    while left != {} && done < crashAt
      invariant left <= files && removed <= files - left && from <= done
      invariant done + |left| == from + |files|
      invariant (forall n :: !refused(n)) ==> removed == files - left
      decreases left
    {
      var file :| file in left;
      if !refused(done) {
        removed := removed + {file};
      }
      left := left - {file};
      done := done + 1;
    }
  }

  lemma PackFindable(packs: map<Stem, set<Object>>, stem: Stem)
    requires stem in packs
    ensures packs[stem] <= PackedIn(packs)
  {
  }

  lemma PackedWithin(packs: map<Stem, set<Object>>, before: map<Stem, set<Object>>, kept: set<Object>)
    requires forall s | s in packs :: packs[s] == kept || (s in before && packs[s] == before[s])
    ensures PackedIn(packs) <= PackedIn(before) + kept
  {
    forall s, o | s in packs && o in packs[s]
      ensures o in PackedIn(before) + kept
    {
      if packs[s] != kept { PackFindable(before, s); }
    }
  }
}
