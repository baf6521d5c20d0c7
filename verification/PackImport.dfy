/** Importing a pack on a replica: objects first, ref last, with a crash allowed in between. */
module PackImport {
  import opened Wrappers
  import opened Objects
  import opened Packs

  datatype Repo = Repo(store: set<Object>, head: Option<Object>)

  datatype PackApply =
    | FastForwarded(from: Option<Object>, to: Object)
    | UpToDate
    | Ahead(local: Object, remote: Object)
    | Diverged(local: Object, remote: Object)
    | CommitNotFound
    | Interrupted

  /** What `import_pack` decides once the objects are in `repo.store`. */
  function Judge(repo: Repo, newHead: Object): PackApply {
    if newHead !in repo.store then CommitNotFound
    else
      match repo.head
      case None => FastForwarded(None, newHead)
      case Some(local) =>
        if local == newHead then UpToDate
        else if DescendsFrom(newHead, local) then FastForwarded(Some(local), newHead)
        else if DescendsFrom(local, newHead) then Ahead(local, newHead)
        else Diverged(local, newHead)
  }

  function RefMoved(repo: Repo, newHead: Object): Repo {
    if Judge(repo, newHead).FastForwarded? then repo.(head := Some(newHead)) else repo
  }

  datatype HeadRelation = Unknown | SameHead | AheadOf(local: Object) | DivergedFrom(local: Object)

  /** `relation_to`: how an announced commit stands to HEAD, from local objects alone. */
  function RelationTo(repo: Option<Repo>, remote: Object): HeadRelation {
    if repo.None? || repo.value.head.None? || remote !in repo.value.store then Unknown
    else
      var local := repo.value.head.value;
      if remote == local then SameHead
      else if DescendsFrom(local, remote) then AheadOf(local)
      else DivergedFrom(local)
  }

  /** What each judgement means of the two heads: at most one of them descends from the other. */
  lemma JudgementIff(repo: Repo, newHead: Object)
    requires newHead in repo.store
    ensures repo.head.None? ==> Judge(repo, newHead) == FastForwarded(None, newHead)
    ensures repo.head.Some? ==>
      var local := repo.head.value;
      && (Judge(repo, newHead) == UpToDate <==> local == newHead)
      && (Judge(repo, newHead) == FastForwarded(Some(local), newHead) <==> DescendsFrom(newHead, local))
      && (Judge(repo, newHead) == Ahead(local, newHead) <==> DescendsFrom(local, newHead))
      && (Judge(repo, newHead) == Diverged(local, newHead) <==>
            local != newHead && !DescendsFrom(newHead, local) && !DescendsFrom(local, newHead))
  {
    if repo.head.Some? && DescendsFrom(newHead, repo.head.value) {
      AncestorSmaller(newHead, repo.head.value);
    }
  }

  /** The check before a download tells a commit already stored apart as the import would, but for one that HEAD could move
      forward to; of one not stored it says nothing. */
  lemma RelationForeseesJudgement(repo: Repo, remote: Object)
    requires repo.head.Some?
    ensures RelationTo(Some(repo), remote).Unknown? <==> Judge(repo, remote).CommitNotFound?
    ensures RelationTo(Some(repo), remote).SameHead? <==> Judge(repo, remote).UpToDate?
    ensures RelationTo(Some(repo), remote).AheadOf? <==> Judge(repo, remote).Ahead?
    ensures RelationTo(Some(repo), remote).DivergedFrom? <==> Judge(repo, remote).Diverged? || Judge(repo, remote).FastForwarded?
  {
    if DescendsFrom(remote, repo.head.value) {
      AncestorSmaller(remote, repo.head.value);
    }
  }

  class Repository {
    var store: set<Object>
    var head: Option<Object>

    constructor ()
      ensures State() == Repo({}, None)
    {
      store, head := {}, None;
    }

    function State(): Repo
      reads this
    {
      Repo(store, head)
    }

    /** `import_pack`; `interrupted` is the process dying between the object write and the ref move. */
    method ImportPack(pack: set<Object>, newHead: Object, interrupted: bool) returns (outcome: PackApply)
      modifies this
      ensures outcome == if interrupted then Interrupted else Judge(Repo(old(store) + pack, old(head)), newHead)
      ensures State() == if interrupted then Repo(old(store) + pack, old(head))
                         else RefMoved(Repo(old(store) + pack, old(head)), newHead)
    {
      store := store + pack;
      if interrupted {
        return Interrupted;
      }
      if newHead !in store {
        return CommitNotFound;
      }
      var from := head;
      if head.Some? {
        var local := head.value;
        if local == newHead {
          return UpToDate;
        }
        if !DescendsFrom(newHead, local) {
          return if DescendsFrom(local, newHead) then Ahead(local, newHead) else Diverged(local, newHead);
        }
      }
      head := Some(newHead);
      return FastForwarded(from, newHead);
    }
  }

  // One tenant's directory over time

  /** A pack on its way in: built for `have`, landing `newHead`; `written` once its objects are stored. */
  datatype Fetch = Fetch(pack: set<Object>, newHead: Object, have: Option<Object>, written: bool)

  /** What readers see, a staging directory beside it, and the import in progress. */
  datatype Disk = Disk(visible: Option<Repo>, staging: Option<Repo>, fetch: Option<Fetch>)

  datatype Action =
    | Download(masterHead: Object, knowsHave: bool, pack: set<Object>, newHead: Object)
    | AdoptInPlace
    | BeginStaging
    | WriteObjects
    | MoveRef
    | Publish
    | EndImport
    | Crash
    | SweepStaging
    | RemoveTenant
    | Repack(kept: set<Object>)
    | CommitLocally(newHead: Object)

  function HeadOf(repo: Option<Repo>): Option<Object> {
    if repo.Some? then repo.value.head else None
  }

  ghost predicate Next(s: Disk, action: Action, t: Disk) {
    match action
    case Download(masterHead, knowsHave, pack, newHead) =>
      var have := HeadOf(s.visible);
      && s.fetch.None? && s.staging.None? && IsHistory(masterHead) && newHead in Ancestors(masterHead)
      && PackFor(pack, masterHead, if knowsHave then have else None)
      && t == s.(fetch := Some(Fetch(pack, newHead, have, false)))
    case AdoptInPlace => s.visible.None? && s.staging.None? && t == s.(visible := Some(Repo({}, None)))
    case BeginStaging =>
      s.fetch.Some? && s.visible.None? && s.staging.None? && t == s.(staging := Some(Repo({}, None)))
    case WriteObjects =>
      && s.fetch.Some? && !s.fetch.value.written
      && var fetch := s.fetch.value;
         if s.staging.Some? then
           t == s.(staging := Some(s.staging.value.(store := s.staging.value.store + fetch.pack)), fetch := Some(fetch.(written := true)))
         else
           && s.visible.Some?
           && t == s.(visible := Some(s.visible.value.(store := s.visible.value.store + fetch.pack)), fetch := Some(fetch.(written := true)))
    case MoveRef =>
      && s.fetch.Some? && s.fetch.value.written
      && if s.staging.Some? then t == s.(staging := Some(RefMoved(s.staging.value, s.fetch.value.newHead)))
         else s.visible.Some? && t == s.(visible := Some(RefMoved(s.visible.value, s.fetch.value.newHead)))
    case Publish =>
      && s.fetch.Some? && s.staging.Some? && s.staging.value.head.Some? && s.visible.None?
      && t == Disk(s.staging, None, None)
    case EndImport => t == s.(fetch := None, staging := None)
    case Crash => t == s.(fetch := None)
    case SweepStaging => s.fetch.None? && t == s.(staging := None)
    case RemoveTenant => s.fetch.None? && t == s.(visible := None)
    case Repack(kept) =>
      // Under the tenant lock, which an import holds from its first write to its ref move
      && s.visible.Some? && (s.fetch.Some? ==> !s.fetch.value.written)
      && kept <= s.visible.value.store
      && (s.visible.value.head.Some? ==> Reach(s.visible.value.head.value) <= kept)
      && t == s.(visible := Some(s.visible.value.(store := kept)))
    case CommitLocally(newHead) =>
      && s.fetch.None? && s.visible.Some? && s.visible.value.head.Some?
      && newHead.CommitObject? && newHead.parents == [s.visible.value.head.value]
      && t == s.(visible := Some(Repo(s.visible.value.store + Reach(newHead.tree) + {newHead}, Some(newHead))))
  }

  /** HEAD and everything it leads to is there. */
  ghost predicate Whole(repo: Repo) {
    repo.head.Some? ==> IsHistory(repo.head.value) && Reach(repo.head.value) <= repo.store
  }

  ghost predicate FetchInv(s: Disk, fetch: Fetch) {
    && IsHistory(fetch.newHead)
    && Reach(fetch.newHead) <= fetch.pack + (if fetch.have.Some? then Reach(fetch.have.value) else {})
    && (fetch.have.Some? ==>
          && s.staging.None? && s.visible.Some? && s.visible.value.head.Some?
          && fetch.have.value in Ancestors(s.visible.value.head.value))
    && (fetch.written ==>
          if s.staging.Some? then fetch.pack <= s.staging.value.store
          else s.visible.Some? && fetch.pack <= s.visible.value.store)
  }

  ghost predicate Inv(s: Disk) {
    && (s.visible.Some? ==> Whole(s.visible.value))
    && (s.staging.Some? ==> Whole(s.staging.value))
    && (s.fetch.Some? ==> FetchInv(s, s.fetch.value))
  }

  lemma InvKept(s: Disk, action: Action, t: Disk)
    requires Inv(s) && Next(s, action, t)
    ensures Inv(t)
  {
    match action {
      case Download(masterHead, knowsHave, pack, newHead) =>
        var have := HeadOf(s.visible);
        PackCompletes(pack, masterHead, if knowsHave then have else None, newHead);
        AncestorIsHistory(masterHead, newHead);
      case MoveRef =>
        var fetch := s.fetch.value;
        if fetch.have.Some? {
          AncestorReach(s.visible.value.head.value, fetch.have.value);
        }
        if s.staging.None? && s.visible.value.head.Some? && fetch.have.Some? && DescendsFrom(fetch.newHead, s.visible.value.head.value) {
          AncestorsTransitive(fetch.newHead, s.visible.value.head.value, fetch.have.value);
        }
      case CommitLocally(newHead) =>
        assert ReachAll(newHead.parents) == Reach(newHead.parents[0]);
      case _ =>
    }
  }

  /** A visible HEAD only moves to a descendant; a refused pack, a crash and a repack leave it alone. */
  lemma HeadMovesForward(s: Disk, action: Action, t: Disk)
    requires Inv(s) && Next(s, action, t)
    requires s.visible.Some? && s.visible.value.head.Some? && t.visible.Some?
    ensures t.visible.value.head.Some?
    ensures s.visible.value.head.value in Ancestors(t.visible.value.head.value)
    ensures !action.MoveRef? && !action.CommitLocally? ==> t.visible.value.head == s.visible.value.head
  {
    if action.CommitLocally? {
      var h := s.visible.value.head.value;
      AncestorsAllMember(action.newHead.parents, h);
    }
  }

  ghost predicate IsTrace(states: seq<Disk>, actions: seq<Action>) {
    && |states| == |actions| + 1 && states[0] == Disk(None, None, None)
    && forall i | 0 <= i < |actions| :: Next(states[i], actions[i], states[i + 1])
  }

  /** Over every run, with a crash possible after any step: what readers can open has its whole HEAD. */
  lemma {:induction false} HeadAlwaysWhole(states: seq<Disk>, actions: seq<Action>, i: nat)
    requires IsTrace(states, actions) && i < |states|
    ensures Inv(states[i])
    ensures states[i].visible.Some? ==> Whole(states[i].visible.value)
  {
    if i > 0 {
      HeadAlwaysWhole(states, actions, i - 1);
      InvKept(states[i - 1], actions[i - 1], states[i]);
    }
  }

  /** ... and from one moment to a later one, with the tenant there throughout, HEAD only gained history. */
  lemma {:induction false} HistoryOnlyGrows(states: seq<Disk>, actions: seq<Action>, i: nat, j: nat)
    requires IsTrace(states, actions) && i <= j < |states|
    requires forall n | i <= n <= j :: states[n].visible.Some?
    requires states[i].visible.value.head.Some?
    ensures states[j].visible.value.head.Some?
    ensures states[i].visible.value.head.value in Ancestors(states[j].visible.value.head.value)
    decreases j
  {
    HeadAlwaysWhole(states, actions, i);
    if i < j {
      HistoryOnlyGrows(states, actions, i, j - 1);
      HeadAlwaysWhole(states, actions, j - 1);
      HeadMovesForward(states[j - 1], actions[j - 1], states[j]);
      AncestorsTransitive(states[j].visible.value.head.value, states[j - 1].visible.value.head.value,
                          states[i].visible.value.head.value);
    }
  }

  /** Why a download must land in the repository whose HEAD it was asked for: an incremental pack imported
      into a fresh repository is accepted and leaves HEAD without its history. */
  lemma IncrementalPackTearsFreshClone(tree: Object)
    requires tree == TreeObject([])
    ensures var first := CommitObject([], tree, 0);
      var second := CommitObject([first], tree, 1);
      var torn := RefMoved(Repo({second}, None), second);
      PackFor({second}, second, Some(first)) && torn.head == Some(second) && !Whole(torn)
  {
    var first := CommitObject([], tree, 0);
    var second := CommitObject([first], tree, 1);
    assert Ancestors(first) == {first} && AncestorsAll([first]) == {first};
    assert tree in Reach(first) && tree in Reach(second);
    assert Reach(tree) == {tree};
  }

  /** The check made before a download misjudges exactly one family: a commit already stored that HEAD could
      fast-forward to, as an interrupted import leaves it, is reported as diverged. */
  lemma RelationMisjudgesIff(repo: Repo, remote: Object)
    requires repo.head.Some?
    ensures RelationTo(Some(repo), remote).DivergedFrom? && Judge(repo, remote).FastForwarded?
       <==> remote in repo.store && DescendsFrom(remote, repo.head.value)
  {
    if DescendsFrom(remote, repo.head.value) {
      AncestorSmaller(remote, repo.head.value);
    }
  }
}
