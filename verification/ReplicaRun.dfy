/** A replica over its whole life: frames in any order, polls, drains, crashes, restarts and maintenance interleaved. */
module ReplicaRuns {
  import opened Wrappers
  import opened Objects
  import opened Packs
  import opened PackImport
  import opened Followers
  import opened Convergence

  datatype Event =
    | UpdatedFrame(key: Key, head: Object)
    | HelloFrame(stated: Option<nat>)
    | ReconcileWith(listing: Listing)
    | DrainWith(answers: map<Key, Answer>)
    | CrashInImport(key: Key, answer: Answer)
    | RestartAgain
    | MaintainStore(key: Key, kept: set<Object>)

  /** A pack the master built for what this repository reported, or a full one, landing some commit of its history. */
  ghost predicate ProperAnswer(repo: Option<Repo>, answer: Answer) {
    exists masterHead: Object ::
      && IsHistory(masterHead) && answer.head in Ancestors(masterHead)
      && (PackFor(answer.pack, masterHead, None) || PackFor(answer.pack, masterHead, HeadOf(repo)))
  }

  function HeadsOf(repos: map<Key, Repo>): map<Key, Object> {
    map k | k in repos && repos[k].head.Some? :: repos[k].head.value
  }

  /** What a restart finds: the disk and the pinned identity; queue, locks and flags are gone, the index is rescanned. */
  function Restarted(s: State): State {
    State(s.repos, HeadsOf(s.repos), map[], map[], s.pinned, false, false)
  }

  /** The process dies between an import's objects and its ref: an existing repository keeps the objects, a fresh one
      was only ever a staging directory. */
  function Crashed(s: State, key: Key, answer: Answer): State {
    if key in s.repos
    then Restarted(s.(repos := s.repos[key := s.repos[key].(store := s.repos[key].store + answer.pack)]))
    else Restarted(s)
  }

  ghost predicate Next(s: State, guard: bool, e: Event, t: State) {
    match e
    case UpdatedFrame(key, head) => t == s.(pending := s.pending[key := AtHead(head)])
    case HelloFrame(stated) =>
      t == if stated.None? then s else s.(identityVerified := s.pinned.None? || s.pinned == stated)
    case ReconcileWith(listing) => t == Reconciled(s, guard, listing)
    case DrainWith(answers) =>
      && (forall k | k in s.pending && k in answers :: ProperAnswer(Lookup(s.repos, k), answers[k]))
      && Drained(s, answers, t)
    case CrashInImport(key, answer) => t == Crashed(s, key, answer)
    case RestartAgain => t == Restarted(s)
    case MaintainStore(key, kept) =>
      && key in s.repos && kept <= s.repos[key].store
      && (s.repos[key].head.Some? ==> Reach(s.repos[key].head.value) <= kept)
      && t == s.(repos := s.repos[key := s.repos[key].(store := kept)])
  }

  /** The index is the disk's, and every repository holds all its HEAD leads to. */
  ghost predicate Sound(s: State) {
    IndexMatches(s) && forall k | k in s.repos :: Whole(s.repos[k])
  }

  /** One sync, whatever it ends in, leaves a whole repository and a true index entry. */
  lemma SyncSound(local: Local, target: Target, answer: Option<Answer>)
    requires local.indexed == HeadOf(local.repo) && (local.repo.Some? ==> Whole(local.repo.value))
    requires answer.Some? ==> ProperAnswer(local.repo, answer.value)
    ensures var result := Sync(local, target, answer).local;
      result.indexed == HeadOf(result.repo) && (result.repo.Some? ==> Whole(result.repo.value))
  {
    SyncKeepsIndex(local, target, answer);
    if answer.Some? {
      AnswerComplete(local.repo, answer.value);
    }
  }

  /** What a packfile and the repository it was asked for hold together is all the answered commit leads to. */
  lemma AnswerComplete(repo: Option<Repo>, answer: Answer)
    requires ProperAnswer(repo, answer) && (repo.Some? ==> Whole(repo.value))
    ensures IsHistory(answer.head)
    ensures Reach(answer.head) <= answer.pack + if repo.Some? then repo.value.store else {}
  {
    var masterHead: Object :| IsHistory(masterHead) && answer.head in Ancestors(masterHead)
      && (PackFor(answer.pack, masterHead, None) || PackFor(answer.pack, masterHead, HeadOf(repo)));
    AncestorIsHistory(masterHead, answer.head);
    var have := if PackFor(answer.pack, masterHead, None) then None else HeadOf(repo);
    PackCompletes(answer.pack, masterHead, have, answer.head);
  }

  lemma DrainSound(s: State, answers: map<Key, Answer>, t: State)
    requires Sound(s) && Next(s, true, DrainWith(answers), t)
    ensures Sound(t)
  {
    if s.identityVerified {
      forall k
        ensures Lookup(t.index, k) == HeadOf(Lookup(t.repos, k)) && (k in t.repos ==> Whole(t.repos[k]))
      {
        assert DrainedAt(s, answers, t, k) && Lookup(s.index, k) == HeadOf(Lookup(s.repos, k));
        if k in s.pending {
          SyncSound(LocalAt(s, k), s.pending[k], Lookup(answers, k));
        }
      }
    }
  }

  lemma ReconcileSound(s: State, guard: bool, listing: Listing)
    requires Sound(s)
    ensures Sound(Reconciled(s, guard, listing)) && Reconciled(s, guard, listing).repos == s.repos
  {
    if IdentityHolds(s, listing.identity) {
      var verified := Verified(s, listing);
      NotedKeepsIndex(verified, s.index, listing.entries);
      NotedKeepsRest(verified, s.index, listing.entries);
    }
  }

  lemma NextSound(s: State, guard: bool, e: Event, t: State)
    requires Sound(s) && Next(s, guard, e, t)
    ensures Sound(t)
  {
    match e {
      case ReconcileWith(listing) => ReconcileSound(s, guard, listing);
      case DrainWith(answers) => DrainSound(s, answers, t);
      case _ =>
    }
  }

  ghost predicate IsLife(states: seq<State>, guard: bool, events: seq<Event>) {
    && |states| == |events| + 1 && states[0].repos == map[] && states[0].index == map[]
    && forall i | 0 <= i < |events| :: Next(states[i], guard, events[i], states[i + 1])
  }

  /** Over every life of a replica, crashes between objects and ref included, each repository it holds has all its
      HEAD leads to and the index states the disk's heads. */
  lemma {:induction false} EveryLifeIsSound(states: seq<State>, guard: bool, events: seq<Event>, i: nat)
    requires IsLife(states, guard, events) && i < |states|
    ensures Sound(states[i])
  {
    if i > 0 {
      EveryLifeIsSound(states, guard, events, i - 1);
      NextSound(states[i - 1], guard, events[i - 1], states[i]);
    }
  }

  /** Long downtime is a non-event: after any life whatsoever, one reconcile and drain with a master standing still
      brings the held heads to the listed ones, exactly unless a repository is one of those the rule leaves behind. */
  lemma EveryLifeConverges(states: seq<State>, guard: bool, events: seq<Event>, i: nat, listing: Listing,
                           answers: map<Key, Answer>)
    requires IsLife(states, guard, events) && i + 1 < |events|
    requires events[i] == ReconcileWith(listing) && events[i + 1] == DrainWith(answers)
    requires PassReady(states[i], guard, listing, answers)
    ensures (forall e | e in listing.entries && e.valid :: WillConverge(states[i], e))
       <==> (forall k, h :: HeadOf(Lookup(states[i + 2].repos, k)) == Some(h) <==> Listed(k, h, true) in listing.entries)
  {
    EveryLifeIsSound(states, guard, events, i);
    EveryLifeIsSound(states, guard, events, i + 1);
    AnswersDeliver(states[i + 1], guard, answers, states[i + 2]);
    OnePassConverges(states[i], guard, listing, answers, states[i + 2]);
  }

  /** Nothing more need be asked of the packs: one built for what a sound repository reported delivers its commit. */
  lemma AnswersDeliver(s: State, guard: bool, answers: map<Key, Answer>, t: State)
    requires Sound(s) && Next(s, guard, DrainWith(answers), t)
    ensures Delivered(s, answers)
  {
    forall k | k in s.pending && k in answers
      ensures Delivers(Lookup(s.repos, k), answers[k])
    {
      AnswerComplete(Lookup(s.repos, k), answers[k]);
      assert answers[k].head in Reach(answers[k].head);
    }
  }

  /** A pinned identity is the replica's for life: no other master's listing replaces it, and no restart forgets it. */
  lemma {:induction false} PinnedForLife(states: seq<State>, guard: bool, events: seq<Event>, i: nat, j: nat)
    requires IsLife(states, guard, events) && i <= j < |states| && states[i].pinned.Some?
    ensures states[j].pinned == states[i].pinned
    decreases j
  {
    if i < j {
      PinnedForLife(states, guard, events, i, j - 1);
      NextKeepsPin(states[j - 1], guard, events[j - 1], states[j]);
    }
  }

  lemma NextKeepsPin(s: State, guard: bool, e: Event, t: State)
    requires Next(s, guard, e, t) && s.pinned.Some?
    ensures t.pinned == s.pinned
  {
    match e {
      case ReconcileWith(listing) =>
        if IdentityHolds(s, listing.identity) {
          NotedKeepsRest(Verified(s, listing), s.index, listing.entries);
        }
      case _ =>
    }
  }

  // Deletions

  /** The listing a deletion may come from: complete, from the pinned master, naming the key no more, within the guard. */
  ghost predicate Condemns(s: State, guard: bool, e: Event, key: Key) {
    e.ReconcileWith? && IdentityHolds(s, e.listing.identity) && key in Accepted(s, guard, e.listing)
  }

  lemma QueuedByListing(s: State, guard: bool, e: Event, t: State, key: Key)
    requires Next(s, guard, e, t) && Lookup(t.pending, key) == Some(Deleted)
    ensures Condemns(s, guard, e, key) || Lookup(s.pending, key) == Some(Deleted)
  {
    match e {
      case ReconcileWith(listing) =>
        if IdentityHolds(s, listing.identity) {
          ReconciledParts(s, guard, listing, key);
          NotedQueuesNoDeletion(Verified(s, listing), s.index, listing.entries, key);
        }
      case DrainWith(answers) =>
        if s.identityVerified { assert DrainedAt(s, answers, t, key); }
      case _ =>
    }
  }

  predicate DeletionStands(states: seq<State>, n: nat, i: nat, key: Key)
    requires i < |states|
  {
    forall m | n < m <= i :: Lookup(states[m].pending, key) == Some(Deleted)
  }

  /** A deletion queued at `i` and not yet at `from` comes from a listing in between, and was not withdrawn since. */
  lemma DeletionQueuedByListing(states: seq<State>, guard: bool, events: seq<Event>, from: nat,
                                i: nat, key: Key)
    requires IsLife(states, guard, events) && from <= i < |states|
    requires Lookup(states[from].pending, key) != Some(Deleted)
    requires Lookup(states[i].pending, key) == Some(Deleted)
    ensures exists n | from <= n < i :: Condemns(states[n], guard, events[n], key) && DeletionStands(states, n, i, key)
  {
    var n := StandsSince(states, from, i, key);
    QueuedByListing(states[n], guard, events[n], states[n + 1], key);
  }

  lemma {:induction false} StandsSince(states: seq<State>, from: nat, i: nat, key: Key) returns (n: nat)
    requires from <= i < |states| && Lookup(states[from].pending, key) != Some(Deleted)
    requires Lookup(states[i].pending, key) == Some(Deleted)
    ensures from <= n < i && Lookup(states[n].pending, key) != Some(Deleted) && DeletionStands(states, n, i, key)
    decreases i
  {
    if Lookup(states[i - 1].pending, key) != Some(Deleted) {
      n := i - 1;
    } else {
      n := StandsSince(states, from, i - 1, key);
    }
  }

  /** One event takes a held repository away only by draining its queued deletion. */
  lemma GoneByDrain(states: seq<State>, guard: bool, events: seq<Event>, i: nat, key: Key)
    requires IsLife(states, guard, events) && i < |events|
    requires HeadOf(Lookup(states[i].repos, key)).Some? && HeadOf(Lookup(states[i + 1].repos, key)).None?
    ensures events[i].DrainWith? && Lookup(states[i].pending, key) == Some(Deleted)
  {
    EveryLifeIsSound(states, guard, events, i);
    match events[i] {
      case ReconcileWith(listing) => ReconcileSound(states[i], guard, listing);
      case DrainWith(answers) =>
        if states[i].identityVerified { DrainedHead(states[i], answers, states[i + 1], key); }
      case _ =>
    }
  }

  /** No frame, crash or partial listing ever deletes: whenever a held repository is gone from one moment to the next,
      an earlier complete listing of the pinned master, let through by the guard, had left it out, and the deletion it
      queued stood untouched until then. */
  lemma GoneMeansCondemned(states: seq<State>, guard: bool, events: seq<Event>, i: nat, key: Key)
    requires IsLife(states, guard, events) && i < |events| && states[0].pending == map[]
    requires HeadOf(Lookup(states[i].repos, key)).Some? && HeadOf(Lookup(states[i + 1].repos, key)).None?
    ensures exists n | 0 <= n < i :: Condemns(states[n], guard, events[n], key) && DeletionStands(states, n, i, key)
  {
    GoneByDrain(states, guard, events, i, key);
    DeletionQueuedByListing(states, guard, events, 0, i, key);
  }

  /** From one moment of a life to a later one, the repository held throughout, its HEAD only gained history, whatever
      the master answered. */
  lemma {:induction false} HeadOnlyGrows(states: seq<State>, guard: bool, events: seq<Event>, i: nat, j: nat, key: Key)
    requires IsLife(states, guard, events) && i <= j < |states|
    requires forall n | i <= n <= j :: HeadOf(Lookup(states[n].repos, key)).Some?
    ensures HeadOf(Lookup(states[i].repos, key)).value in Ancestors(HeadOf(Lookup(states[j].repos, key)).value)
    decreases j
  {
    EveryLifeIsSound(states, guard, events, i);
    if i < j {
      HeadOnlyGrows(states, guard, events, i, j - 1, key);
      EveryLifeIsSound(states, guard, events, j - 1);
      NextGrows(states[j - 1], guard, events[j - 1], states[j], key);
      AncestorsTransitive(HeadOf(Lookup(states[j].repos, key)).value, HeadOf(Lookup(states[j - 1].repos, key)).value,
                          HeadOf(Lookup(states[i].repos, key)).value);
    }
  }

  lemma NextGrows(s: State, guard: bool, e: Event, t: State, key: Key)
    requires Sound(s) && Next(s, guard, e, t)
    requires HeadOf(Lookup(s.repos, key)).Some? && HeadOf(Lookup(t.repos, key)).Some?
    ensures HeadOf(Lookup(s.repos, key)).value in Ancestors(HeadOf(Lookup(t.repos, key)).value)
  {
    match e {
      case ReconcileWith(listing) => ReconcileSound(s, guard, listing);
      case DrainWith(answers) =>
        if s.identityVerified { DrainGrows(s, answers, t, key); }
      case _ =>
    }
  }

  lemma DrainGrows(s: State, answers: map<Key, Answer>, t: State, key: Key)
    requires s.identityVerified && Drained(s, answers, t)
    requires HeadOf(Lookup(s.repos, key)).Some? && HeadOf(Lookup(s.repos, key)).value.CommitObject?
    requires HeadOf(Lookup(t.repos, key)).Some?
    ensures HeadOf(Lookup(s.repos, key)).value in Ancestors(HeadOf(Lookup(t.repos, key)).value)
  {
    assert DrainedAt(s, answers, t, key);
    if key in s.pending { SyncGrows(LocalAt(s, key), s.pending[key], Lookup(answers, key)); }
  }

  lemma SyncGrows(local: Local, target: Target, answer: Option<Answer>)
    requires HeadOf(local.repo).Some? && HeadOf(local.repo).value.CommitObject?
    requires HeadOf(Sync(local, target, answer).local.repo).Some?
    ensures HeadOf(local.repo).value in Ancestors(HeadOf(Sync(local, target, answer).local.repo).value)
  {
  }

  // The deletion guard

  /** What is held with no deletion queued against it. */
  function Kept(s: State): set<Key> {
    set k | k in s.index && Lookup(s.pending, k) != Some(Deleted)
  }

  /** The deletions an event may queue: none but those of a listing that holds. */
  function AcceptedBy(s: State, guard: bool, e: Event): set<Key> {
    if e.ReconcileWith? && IdentityHolds(s, e.listing.identity) then Accepted(s, guard, e.listing) else {}
  }

  /** No event takes a key out of what is kept but a listing's accepted deletions. */
  lemma KeptUnlessAccepted(s: State, guard: bool, e: Event, t: State, key: Key)
    requires Sound(s) && Next(s, guard, e, t) && key in Kept(s) && key !in AcceptedBy(s, guard, e)
    ensures key in Kept(t)
  {
    assert Lookup(s.index, key) == HeadOf(Lookup(s.repos, key));
    NextSound(s, guard, e, t);
    assert Lookup(t.index, key) == HeadOf(Lookup(t.repos, key));
    if Lookup(t.pending, key) == Some(Deleted) {
      QueuedByListing(s, guard, e, t, key);
    }
    match e {
      case ReconcileWith(listing) => ReconcileSound(s, guard, listing);
      case DrainWith(answers) =>
        if s.identityVerified { DrainedHead(s, answers, t, key); }
      case _ =>
    }
  }

  /** With the guard on, an accepted listing that finds two or more held and no deletion still queued leaves at least
      half of what was kept; any other event, whatever is queued, takes nothing out of it. */
  lemma EventKeepsHalf(s: State, e: Event, t: State)
    requires Sound(s) && Next(s, true, e, t)
    requires AcceptedBy(s, true, e) != {} ==> NoDeletionQueued(s) && |s.index| >= 2
    ensures Kept(s) - AcceptedBy(s, true, e) <= Kept(t)
    ensures |Kept(t)| * Share(AcceptedBy(s, true, e)) >= |Kept(s)|
  {
    var accepted := AcceptedBy(s, true, e);
    forall key | key in Kept(s) - accepted
      ensures key in Kept(t)
    {
      KeptUnlessAccepted(s, true, e, t, key);
    }
    if accepted == {} {
      SubsetCard(Kept(s), Kept(t));
    } else {
      assert Kept(s) == s.index.Keys;
      HalfLeft(Kept(s), accepted, Kept(t));
    }
  }

  /** What an accepted listing may divide by: two, where it deletes anything. */
  function Share(accepted: set<Key>): nat {
    if accepted == {} then 1 else 2
  }

  lemma HalfLeft(held: set<Key>, taken: set<Key>, left: set<Key>)
    requires taken <= held && |taken| * 2 <= |held| && held - taken <= left
    ensures |left| * 2 >= |held|
  {
    SubsetCard(held - taken, left);
    assert held == (held - taken) + taken;
  }

  /** How many of the events from `i` up to `j` are listings whose deletions were accepted. */
  function AcceptedListings(states: seq<State>, guard: bool, events: seq<Event>, i: nat, j: nat): nat
    requires i <= j <= |events| && |states| == |events| + 1
    decreases j
  {
    if i == j then 0
    else AcceptedListings(states, guard, events, i, j - 1)
         + if AcceptedBy(states[j - 1], guard, events[j - 1]) == {} then 0 else 1
  }

  /** Over any stretch of a life, whatever frames, drains, crashes and restarts come in it, `k` accepted listings leave
      at least the k-th half of what was kept, for as long as each of them finds two or more held and no deletion of an
      earlier one still queued. */
  lemma GuardBoundsLoss(states: seq<State>, events: seq<Event>, i: nat, j: nat)
    requires IsLife(states, true, events) && i <= j <= |events|
    requires forall n | i <= n < j && AcceptedBy(states[n], true, events[n]) != {} ::
               NoDeletionQueued(states[n]) && |states[n].index| >= 2
    ensures |Kept(states[j])| * Pow2(AcceptedListings(states, true, events, i, j)) >= |Kept(states[i])|
  {
    forall n | i <= n < j
      ensures StepKeepsShare(states, true, events, n)
    {
      EveryLifeIsSound(states, true, events, n);
      EventKeepsHalf(states[n], events[n], states[n + 1]);
    }
    SharesMultiply(states, true, events, i, j);
  }

  predicate StepKeepsShare(states: seq<State>, guard: bool, events: seq<Event>, n: nat)
    requires n < |events| && |states| == |events| + 1
  {
    |Kept(states[n + 1])| * Share(AcceptedBy(states[n], guard, events[n])) >= |Kept(states[n])|
  }

  lemma {:induction false} SharesMultiply(states: seq<State>, guard: bool, events: seq<Event>, i: nat, j: nat)
    requires i <= j <= |events| && |states| == |events| + 1
    requires forall n | i <= n < j :: StepKeepsShare(states, guard, events, n)
    ensures |Kept(states[j])| * Pow2(AcceptedListings(states, guard, events, i, j)) >= |Kept(states[i])|
    decreases j
  {
    if i < j {
      SharesMultiply(states, guard, events, i, j - 1);
      assert StepKeepsShare(states, guard, events, j - 1);
      Halving(|Kept(states[j])|, |Kept(states[j - 1])|, |Kept(states[i])|,
              Share(AcceptedBy(states[j - 1], guard, events[j - 1])),
              Pow2(AcceptedListings(states, guard, events, i, j - 1)));
    }
  }

  lemma Halving(after: nat, before: nat, first: nat, share: nat, power: nat)
    requires after * share >= before && before * power >= first
    ensures after * (share * power) >= first
  {
    assert after * (share * power) == (after * share) * power;
    assert (after * share) * power >= before * power;
  }

  // Lives no crash cut an import short in

  /** The master names in its answer the very commit its packfile was built for, and packs no commit beyond it. */
  ghost predicate ExactAnswer(repo: Option<Repo>, answer: Answer) {
    && IsHistory(answer.head)
    && (forall c | c in answer.pack && c.CommitObject? :: c in Ancestors(answer.head))
    && (PackFor(answer.pack, answer.head, None) || PackFor(answer.pack, answer.head, HeadOf(repo)))
  }

  /** HEAD is the newest of its line in the store, and a lock names no commit HEAD could move forward to. */
  ghost predicate TidyAt(local: Local) {
    local.repo.Some? ==>
      && local.repo.value.head.Some?
      && (forall c | c in local.repo.value.store :: !DescendsFrom(c, local.repo.value.head.value))
      && (local.lock.Some? ==> !DescendsFrom(local.lock.value, local.repo.value.head.value))
  }

  ghost predicate Tidy(s: State) {
    forall k :: TidyAt(LocalAt(s, k))
  }

  /** An ancestor of a commit descends from nothing that commit does not descend from. */
  lemma AncestorsShare(m: Object, c: Object, o: Object)
    requires c in Ancestors(m) && DescendsFrom(c, o)
    ensures DescendsFrom(m, o)
  {
    AncestorsTransitive(m, c, o);
    if m == o && c != m { AncestorSmaller(c, o); }
  }

  lemma NothingAboveItself(c: Object, head: Object)
    requires c in Ancestors(head)
    ensures !DescendsFrom(c, head)
  {
    if DescendsFrom(c, head) { AncestorSmaller(c, head); }
  }

  lemma SyncTidy(local: Local, target: Target, answer: Option<Answer>)
    requires TidyAt(local) && (local.repo.Some? ==> Whole(local.repo.value))
    requires answer.Some? ==> ExactAnswer(local.repo, answer.value)
    ensures TidyAt(Sync(local, target, answer).local)
  {
    if target.AtHead? && RelationTo(local.repo, target.head).Unknown? && answer.Some? {
      ImportTidy(local, answer.value);
    } else if target.AtHead? && local.repo.Some? {
      assert target.head in local.repo.value.store || RelationTo(local.repo, target.head).Unknown?;
    }
  }

  lemma ImportTidy(local: Local, answer: Answer)
    requires TidyAt(local) && (local.repo.Some? ==> Whole(local.repo.value)) && ExactAnswer(local.repo, answer)
    ensures TidyAt(Imported(local, answer).local)
  {
    var stored := if local.repo.Some? then local.repo.value.(store := local.repo.value.store + answer.pack)
                  else Repo(answer.pack, None);
    assert answer.head in Ancestors(answer.head);
    AnswerComplete(local.repo, answer);
    assert answer.head in stored.store by { assert answer.head in Reach(answer.head); }
    if local.repo.None? || DescendsFrom(answer.head, local.repo.value.head.value) {
      forall c | c in stored.store
        ensures !DescendsFrom(c, answer.head)
      {
        StoredBelow(local, answer, c);
      }
    } else {
      forall c | c in stored.store
        ensures !DescendsFrom(c, local.repo.value.head.value)
      {
        if c in answer.pack && DescendsFrom(c, local.repo.value.head.value) {
          AncestorsShare(answer.head, c, local.repo.value.head.value);
        }
      }
    }
  }

  /** Nothing stored, before or with the packfile, lies beyond the commit HEAD moves to. */
  lemma StoredBelow(local: Local, answer: Answer, c: Object)
    requires TidyAt(local) && ExactAnswer(local.repo, answer)
    requires local.repo.Some? ==> DescendsFrom(answer.head, local.repo.value.head.value)
    requires c in answer.pack || (local.repo.Some? && c in local.repo.value.store)
    ensures !DescendsFrom(c, answer.head)
  {
    if c in answer.pack && c.CommitObject? {
      NothingAboveItself(c, answer.head);
    } else if DescendsFrom(c, answer.head) && local.repo.Some? {
      AncestorsShareBelow(c, answer.head, local.repo.value.head.value);
    }
  }

  lemma AncestorsShareBelow(c: Object, b: Object, a: Object)
    requires DescendsFrom(c, b) && DescendsFrom(b, a)
    ensures DescendsFrom(c, a)
  {
    AncestorsTransitive(c, b, a);
    if c == a { AncestorSmaller(c, b); }
  }

  /** No import is cut short, and every answer is exact. */
  ghost predicate Uninterrupted(s: State, e: Event) {
    match e
    case CrashInImport(_, _) => false
    case DrainWith(answers) => forall k | k in s.pending && k in answers :: ExactAnswer(Lookup(s.repos, k), answers[k])
    case _ => true
  }

  lemma NextTidy(s: State, guard: bool, e: Event, t: State)
    requires Sound(s) && Tidy(s) && Next(s, guard, e, t) && Uninterrupted(s, e)
    ensures Tidy(t)
  {
    forall k
      ensures TidyAt(LocalAt(t, k))
    {
      assert TidyAt(LocalAt(s, k));
      match e {
        case ReconcileWith(listing) => ReconcileTidy(s, guard, listing, k);
        case DrainWith(answers) =>
          if s.identityVerified {
            assert DrainedAt(s, answers, t, k);
            if k in s.pending { SyncTidy(LocalAt(s, k), s.pending[k], Lookup(answers, k)); }
          }
        case _ =>
      }
    }
  }

  lemma ReconcileTidy(s: State, guard: bool, listing: Listing, key: Key)
    requires TidyAt(LocalAt(s, key))
    ensures TidyAt(LocalAt(Reconciled(s, guard, listing), key))
  {
    if IdentityHolds(s, listing.identity) {
      ReconciledParts(s, guard, listing, key);
      NotedLocksShrink(Verified(s, listing), s.index, listing.entries, key);
      NotedKeepsRest(Verified(s, listing), s.index, listing.entries);
    }
  }

  lemma {:induction false} NotedLocksShrink(s: State, local: map<Key, Object>, entries: seq<Listed>, key: Key)
    ensures var lock := Lookup(NotedAll(s, local, entries).locks, key); lock.None? || lock == Lookup(s.locks, key)
  {
    if entries != [] {
      NotedLocksShrink(s, local, entries[..|entries| - 1], key);
    }
  }

  lemma {:induction false} UninterruptedLifeIsTidy(states: seq<State>, guard: bool, events: seq<Event>, i: nat)
    requires IsLife(states, guard, events) && i < |states|
    requires forall n | 0 <= n < i :: Uninterrupted(states[n], events[n])
    ensures Tidy(states[i])
  {
    if i > 0 {
      UninterruptedLifeIsTidy(states, guard, events, i - 1);
      EveryLifeIsSound(states, guard, events, i - 1);
      NextTidy(states[i - 1], guard, events[i - 1], states[i]);
    }
  }

  /** Where no import was ever cut short, frames may have been lost, repeated and reordered and the process restarted at
      will: one pass brings a listed repository to its listed head exactly when it is new or its HEAD is an ancestor. */
  lemma UninterruptedLifeConverges(states: seq<State>, guard: bool, events: seq<Event>, i: nat,
                                   listing: Listing, answers: map<Key, Answer>, e: Listed)
    requires IsLife(states, guard, events) && i + 1 < |events|
    requires forall n | 0 <= n < i :: Uninterrupted(states[n], events[n])
    requires events[i] == ReconcileWith(listing) && events[i + 1] == DrainWith(answers)
    requires PassReady(states[i], guard, listing, answers) && e in listing.entries && e.valid
    ensures var head := HeadOf(Lookup(states[i].repos, e.key));
      HeadOf(Lookup(states[i + 2].repos, e.key)) == Some(e.head)
      <==> head.None? || head == Some(e.head) || DescendsFrom(e.head, head.value)
  {
    EveryLifeIsSound(states, guard, events, i);
    UninterruptedLifeIsTidy(states, guard, events, i);
    EveryLifeIsSound(states, guard, events, i + 1);
    AnswersDeliver(states[i + 1], guard, answers, states[i + 2]);
    ListedConvergesIff(states[i], guard, listing, answers, states[i + 2], e);
    TidyWillConverge(states[i], e);
  }

  /** In a tidy state neither a lock nor a stored commit stands between a repository and a descendant of its HEAD. */
  lemma TidyWillConverge(s: State, e: Listed)
    requires Tidy(s)
    ensures var head := HeadOf(Lookup(s.repos, e.key));
      WillConverge(s, e) <==> head.None? || head == Some(e.head) || DescendsFrom(e.head, head.value)
  {
    assert TidyAt(LocalAt(s, e.key));
  }
}
