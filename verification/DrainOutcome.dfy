/** What a drain does for each queued key, told by what can be seen of it afterwards. */
module DrainOutcomes {
  import opened Wrappers
  import opened Objects
  import opened PackImport
  import opened Followers
  import opened Convergence
  import opened Workers

  /** The commit is stored beside a HEAD it can be related to. */
  predicate Knows(s: State, key: Key, commit: Object) {
    key in s.repos && s.repos[key].head.Some? && commit in s.repos[key].store
  }

  /** The commit a queued head is synced to: itself where the store knows it, otherwise the one the master answers. */
  function SyncedTo(s: State, answers: map<Key, Answer>, key: Key): Option<Object>
    requires key in s.pending && s.pending[key].AtHead?
  {
    if Knows(s, key, s.pending[key].head) then Some(s.pending[key].head)
    else if key in answers then Some(answers[key].head)
    else None
  }

  /** A queued head stays queued exactly when its commit is unknown here and no answer delivers one. */
  predicate Undelivered(s: State, answers: map<Key, Answer>, key: Key)
    requires key in s.pending && s.pending[key].AtHead?
  {
    && !Knows(s, key, s.pending[key].head)
    && (key in answers ==> !Delivers(Lookup(s.repos, key), answers[key]))
  }

  /** A lock says exactly that HEAD is not where it was synced to: a queued head that left the queue with HEAD at that
      commit leaves no lock, whatever was locked before, and otherwise a lock that names that commit. */
  lemma LockedUnlessArrived(s: State, answers: map<Key, Answer>, t: State, key: Key)
    requires s.identityVerified && Drained(s, answers, t)
    requires key in s.pending && s.pending[key].AtHead? && key !in t.pending
    ensures var to := SyncedTo(s, answers, key);
      && to.Some?
      && Lookup(t.locks, key) == if HeadOf(Lookup(t.repos, key)) == to then None else to
  {
    assert DrainedAt(s, answers, t, key);
  }

  /** A failed sync keeps its place in the queue, its lock, its HEAD and its index entry. */
  lemma StaysQueuedIff(s: State, answers: map<Key, Answer>, t: State, key: Key)
    requires s.identityVerified && Drained(s, answers, t)
    requires key in s.pending && s.pending[key].AtHead?
    ensures key in t.pending <==> Undelivered(s, answers, key)
    ensures key in t.pending ==>
      && t.pending[key] == s.pending[key] && Lookup(t.locks, key) == Lookup(s.locks, key)
      && Lookup(t.index, key) == Lookup(s.index, key)
      && HeadOf(Lookup(t.repos, key)) == HeadOf(Lookup(s.repos, key)) && (key in t.repos <==> key in s.repos)
  {
    assert DrainedAt(s, answers, t, key);
  }

  /** A refused pack never destroys anything: whatever a queued head leads to, the copy stays, with every object it had
      and, where its commit was unknown and a pack came, all of that pack's, landed or not; and its HEAD stays or moves to
      a descendant. */
  lemma NothingDestroyed(s: State, answers: map<Key, Answer>, t: State, key: Key)
    requires s.identityVerified && Drained(s, answers, t)
    requires Lookup(s.pending, key) != Some(Deleted) && key in s.repos
    ensures key in t.repos
    ensures t.repos[key].store == s.repos[key].store
      + if key in s.pending && !Knows(s, key, s.pending[key].head) && key in answers then answers[key].pack else {}
    ensures s.repos[key].head.Some? ==>
      && t.repos[key].head.Some?
      && (t.repos[key].head == s.repos[key].head || DescendsFrom(t.repos[key].head.value, s.repos[key].head.value))
  {
    assert DrainedAt(s, answers, t, key);
  }

  /** A drained deletion takes the copy and its index entry and leaves a lock alone; what is not queued is not touched. */
  lemma DeletionDrained(s: State, answers: map<Key, Answer>, t: State, key: Key)
    requires s.identityVerified && Drained(s, answers, t)
    ensures Lookup(s.pending, key) == Some(Deleted) ==>
      && key !in t.repos && key !in t.pending && Lookup(t.locks, key) == Lookup(s.locks, key)
      && Lookup(t.index, key) == if key in s.repos then None else Lookup(s.index, key)
    ensures key !in s.pending ==> SameAt(s, t, key)
  {
    assert DrainedAt(s, answers, t, key);
  }

  lemma EndingsApart(s: State, answers: map<Key, Answer>)
    ensures |s.pending| == |EndingIn(s, answers, Synced)| + |EndingIn(s, answers, Locked)| + |EndingIn(s, answers, Failed)|
  {
    var synced, locked, failed := EndingIn(s, answers, Synced), EndingIn(s, answers, Locked), EndingIn(s, answers, Failed);
    assert s.pending.Keys == synced + locked + failed;
    PartsCounted(synced, locked, failed);
  }

  lemma PartsCounted(a: set<Key>, b: set<Key>, c: set<Key>)
    requires a !! b && a !! c && b !! c
    ensures |a + b + c| == |a| + |b| + |c|
  {
    assert |a + b| == |a| + |b|;
  }

  /** A drain counts as failed exactly when some key failed and none was synced, however many were locked. */
  lemma DrainFailedIff(s: State, answers: map<Key, Answer>)
    ensures DrainFailed(PassOf(s, answers)) <==>
      && s.identityVerified && (forall k | k in s.pending :: !SyncOf(s, answers, k).outcome.Synced?)
      && exists k :: k in s.pending && SyncOf(s, answers, k).outcome.Failed?
  {
    EndingsApart(s, answers);
    var synced, failed := EndingIn(s, answers, Synced), EndingIn(s, answers, Failed);
    if synced != {} { var k :| k in synced; }
    if failed != {} { var k :| k in failed; }
    if k :| k in s.pending && SyncOf(s, answers, k).outcome.Synced? { assert k in synced; }
    if k :| k in s.pending && SyncOf(s, answers, k).outcome.Failed? { assert k in failed; }
  }

  // Reconcile, key by key

  /** The listing names the key at a head the index does not have, and not at one it is locked against with its copy
      there. */
  ghost predicate Stale(s: State, listing: Listing, key: Key, head: Object) {
    && (exists e | e in listing.entries && e.valid :: e.key == key && e.head == head)
    && Lookup(s.index, key) != Some(head)
    && !(Lookup(s.locks, key) == Some(head) && key in s.repos)
  }

  /** What a holding reconcile leaves at one key: a lock against a listed head whose copy is gone is lifted, with the
      index entry, and nothing else of what is held changes; the queue holds a deletion exactly where the listing's own
      are accepted, a stale key at its listed head, and what it held before otherwise. */
  lemma ReconciledAt(s: State, guard: bool, listing: Listing, key: Key)
    requires IdentityHolds(s, listing.identity) && OneEntryEach(listing.entries)
    ensures var t := Reconciled(s, guard, listing);
      && LocalAt(t, key) == (if exists head :: Stale(s, listing, key, head) && Lookup(s.locks, key) == Some(head)
                             then Local(None, None, None) else LocalAt(s, key))
      && (key in Accepted(s, guard, listing) ==> Lookup(t.pending, key) == Some(Deleted))
      && (forall head | Stale(s, listing, key, head) :: Lookup(t.pending, key) == Some(AtHead(head)))
      && (key !in Accepted(s, guard, listing) && (forall head :: !Stale(s, listing, key, head)) ==>
            Lookup(t.pending, key) == Lookup(s.pending, key))
  {
    ReconciledParts(s, guard, listing, key);
    var verified := Verified(s, listing);
    if e :| e in listing.entries && e.valid && e.key == key {
      NotedEntry(verified, s.index, listing.entries, e);
      assert forall f | f in listing.entries && f.valid && f.key == key :: f == e;
      assert Stale(s, listing, key, e.head) || forall head :: !Stale(s, listing, key, head);
    } else {
      NotedElsewhere(verified, s.index, listing.entries, key);
    }
  }

  lemma {:induction false} NotedEntry(s: State, local: map<Key, Object>, entries: seq<Listed>, e: Listed)
    requires OneEntryEach(entries) && e in entries && e.valid
    ensures var t := NotedAll(s, local, entries);
      && Lookup(t.pending, e.key) == NotedTarget(s, local, e)
      && LocalAt(t, e.key) == (if Lookup(local, e.key) != Some(e.head) && Lookup(s.locks, e.key) == Some(e.head) && e.key !in s.repos
                               then Local(None, None, None) else LocalAt(s, e.key))
  {
    var last := entries[|entries| - 1];
    var rest := entries[..|entries| - 1];
    var t := NotedAll(s, local, rest);
    if last == e {
      NotedElsewhere(s, local, rest, e.key);
      NotedKeepsRest(s, local, rest);
      assert SameAt(s, t, e.key);
      NotedOwn(t, local, e);
    } else {
      assert e in rest && last.key != e.key;
      NotedEntry(s, local, rest, e);
      NotedStep(t, local, last, e.key);
    }
  }

  lemma NotedOwn(s: State, local: map<Key, Object>, e: Listed)
    requires e.valid
    ensures var t := Noted(s, local, e);
      && Lookup(t.pending, e.key) == NotedTarget(s, local, e)
      && LocalAt(t, e.key) == (if Lookup(local, e.key) != Some(e.head) && Lookup(s.locks, e.key) == Some(e.head) && e.key !in s.repos
                               then Local(None, None, None) else LocalAt(s, e.key))
  {
  }

  /** The guard refuses exactly a complete listing of a replica that holds two or more, when it leaves out more of them
      than it names. */
  lemma GuardTripsIff(s: State, guard: bool, listing: Listing)
    ensures GuardTrips(s, guard, listing) <==>
      guard && |s.index| >= 2 && |s.index.Keys - RemoteKeys(listing.entries)| > |s.index.Keys * RemoteKeys(listing.entries)|
  {
    var remote := RemoteKeys(listing.entries);
    assert s.index.Keys == (s.index.Keys - remote) + (s.index.Keys * remote);
  }

  /** The flags after a reconcile: a listing that states no identity, or another than the pinned one, only blocks; the first
      one stated is pinned, and the pinned one clears; and the guard's flag is raised by a refusal, lowered by a complete
      listing that passes, and left by a partial one. */
  lemma ReconciledFlags(s: State, guard: bool, listing: Listing)
    ensures var t := Reconciled(s, guard, listing);
      if listing.identity.Some? && (s.pinned.None? || s.pinned == listing.identity) then
        && t.identityVerified && t.pinned == listing.identity
        && t.deletionRefused == if listing.complete then GuardTrips(s, guard, listing) else s.deletionRefused
      else t == s.(identityVerified := false)
  {
    if IdentityHolds(s, listing.identity) {
      NotedKeepsRest(Verified(s, listing), s.index, listing.entries);
    }
  }
}
