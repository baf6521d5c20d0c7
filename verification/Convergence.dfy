/** What one reconcile and the drain after it achieve, and what many of them can lose. */
module Convergence {
  import opened Wrappers
  import opened Objects
  import opened PackImport
  import opened Followers

  /** The index lists exactly the repositories with a HEAD, at that HEAD. */
  ghost predicate IndexMatches(s: State) {
    forall k :: Lookup(s.index, k) == HeadOf(Lookup(s.repos, k))
  }

  /** A master listing is built from a map: one entry a key. */
  predicate OneEntryEach(entries: seq<Listed>) {
    forall i, j | 0 <= i < j < |entries| :: entries[i].key != entries[j].key
  }

  predicate NoDeletionQueued(s: State) {
    forall k | k in s.pending :: s.pending[k] != Deleted
  }

  predicate GuardTrips(s: State, guard: bool, listing: Listing) {
    MassDeletion(guard, |s.index|, |Deletions(s.index, listing)|)
  }

  /** The master did not move between its listing and its packs. */
  predicate QuietMaster(listing: Listing, answers: map<Key, Answer>) {
    && (forall e | e in listing.entries && e.valid :: e.key in answers && answers[e.key].head == e.head)
    && (forall k | k in answers :: k in RemoteKeys(listing.entries))
  }

  /** The answered commit is in the pack, or hidden from it because the repository already stores it. */
  predicate Delivers(repo: Option<Repo>, answer: Answer) {
    answer.head in answer.pack || (repo.Some? && answer.head in repo.value.store)
  }

  predicate Delivered(s: State, answers: map<Key, Answer>) {
    forall k | k in s.pending && k in answers :: Delivers(Lookup(s.repos, k), answers[k])
  }

  // Reconcile, key by key

  /** What `Noted` does at the entry's own key. */
  function NotedTarget(s: State, local: map<Key, Object>, e: Listed): Option<Target> {
    if Lookup(local, e.key) == Some(e.head) || (Lookup(s.locks, e.key) == Some(e.head) && e.key in s.repos)
    then Lookup(s.pending, e.key) else Some(AtHead(e.head))
  }

  lemma NotedStep(s: State, local: map<Key, Object>, e: Listed, key: Key)
    ensures var t := Noted(s, local, e);
      && t.repos == s.repos && SameFlags(s, t)
      && (!e.valid || key != e.key ==> SameAt(s, t, key))
      && (e.valid && key == e.key ==>
            && Lookup(t.pending, key) == NotedTarget(s, local, e)
            && (key in s.repos ==> LocalAt(t, key) == LocalAt(s, key))
            && (Lookup(s.index, key).None? ==> Lookup(t.index, key).None?))
  {
  }

  lemma {:induction false} NotedElsewhere(s: State, local: map<Key, Object>, entries: seq<Listed>, key: Key)
    requires forall e | e in entries && e.valid :: e.key != key
    ensures SameAt(s, NotedAll(s, local, entries), key)
  {
    if entries != [] {
      var rest := entries[..|entries| - 1];
      NotedElsewhere(s, local, rest, key);
      NotedStep(NotedAll(s, local, rest), local, entries[|entries| - 1], key);
    }
  }

  lemma {:induction false} NotedKeepsRest(s: State, local: map<Key, Object>, entries: seq<Listed>)
    ensures NotedAll(s, local, entries).repos == s.repos && SameFlags(s, NotedAll(s, local, entries))
  {
    if entries != [] {
      NotedKeepsRest(s, local, entries[..|entries| - 1]);
    }
  }

  /** A listed key's target and lock after the whole listing was read. */
  lemma {:induction false} NotedHere(s: State, local: map<Key, Object>, entries: seq<Listed>, e: Listed)
    requires OneEntryEach(entries) && e in entries && e.valid
    ensures var t := NotedAll(s, local, entries);
      && Lookup(t.pending, e.key) == NotedTarget(s, local, e)
      && (e.key in s.repos ==> LocalAt(t, e.key) == LocalAt(s, e.key))
      && (Lookup(s.index, e.key).None? ==> Lookup(t.index, e.key).None?)
  {
    var last := entries[|entries| - 1];
    var rest := entries[..|entries| - 1];
    var t := NotedAll(s, local, rest);
    if last == e {
      NotedElsewhere(s, local, rest, e.key);
      NotedKeepsRest(s, local, rest);
      assert SameAt(s, t, e.key);
    } else {
      assert e in rest && last.key != e.key;
      NotedHere(s, local, rest, e);
    }
    NotedStep(t, local, last, e.key);
  }

  lemma {:induction false} NotedQueuesNoDeletion(s: State, local: map<Key, Object>, entries: seq<Listed>, key: Key)
    ensures Lookup(NotedAll(s, local, entries).pending, key) == Some(Deleted) ==> Lookup(s.pending, key) == Some(Deleted)
  {
    if entries != [] {
      NotedQueuesNoDeletion(s, local, entries[..|entries| - 1], key);
    }
  }

  /** Deletions this listing is allowed to make. */
  function Accepted(s: State, guard: bool, listing: Listing): set<Key> {
    if listing.complete && !GuardTrips(s, guard, listing) then Deletions(s.index, listing) else {}
  }

  lemma WithDeletionsParts(noted: State, guard: bool, local: map<Key, Object>, listing: Listing, key: Key)
    ensures var t := WithDeletions(noted, guard, local, listing);
      var deletions := Deletions(local, listing);
      && t.identityVerified == noted.identityVerified && t.repos == noted.repos && LocalAt(t, key) == LocalAt(noted, key)
      && Lookup(t.pending, key) == if listing.complete && !MassDeletion(guard, |local|, |deletions|) && key in deletions
                                   then Some(Deleted) else Lookup(noted.pending, key)
  {
    QueuedAt(noted.pending, Deletions(local, listing), key);
  }

  lemma QueuedAt(pending: map<Key, Target>, deletions: set<Key>, key: Key)
    ensures Lookup(Queued(pending, deletions), key) == if key in deletions then Some(Deleted) else Lookup(pending, key)
  {
  }

  function Verified(s: State, listing: Listing): State {
    s.(identityVerified := true, pinned := listing.identity)
  }

  /** A verified reconcile at one key: what the entries noted, under the accepted deletions. */
  lemma ReconciledParts(s: State, guard: bool, listing: Listing, key: Key)
    requires IdentityHolds(s, listing.identity)
    ensures var noted := NotedAll(Verified(s, listing), s.index, listing.entries);
      var t := Reconciled(s, guard, listing);
      && t.identityVerified && t.repos == s.repos && LocalAt(t, key) == LocalAt(noted, key)
      && Lookup(t.pending, key) == if key in Accepted(s, guard, listing) then Some(Deleted) else Lookup(noted.pending, key)
  {
    var verified := Verified(s, listing);
    var noted := NotedAll(verified, s.index, listing.entries);
    NotedKeepsRest(verified, s.index, listing.entries);
    WithDeletionsParts(noted, guard, s.index, listing, key);
  }

  // One pass

  /** The commit a listed key is synced towards: a locked one is left with whatever an earlier frame queued. */
  function Aim(s: State, e: Listed): Option<Object> {
    if Lookup(s.locks, e.key) == Some(e.head) && e.key in s.repos
    then if e.key in s.pending && s.pending[e.key].AtHead? then Some(s.pending[e.key].head) else None
    else Some(e.head)
  }

  /** What decides, before the pass, whether it will bring a listed key to its listed head. */
  predicate WillConverge(s: State, e: Listed) {
    var head := HeadOf(Lookup(s.repos, e.key));
    || head == Some(e.head)
    || (&& Aim(s, e).Some?
        && (head.None? || (Aim(s, e).value !in s.repos[e.key].store && DescendsFrom(e.head, head.value))))
  }

  predicate PassReady(s: State, guard: bool, listing: Listing, answers: map<Key, Answer>) {
    && IdentityHolds(s, listing.identity) && listing.complete && OneEntryEach(listing.entries)
    && NoDeletionQueued(s) && !GuardTrips(s, guard, listing) && QuietMaster(listing, answers)
  }

  /** What a sync towards `aim` leaves, whether the pack brings the answered commit or the store has it. */
  lemma SyncArrivesIff(local: Local, aim: Object, answer: Answer)
    requires Delivers(local.repo, answer)
    ensures var result := Sync(local, AtHead(aim), Some(answer));
      var head := HeadOf(local.repo);
      HeadOf(result.local.repo) == Some(answer.head)
      <==> || head == Some(answer.head) || head.None?
           || (aim !in local.repo.value.store && DescendsFrom(answer.head, head.value))
  {
  }

  /** A listed key ends at its listed head if and only if the rule above says so. */
  lemma ListedConvergesIff(s: State, guard: bool, listing: Listing, answers: map<Key, Answer>, after: State, e: Listed)
    requires IndexMatches(s) && PassReady(s, guard, listing, answers)
    requires Delivered(Reconciled(s, guard, listing), answers)
    requires Drained(Reconciled(s, guard, listing), answers, after)
    requires e in listing.entries && e.valid
    ensures HeadOf(Lookup(after.repos, e.key)) == Some(e.head) <==> WillConverge(s, e)
  {
    ListedTarget(s, guard, listing, e);
    assert Lookup(s.index, e.key) == HeadOf(Lookup(s.repos, e.key));
    TargetArrivesIff(s, Reconciled(s, guard, listing), answers, after, e);
  }

  lemma TargetArrivesIff(s: State, reconciled: State, answers: map<Key, Answer>, after: State, e: Listed)
    requires reconciled.identityVerified && Drained(reconciled, answers, after) && reconciled.repos == s.repos
    requires Lookup(reconciled.pending, e.key) == NotedTarget(s, s.index, e)
    requires Lookup(reconciled.pending, e.key) != Some(Deleted)
    requires Lookup(s.index, e.key) == HeadOf(Lookup(s.repos, e.key))
    requires e.key in answers && answers[e.key].head == e.head && Delivered(reconciled, answers)
    ensures HeadOf(Lookup(after.repos, e.key)) == Some(e.head) <==> WillConverge(s, e)
  {
    DrainArrivesIff(reconciled, answers, after, e.key);
  }

  /** What a verified reconcile leaves queued for a listed key. */
  lemma ListedTarget(s: State, guard: bool, listing: Listing, e: Listed)
    requires IdentityHolds(s, listing.identity) && OneEntryEach(listing.entries) && NoDeletionQueued(s)
    requires e in listing.entries && e.valid
    ensures var t := Reconciled(s, guard, listing);
      && t.identityVerified && t.repos == s.repos
      && Lookup(t.pending, e.key) == NotedTarget(s, s.index, e) && Lookup(t.pending, e.key) != Some(Deleted)
  {
    var verified := Verified(s, listing);
    NotedHere(verified, s.index, listing.entries, e);
    assert e.key !in Accepted(s, guard, listing);
    ReconciledParts(s, guard, listing, e.key);
    NotedQueuesNoDeletion(verified, s.index, listing.entries, e.key);
  }

  /** What a drain brings a key to. */
  lemma DrainArrivesIff(before: State, answers: map<Key, Answer>, after: State, key: Key)
    requires before.identityVerified && Drained(before, answers, after) && Lookup(before.pending, key) != Some(Deleted)
    requires key in answers && Delivered(before, answers)
    ensures var head := HeadOf(Lookup(before.repos, key));
      HeadOf(Lookup(after.repos, key)) == Some(answers[key].head)
      <==> || head == Some(answers[key].head)
           || (key in before.pending
               && (head.None? || (before.pending[key].head !in before.repos[key].store && DescendsFrom(answers[key].head, head.value))))
  {
    assert DrainedAt(before, answers, after, key);
    if key in before.pending {
      SyncArrivesIff(LocalAt(before, key), before.pending[key].head, answers[key]);
    }
  }

  /** A reconcile and the drain after it, no frame in between. */
  ghost predicate Pass(s: State, guard: bool, listing: Listing, answers: map<Key, Answer>, t: State) {
    Drained(Reconciled(s, guard, listing), answers, t)
  }

  lemma SyncKeepsIndex(local: Local, target: Target, answer: Option<Answer>)
    requires local.indexed == HeadOf(local.repo)
    ensures var result := Sync(local, target, answer).local; result.indexed == HeadOf(result.repo)
  {
  }

  /** A pass leaves the index true and, once drained, no deletion queued. */
  lemma PassKeepsIndex(s: State, guard: bool, listing: Listing, answers: map<Key, Answer>, t: State)
    requires IndexMatches(s) && Pass(s, guard, listing, answers, t)
    ensures IndexMatches(t)
    ensures IdentityHolds(s, listing.identity) || NoDeletionQueued(s) ==> NoDeletionQueued(t)
  {
    if IdentityHolds(s, listing.identity) {
      var verified := Verified(s, listing);
      var noted := NotedAll(verified, s.index, listing.entries);
      NotedKeepsIndex(verified, s.index, listing.entries);
      var reconciled := Reconciled(s, guard, listing);
      forall k
        ensures Lookup(t.index, k) == HeadOf(Lookup(t.repos, k)) && (k in t.pending ==> t.pending[k] != Deleted)
      {
        ReconciledParts(s, guard, listing, k);
        assert DrainedAt(reconciled, answers, t, k);
        assert Lookup(noted.index, k) == HeadOf(Lookup(noted.repos, k));
        if k in reconciled.pending {
          SyncKeepsIndex(LocalAt(reconciled, k), reconciled.pending[k], Lookup(answers, k));
        }
      }
    }
  }

  lemma {:induction false} NotedKeepsIndex(s: State, local: map<Key, Object>, entries: seq<Listed>)
    requires IndexMatches(s)
    ensures IndexMatches(NotedAll(s, local, entries))
  {
    if entries != [] {
      var t := NotedAll(s, local, entries[..|entries| - 1]);
      var e := entries[|entries| - 1];
      NotedKeepsIndex(s, local, entries[..|entries| - 1]);
      forall k
        ensures Lookup(Noted(t, local, e).index, k) == HeadOf(Lookup(Noted(t, local, e).repos, k))
      {
        assert Lookup(t.index, k) == HeadOf(Lookup(t.repos, k));
      }
    }
  }

  /** A drain and one key's HEAD: only a queued deletion takes one away, and only an answer can bring one. */
  lemma DrainedHead(before: State, answers: map<Key, Answer>, after: State, key: Key)
    requires before.identityVerified && Drained(before, answers, after)
    ensures HeadOf(Lookup(before.repos, key)).Some? ==>
      (HeadOf(Lookup(after.repos, key)).None? <==> Lookup(before.pending, key) == Some(Deleted))
    ensures HeadOf(Lookup(before.repos, key)).None? && key !in answers ==> HeadOf(Lookup(after.repos, key)).None?
  {
    assert DrainedAt(before, answers, after, key);
    if key in before.pending && HeadOf(Lookup(before.repos, key)).Some? {
      SyncLosesIff(LocalAt(before, key), before.pending[key], Lookup(answers, key));
    }
  }

  lemma SyncLosesIff(local: Local, target: Target, answer: Option<Answer>)
    requires HeadOf(local.repo).Some?
    ensures HeadOf(Sync(local, target, answer).local.repo).None? <==> target.Deleted?
  {
  }

  /** What a complete listing no longer names is gone after one pass, unless the guard refused. */
  lemma UnlistedGone(s: State, guard: bool, listing: Listing, answers: map<Key, Answer>, after: State, key: Key)
    requires IndexMatches(s) && PassReady(s, guard, listing, answers) && Pass(s, guard, listing, answers, after)
    requires key !in RemoteKeys(listing.entries)
    ensures HeadOf(Lookup(after.repos, key)).None?
  {
    ReconciledParts(s, guard, listing, key);
    DrainedHead(Reconciled(s, guard, listing), answers, after, key);
    assert Lookup(s.index, key) == HeadOf(Lookup(s.repos, key));
    assert key in s.index <==> key in Accepted(s, guard, listing);
    assert key !in answers;
  }

  /** One pass, from any state: whatever notifications were lost, repeated or reordered before it, the held
      heads are the listed ones exactly when no listed repository is one of those the rule leaves behind. */
  lemma OnePassConverges(s: State, guard: bool, listing: Listing, answers: map<Key, Answer>, after: State)
    requires IndexMatches(s) && PassReady(s, guard, listing, answers) && Pass(s, guard, listing, answers, after)
    requires Delivered(Reconciled(s, guard, listing), answers)
    ensures (forall e | e in listing.entries && e.valid :: WillConverge(s, e))
       <==> (forall k, h :: HeadOf(Lookup(after.repos, k)) == Some(h) <==> Listed(k, h, true) in listing.entries)
  {
    forall e | e in listing.entries && e.valid
      ensures HeadOf(Lookup(after.repos, e.key)) == Some(e.head) <==> WillConverge(s, e)
    {
      ListedConvergesIff(s, guard, listing, answers, after, e);
    }
    forall k | k !in RemoteKeys(listing.entries)
      ensures HeadOf(Lookup(after.repos, k)).None?
    {
      UnlistedGone(s, guard, listing, answers, after, k);
    }
    if forall e | e in listing.entries && e.valid :: WillConverge(s, e) {
      forall k, h
        ensures HeadOf(Lookup(after.repos, k)) == Some(h) <==> Listed(k, h, true) in listing.entries
      {
        if k in RemoteKeys(listing.entries) {
          var e :| e in listing.entries && e.valid && e.key == k;
          assert e == Listed(k, e.head, true) && WillConverge(s, e);
        }
      }
    } else {
      var e :| e in listing.entries && e.valid && !WillConverge(s, e);
      assert e == Listed(e.key, e.head, true);
    }
  }

  // Locks

  /** An import interrupted between its objects and its ref leaves the repository at an ancestor of a commit it
      already stores. The next pass reads that as a fork, and locks it. */
  lemma InterruptedImportLocks(s: State, guard: bool, listing: Listing, answers: map<Key, Answer>, after: State,
                               e: Listed)
    requires IndexMatches(s) && PassReady(s, guard, listing, answers) && Pass(s, guard, listing, answers, after)
    requires e in listing.entries && e.valid && e.key in s.repos && s.repos[e.key].head.Some?
    requires Lookup(s.locks, e.key) != Some(e.head)
    requires e.head in s.repos[e.key].store && DescendsFrom(e.head, s.repos[e.key].head.value)
    ensures LeftAlone(after, e) && after.repos[e.key] == s.repos[e.key] && Lookup(after.locks, e.key) == Some(e.head)
  {
    ListedTarget(s, guard, listing, e);
    assert Lookup(s.index, e.key) == HeadOf(Lookup(s.repos, e.key));
    StoredTargetLocks(Reconciled(s, guard, listing), answers, after, e);
  }

  lemma StoredTargetLocks(before: State, answers: map<Key, Answer>, after: State, e: Listed)
    requires before.identityVerified && Drained(before, answers, after)
    requires Lookup(before.pending, e.key) == Some(AtHead(e.head))
    requires e.key in before.repos && before.repos[e.key].head.Some?
    requires e.head in before.repos[e.key].store && DescendsFrom(e.head, before.repos[e.key].head.value)
    ensures LeftAlone(after, e) && after.repos[e.key] == before.repos[e.key]
    ensures Lookup(after.locks, e.key) == Some(e.head)
  {
    AncestorSmaller(e.head, before.repos[e.key].head.value);
    assert DrainedAt(before, answers, after, e.key);
    assert LocalAt(after, e.key) == SyncOf(before, answers, e.key).local;
  }

  /** A frame announcing an older commit, delivered late: HEAD stays, but the repository is locked as ahead. */
  lemma LateFrameLocks(s: State, answers: map<Key, Answer>, after: State, key: Key, older: Object)
    requires s.identityVerified && Lookup(s.pending, key) == Some(AtHead(older)) && Drained(s, answers, after)
    requires HeadOf(Lookup(s.repos, key)).Some? && older in s.repos[key].store
    requires DescendsFrom(s.repos[key].head.value, older)
    ensures LocalAt(after, key) == LocalAt(s, key).(lock := Some(older)) && key !in after.pending
  {
    assert DrainedAt(s, answers, after, key);
  }

  /** In step with, or locked against, the head `e` lists, with nothing queued. */
  predicate LeftAlone(s: State, e: Listed) {
    e.key in s.repos && e.key !in s.pending && (Lookup(s.index, e.key) == Some(e.head) || Lookup(s.locks, e.key) == Some(e.head))
  }

  lemma LeftAloneStays(s: State, guard: bool, listing: Listing, answers: map<Key, Answer>, t: State, e: Listed)
    requires LeftAlone(s, e) && Pass(s, guard, listing, answers, t)
    requires OneEntryEach(listing.entries) && e in listing.entries && e.valid
    ensures LeftAlone(t, e) && LocalAt(t, e.key) == LocalAt(s, e.key)
  {
    var reconciled := Reconciled(s, guard, listing);
    if IdentityHolds(s, listing.identity) {
      var verified := Verified(s, listing);
      NotedHere(verified, s.index, listing.entries, e);
      NotedKeepsRest(verified, s.index, listing.entries);
      assert e.key !in Deletions(s.index, listing);
      assert SameAt(s, reconciled, e.key);
      assert DrainedAt(reconciled, answers, t, e.key);
    }
  }

  /** The operator's way out of a lock, removing the local copy: the next pass notices, though the index does not, and
      clones the repository afresh. */
  lemma LockedRemovalReclones(s: State, guard: bool, listing: Listing, answers: map<Key, Answer>, after: State, e: Listed)
    requires PassReady(s, guard, listing, answers) && Pass(s, guard, listing, answers, after)
    requires Delivered(Reconciled(s, guard, listing), answers)
    requires e in listing.entries && e.valid && e.key !in s.repos
    requires Lookup(s.locks, e.key) == Some(e.head) && Lookup(s.index, e.key) != Some(e.head)
    ensures HeadOf(Lookup(after.repos, e.key)) == Some(e.head) && Lookup(after.locks, e.key).None?
  {
    ListedTarget(s, guard, listing, e);
    assert DrainedAt(Reconciled(s, guard, listing), answers, after, e.key);
  }

  /** The same removal of a repository in step goes unnoticed: the index still lists it at the master's head. */
  lemma RemovedInStepStays(s: State, guard: bool, listing: Listing, answers: map<Key, Answer>, after: State, e: Listed)
    requires Pass(s, guard, listing, answers, after) && OneEntryEach(listing.entries)
    requires e in listing.entries && e.valid && e.key !in s.repos && e.key !in s.pending
    requires Lookup(s.index, e.key) == Some(e.head)
    ensures e.key !in after.repos && e.key !in after.pending
  {
    var reconciled := Reconciled(s, guard, listing);
    if IdentityHolds(s, listing.identity) {
      NotedHere(Verified(s, listing), s.index, listing.entries, e);
      ReconciledParts(s, guard, listing, e.key);
      assert DrainedAt(reconciled, answers, after, e.key);
    }
  }

  /** One round of the loop: the listing it got and the packs it was answered with. */
  datatype Round = Round(listing: Listing, answers: map<Key, Answer>)

  ghost predicate IsRun(states: seq<State>, guard: bool, rounds: seq<Round>) {
    && |states| == |rounds| + 1
    && forall i | 0 <= i < |rounds| :: Pass(states[i], guard, rounds[i].listing, rounds[i].answers, states[i + 1])
  }

  /** Polling never lifts a lock, be it raised against the listed head or by a late frame on a repository in step:
      while the master lists the same head, any number of rounds leave the repository, its lock and its place
      outside the queue as they are. */
  lemma {:induction false} StuckUntilMasterMoves(states: seq<State>, guard: bool, rounds: seq<Round>, e: Listed)
    requires IsRun(states, guard, rounds) && LeftAlone(states[0], e) && e.valid
    requires forall r | r in rounds :: OneEntryEach(r.listing.entries) && e in r.listing.entries
    ensures LeftAlone(states[|rounds|], e) && LocalAt(states[|rounds|], e.key) == LocalAt(states[0], e.key)
    decreases |rounds|
  {
    if rounds != [] {
      var n := |rounds| - 1;
      var last := rounds[n];
      assert last in rounds;
      StuckUntilMasterMoves(states[..n + 1], guard, rounds[..n], e);
      LeftAloneStays(states[n], guard, last.listing, last.answers, states[n + 1], e);
    }
  }

  // The deletion guard

  /** A deletion queued earlier and still standing: the listing either omits the key, or shows it as held or as locked. */
  predicate LeftoverStands(s: State, listing: Listing, key: Key) {
    && Lookup(s.pending, key) == Some(Deleted)
    && forall e | e in listing.entries && e.valid && e.key == key :: NotedTarget(s, s.index, e) == Some(Deleted)
  }

  /** What earlier queueing leaves of a key once this listing's entries were noted. */
  lemma LeftoverNoted(s: State, listing: Listing, key: Key)
    requires OneEntryEach(listing.entries)
    ensures Lookup(NotedAll(Verified(s, listing), s.index, listing.entries).pending, key) == Some(Deleted)
       <==> LeftoverStands(s, listing, key)
  {
    var verified := Verified(s, listing);
    if e :| e in listing.entries && e.valid && e.key == key {
      NotedHere(verified, s.index, listing.entries, e);
      assert NotedTarget(verified, s.index, e) == NotedTarget(s, s.index, e);
      assert forall f | f in listing.entries && f.valid && f.key == key :: f == e;
    } else {
      NotedElsewhere(verified, s.index, listing.entries, key);
    }
  }

  /** A held repository is lost in a pass exactly when this listing's accepted deletions name it, or an earlier
      queued deletion was not withdrawn. */
  lemma LostIff(s: State, guard: bool, listing: Listing, answers: map<Key, Answer>, t: State, key: Key)
    requires IndexMatches(s) && IdentityHolds(s, listing.identity) && OneEntryEach(listing.entries)
    requires Pass(s, guard, listing, answers, t) && key in s.index
    ensures key !in t.index <==> key in Accepted(s, guard, listing) || LeftoverStands(s, listing, key)
  {
    PassKeepsIndex(s, guard, listing, answers, t);
    assert Lookup(s.index, key) == HeadOf(Lookup(s.repos, key)) && Lookup(t.index, key) == HeadOf(Lookup(t.repos, key));
    ReconciledParts(s, guard, listing, key);
    LeftoverNoted(s, listing, key);
    DrainedHead(Reconciled(s, guard, listing), answers, t, key);
  }

  lemma SubsetCard(a: set<Key>, b: set<Key>)
    requires a <= b
    ensures |a| <= |b|
  {
    assert b == a + (b - a);
  }

  /** With the guard on and nothing queued before, a pass leaves at least half of two or more. */
  lemma PassLeavesHalf(s: State, listing: Listing, answers: map<Key, Answer>, t: State)
    requires IndexMatches(s) && NoDeletionQueued(s) && OneEntryEach(listing.entries)
    requires Pass(s, true, listing, answers, t) && |s.index| >= 2
    ensures |t.index| * 2 >= |s.index|
  {
    if IdentityHolds(s, listing.identity) {
      var accepted := Accepted(s, true, listing);
      forall key | key in s.index.Keys - accepted
        ensures key in t.index.Keys
      {
        LostIff(s, true, listing, answers, t, key);
      }
      SubsetCard(s.index.Keys - accepted, t.index.Keys);
      assert s.index.Keys == (s.index.Keys - accepted) + accepted;
    }
  }

  function Pow2(n: nat): nat {
    if n == 0 then 1 else 2 * Pow2(n - 1)
  }

  /** A frame that shows another identity between a reconcile and its drain, holding the drain back. */
  function IdentityLost(s: State): State {
    s.(identityVerified := false)
  }

  /** Two repositories held, and two listings that each show one of them. */
  function TwoHeld(first: Object, second: Object): State {
    State(map["c/1" := Repo({first}, Some(first)), "c/2" := Repo({second}, Some(second))],
          map["c/1" := first, "c/2" := second], map[], map[], Some(7), true, false)
  }

  function Showing(key: Key, head: Object): Listing {
    Listing(Some(7), [Listed(key, head, true)], true)
  }

  lemma ShowingOne(s: State, local: map<Key, Object>, key: Key, head: Object)
    requires key in local && local[key] == head
    ensures RemoteKeys([Listed(key, head, true)]) == {key}
    ensures NotedAll(s, local, [Listed(key, head, true)]) == s
  {
    var one := [Listed(key, head, true)];
    assert one[..0] == [] && NotedAll(s, local, one[..0]) == s;
    assert one[0] in one;
  }

  /** The same two once the first listing's deletion is queued and its drain held back. */
  function HeldBack(first: Object, second: Object): State {
    TwoHeld(first, second).(pending := map["c/2" := Deleted], identityVerified := false)
  }

  /** The bound is a pass's own: a drain held back leaves its deletion queued ... */
  lemma HeldBackKeepsDeletion(first: Object, second: Object)
    ensures var s := TwoHeld(first, second);
      && IndexMatches(s) && !GuardTrips(s, true, Showing("c/1", first))
      && IdentityLost(Reconciled(s, true, Showing("c/1", first))) == HeldBack(first, second)
  {
    var s := TwoHeld(first, second);
    ShowingOne(Verified(s, Showing("c/1", first)), s.index, "c/1", first);
    assert s.index.Keys == {"c/1", "c/2"} && Deletions(s.index, Showing("c/1", first)) == {"c/2"};
  }

  /** ... which the next listing does not withdraw: two listings that each delete half delete everything. */
  lemma HeldBackDrainDefeatsGuard(first: Object, second: Object, t: State, key: Key)
    requires Pass(HeldBack(first, second), true, Showing("c/2", second), map[], t)
    ensures !GuardTrips(HeldBack(first, second), true, Showing("c/2", second))
    ensures key !in t.index
  {
    var held, two := HeldBack(first, second), Showing("c/2", second);
    assert held.index.Keys == {"c/1", "c/2"} && RemoteKeys(two.entries) == {"c/2"};
    assert Deletions(held.index, two) == {"c/1"};
    PassKeepsIndex(held, true, two, map[], t);
    if key in held.index {
      LostIff(held, true, two, map[], t, key);
      assert forall e | e in two.entries :: NotedTarget(held, held.index, e) == Some(Deleted);
    } else {
      ReconciledParts(held, true, two, key);
      DrainedHead(Reconciled(held, true, two), map[], t, key);
      assert Lookup(t.index, key) == HeadOf(Lookup(t.repos, key));
    }
  }
}
