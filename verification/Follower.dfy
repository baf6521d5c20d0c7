/** A replica following its master: reconcile against the listing, then drain what is stale. */
module Followers {
  import opened Wrappers
  import opened Objects
  import opened PackImport

  type Key = string

  datatype Target = AtHead(head: Object) | Deleted

  datatype Listed = Listed(key: Key, head: Object, valid: bool)

  datatype Listing = Listing(identity: Option<nat>, entries: seq<Listed>, complete: bool)

  /** What the master answers when asked for a pack: its objects, and the commit it brings one to. */
  datatype Answer = Answer(pack: set<Object>, head: Object)

  /** `locks` holds, per locked repository, the head it was locked against (`Issues`). */
  datatype State = State(
    repos: map<Key, Repo>, index: map<Key, Object>, pending: map<Key, Target>, locks: map<Key, Object>,
    pinned: Option<nat>, identityVerified: bool, deletionRefused: bool)

  function Lookup<V>(m: map<Key, V>, key: Key): Option<V> {
    if key in m then Some(m[key]) else None
  }

  // Reconcile

  /** `check_master_identity`, where a listing may pin. */
  predicate IdentityHolds(s: State, stated: Option<nat>) {
    stated.Some? && (s.pinned.None? || s.pinned == stated)
  }

  /** One listed repository: nothing if in step or locked against that very head, else queued. A lock whose
      repository an operator removed is lifted. */
  function Noted(s: State, local: map<Key, Object>, listed: Listed): State {
    if !listed.valid || Lookup(local, listed.key) == Some(listed.head) then s
    else if Lookup(s.locks, listed.key) == Some(listed.head) && listed.key in s.repos then s
    else
      var lifted := if Lookup(s.locks, listed.key) == Some(listed.head)
                    then s.(locks := s.locks - {listed.key}, index := s.index - {listed.key}) else s;
      lifted.(pending := s.pending[listed.key := AtHead(listed.head)])
  }

  function NotedAll(s: State, local: map<Key, Object>, entries: seq<Listed>): State {
    if entries == [] then s
    else Noted(NotedAll(s, local, entries[..|entries| - 1]), local, entries[|entries| - 1])
  }

  function RemoteKeys(entries: seq<Listed>): set<Key> {
    set e | e in entries && e.valid :: e.key
  }

  const DELETION_GUARD_MINIMUM_HELD: nat := 2

  predicate MassDeletion(guard: bool, held: nat, deletions: nat) {
    guard && held >= DELETION_GUARD_MINIMUM_HELD && deletions * 2 > held
  }

  function Deletions(local: map<Key, Object>, listing: Listing): set<Key> {
    local.Keys - RemoteKeys(listing.entries)
  }

  function Queued(pending: map<Key, Target>, deletions: set<Key>): map<Key, Target> {
    map k | k in pending.Keys + deletions :: if k in deletions then Deleted else pending[k]
  }

  /** Deletions are inferred from a complete listing only, and refused when they are most of what is held. */
  function WithDeletions(s: State, guard: bool, local: map<Key, Object>, listing: Listing): State {
    var deletions := Deletions(local, listing);
    if !listing.complete then s
    else if MassDeletion(guard, |local|, |deletions|) then s.(deletionRefused := true)
    else s.(deletionRefused := false, pending := Queued(s.pending, deletions))
  }

  function Reconciled(s: State, guard: bool, listing: Listing): State {
    if !IdentityHolds(s, listing.identity) then s.(identityVerified := false)
    else
      var verified := s.(identityVerified := true, pinned := listing.identity);
      WithDeletions(NotedAll(verified, s.index, listing.entries), guard, s.index, listing)
  }

  // Drain

  /** What a replica holds of one key: its repository, the index's entry and a lock. */
  datatype Local = Local(repo: Option<Repo>, indexed: Option<Object>, lock: Option<Object>)

  function LocalAt(s: State, key: Key): Local {
    Local(Lookup(s.repos, key), Lookup(s.index, key), Lookup(s.locks, key))
  }

  datatype SyncOutcome = Synced | Locked | Failed

  datatype SyncResult = SyncResult(local: Local, outcome: SyncOutcome)

  /** `fetch_and_apply` past the local check: import the packfile and see. A fresh clone that fails is discarded. */
  function Imported(local: Local, answer: Answer): SyncResult {
    var stored := if local.repo.Some? then local.repo.value.(store := local.repo.value.store + answer.pack)
                  else Repo(answer.pack, None);
    match Judge(stored, answer.head)
    case FastForwarded(_, to) => SyncResult(Local(Some(RefMoved(stored, to)), Some(to), None), Synced)
    case UpToDate => SyncResult(local.(repo := Some(stored), lock := None), Synced)
    case Ahead(_, remote) => SyncResult(local.(repo := Some(stored), lock := Some(remote)), Locked)
    case Diverged(_, remote) => SyncResult(local.(repo := Some(stored), lock := Some(remote)), Locked)
    case _ => SyncResult(if local.repo.Some? then local.(repo := Some(stored)) else local, Failed)
  }

  /** `sync_repository`. */
  function Sync(local: Local, target: Target, answer: Option<Answer>): SyncResult {
    match target
    case Deleted => SyncResult(if local.repo.None? then local else local.(repo := None, indexed := None), Synced)
    case AtHead(head) =>
      match RelationTo(local.repo, head)
      case SameHead => SyncResult(local.(lock := None), Synced)
      case AheadOf(_) => SyncResult(local.(lock := Some(head)), Locked)
      case DivergedFrom(_) => SyncResult(local.(lock := Some(head)), Locked)
      case Unknown => if answer.None? then SyncResult(local, Failed) else Imported(local, answer.value)
  }

  function SyncOf(s: State, answers: map<Key, Answer>, key: Key): SyncResult
    requires key in s.pending
  {
    Sync(LocalAt(s, key), s.pending[key], Lookup(answers, key))
  }

  function Put<V>(m: map<Key, V>, key: Key, value: Option<V>): map<Key, V> {
    if value.Some? then m[key := value.value] else m - {key}
  }

  /** The whole state after one repository's sync: its own entries, and nobody else's. */
  function SyncedKey(s: State, answers: map<Key, Answer>, key: Key): State
    requires key in s.pending
  {
    var result := SyncOf(s, answers, key);
    s.(repos := Put(s.repos, key, result.local.repo),
       index := Put(s.index, key, result.local.indexed),
       locks := Put(s.locks, key, result.local.lock),
       pending := if result.outcome.Failed? then s.pending else s.pending - {key})
  }

  predicate SameAt(s: State, t: State, key: Key) {
    LocalAt(s, key) == LocalAt(t, key) && Lookup(s.pending, key) == Lookup(t.pending, key)
  }

  /** What a drain leaves at one key, its sync standing alone; a failed target stays queued. */
  predicate DrainedAt(before: State, answers: map<Key, Answer>, after: State, key: Key) {
    if key in before.pending then
      var result := SyncOf(before, answers, key);
      && LocalAt(after, key) == result.local
      && Lookup(after.pending, key) == if result.outcome.Failed? then Some(before.pending[key]) else None
    else SameAt(before, after, key)
  }

  predicate SameFlags(s: State, t: State) {
    s.pinned == t.pinned && s.identityVerified == t.identityVerified && s.deletionRefused == t.deletionRefused
  }

  /** A whole drain, in whatever order the map yields its keys. */
  ghost predicate Drained(before: State, answers: map<Key, Answer>, after: State) {
    if before.identityVerified then SameFlags(before, after) && forall k :: DrainedAt(before, answers, after, k)
    else after == before
  }

  /** A drain with `left` still to do. */
  ghost predicate Draining(before: State, answers: map<Key, Answer>, now: State, left: set<Key>) {
    && SameFlags(before, now) && left <= before.pending.Keys
    && forall k :: if k in left then SameAt(before, now, k) else DrainedAt(before, answers, now, k)
  }

  lemma DrainingKept(before: State, answers: map<Key, Answer>, now: State, left: set<Key>, key: Key)
    requires Draining(before, answers, now, left) && key in left
    ensures key in now.pending && SyncOf(now, answers, key) == SyncOf(before, answers, key)
    ensures Draining(before, answers, SyncedKey(now, answers, key), left - {key})
  {
    assert SameAt(before, now, key);
    var next := SyncedKey(now, answers, key);
    forall k
      ensures if k in left - {key} then SameAt(before, next, k) else DrainedAt(before, answers, next, k)
    {
      assert if k in left then SameAt(before, now, k) else DrainedAt(before, answers, now, k);
      assert k != key ==> SameAt(now, next, k);
    }
  }

  datatype SyncPass = SyncPass(attempted: nat, succeeded: nat, locked: nat)

  /** The queued keys whose sync ends so. */
  function EndingIn(s: State, answers: map<Key, Answer>, outcome: SyncOutcome): set<Key> {
    set k | k in s.pending && SyncOf(s, answers, k).outcome == outcome
  }

  /** What a drain of `s` reports; an unverified master is not pulled from. */
  function PassOf(s: State, answers: map<Key, Answer>): SyncPass {
    if s.identityVerified
    then SyncPass(|s.pending|, |EndingIn(s, answers, Synced)|, |EndingIn(s, answers, Locked)|)
    else SyncPass(0, 0, 0)
  }

  /** The counts of a drain with `left` still to do. */
  predicate Counted(before: State, answers: map<Key, Answer>, left: set<Key>, pass: SyncPass) {
    && left <= before.pending.Keys && pass.attempted + |left| == |before.pending|
    && pass.succeeded == |EndingIn(before, answers, Synced) - left|
    && pass.locked == |EndingIn(before, answers, Locked) - left|
  }

  function Tallied(pass: SyncPass, outcome: SyncOutcome): SyncPass {
    SyncPass(pass.attempted + 1, pass.succeeded + if outcome.Synced? then 1 else 0, pass.locked + if outcome.Locked? then 1 else 0)
  }

  lemma CountedStarts(before: State, answers: map<Key, Answer>)
    ensures Counted(before, answers, before.pending.Keys, SyncPass(0, 0, 0))
  {
    assert EndingIn(before, answers, Synced) - before.pending.Keys == {};
    assert EndingIn(before, answers, Locked) - before.pending.Keys == {};
  }

  lemma CountedStep(before: State, answers: map<Key, Answer>, left: set<Key>, pass: SyncPass, key: Key)
    requires Counted(before, answers, left, pass) && key in left
    ensures Counted(before, answers, left - {key}, Tallied(pass, SyncOf(before, answers, key).outcome))
  {
    OneKeyDone(EndingIn(before, answers, Synced), left, key);
    OneKeyDone(EndingIn(before, answers, Locked), left, key);
  }

  lemma OneKeyDone(ending: set<Key>, left: set<Key>, key: Key)
    requires key in left
    ensures |ending - (left - {key})| == |ending - left| + if key in ending then 1 else 0
  {
    assert ending - (left - {key}) == if key in ending then (ending - left) + {key} else ending - left;
  }

  /** A pass counts no key twice. */
  lemma PassBounded(s: State, answers: map<Key, Answer>)
    ensures var pass := PassOf(s, answers); pass.succeeded + pass.locked <= pass.attempted
  {
    PartsBounded(EndingIn(s, answers, Synced), EndingIn(s, answers, Locked), s.pending.Keys);
  }

  lemma PartsBounded(part: set<Key>, other: set<Key>, whole: set<Key>)
    requires part !! other && part <= whole && other <= whole
    ensures |part| + |other| <= |whole|
  {
    assert |part + other| == |part| + |other|;
    assert whole == (part + other) + (whole - (part + other));
  }

  lemma CountedEnds(before: State, answers: map<Key, Answer>, pass: SyncPass)
    requires Counted(before, answers, {}, pass) && before.identityVerified
    ensures pass == PassOf(before, answers)
  {
    assert EndingIn(before, answers, Synced) - {} == EndingIn(before, answers, Synced);
    assert EndingIn(before, answers, Locked) - {} == EndingIn(before, answers, Locked);
  }

  class ReplicaFollower {
    const deletionGuard: bool
    var repos: map<Key, Repo>
    var index: map<Key, Object>
    var pending: map<Key, Target>
    var locks: map<Key, Object>
    var pinned: Option<nat>
    var identityVerified: bool
    var deletionRefused: bool

    constructor (deletionGuard: bool, held: State)
      ensures this.deletionGuard == deletionGuard && Current() == held
    {
      this.deletionGuard := deletionGuard;
      repos, index, pending, locks := held.repos, held.index, held.pending, held.locks;
      pinned, identityVerified, deletionRefused := held.pinned, held.identityVerified, held.deletionRefused;
    }

    function Current(): State
      reads this
    {
      State(repos, index, pending, locks, pinned, identityVerified, deletionRefused)
    }

    /** `reconcile`, once the listing is in hand. */
    method Reconcile(listing: Listing) returns (ok: bool)
      modifies this
      ensures ok == IdentityHolds(old(Current()), listing.identity)
      ensures Current() == Reconciled(old(Current()), deletionGuard, listing)
    {
      if !(listing.identity.Some? && (pinned.None? || pinned == listing.identity)) {
        identityVerified := false;
        return false;
      }
      identityVerified := true;
      pinned := listing.identity;
      ghost var verified := Current();
      var local := index;
      var remoteKeys: set<Key> := {};
      for i := 0 to |listing.entries|
        invariant Current() == NotedAll(verified, local, listing.entries[..i])
        invariant remoteKeys == RemoteKeys(listing.entries[..i])
      {
        var listed := listing.entries[i];
        assert listing.entries[..i + 1][..i] == listing.entries[..i];
        if !listed.valid {
          continue;
        }
        remoteKeys := remoteKeys + {listed.key};
        if Lookup(local, listed.key) == Some(listed.head) {
          continue;
        }
        if Lookup(locks, listed.key) == Some(listed.head) {
          if listed.key in repos {
            continue;
          }
          locks := locks - {listed.key};
          index := index - {listed.key};
        }
        pending := pending[listed.key := AtHead(listed.head)];
      }
      assert listing.entries[..|listing.entries|] == listing.entries;
      if listing.complete {
        QueueDeletions(local, local.Keys - remoteKeys);
      }
      return true;
    }

    /** The guard, and the deletions it lets through. */
    method QueueDeletions(local: map<Key, Object>, deletions: set<Key>)
      modifies this`pending, this`deletionRefused
      ensures Current() == if MassDeletion(deletionGuard, |local|, |deletions|)
                           then old(Current()).(deletionRefused := true)
                           else old(Current()).(deletionRefused := false, pending := Queued(old(pending), deletions))
    {
      if deletionGuard && |local| >= DELETION_GUARD_MINIMUM_HELD && |deletions| * 2 > |local| {
        deletionRefused := true;
      } else {
        deletionRefused := false;
        pending := Queued(pending, deletions);
      }
    }

    /** `sync_repository` for one target, already taken out of the queue by its drain. */
    method SyncRepository(key: Key, answers: map<Key, Answer>) returns (outcome: SyncOutcome)
      requires key in pending
      modifies this
      ensures outcome == SyncOf(old(Current()), answers, key).outcome
      ensures Current() == SyncedKey(old(Current()), answers, key)
    {
      var target := pending[key];
      var result := Sync(LocalAt(Current(), key), target, Lookup(answers, key));
      pending := pending - {key};
      repos := Put(repos, key, result.local.repo);
      index := Put(index, key, result.local.indexed);
      locks := Put(locks, key, result.local.lock);
      if result.outcome.Failed? {
        pending := pending[key := target];
      }
      assert pending == SyncedKey(old(Current()), answers, key).pending;
      return result.outcome;
    }

    /** One target of a drain: it ends as it would have ended first, and is counted so. */
    method SyncNext(key: Key, answers: map<Key, Answer>, pass: SyncPass, ghost before: State, ghost left: set<Key>)
      returns (tally: SyncPass)
      requires Draining(before, answers, Current(), left) && Counted(before, answers, left, pass) && key in left
      modifies this
      ensures Draining(before, answers, Current(), left - {key}) && Counted(before, answers, left - {key}, tally)
      ensures |pending| + tally.succeeded + tally.locked == |old(pending)| + pass.succeeded + pass.locked
    {
      DrainingKept(before, answers, Current(), left, key);
      CountedStep(before, answers, left, pass, key);
      var outcome := SyncRepository(key, answers);
      tally := Tallied(pass, outcome);
    }

    /** `drain_pending`: every target synced on its own, in whatever order; a failed one queues itself again. */
    method DrainPending(answers: map<Key, Answer>) returns (pass: SyncPass)
      modifies this
      ensures Drained(old(Current()), answers, Current())
      ensures pass == PassOf(old(Current()), answers)
      ensures pass.succeeded + pass.locked <= pass.attempted
      ensures |pending| == |old(pending)| - pass.succeeded - pass.locked
    {
      pass := SyncPass(0, 0, 0);
      if !identityVerified {
        return;
      }
      ghost var before := Current();
      var left := pending.Keys;
      CountedStarts(before, answers);
      while left != {}
        invariant Draining(before, answers, Current(), left) && Counted(before, answers, left, pass)
        invariant |pending| == |before.pending| - pass.succeeded - pass.locked
        decreases left
      {
        var key :| key in left;
        pass := SyncNext(key, answers, pass, before, left);
        left := left - {key};
      }
      CountedEnds(before, answers, pass);
      PassBounded(before, answers);
      assert forall k :: DrainedAt(before, answers, Current(), k);
    }
  }
}
