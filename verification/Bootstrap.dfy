/** What an open gate promises: the loop's turns laid over the replica's life. */
module Bootstraps {
  import opened Wrappers
  import opened Objects
  import PackImport
  import opened Followers
  import opened Convergence
  import opened ReplicaRuns
  import opened Workers

  /** The process ends. */
  predicate Interrupts(e: Event) {
    e.CrashInImport? || e.RestartAgain?
  }

  predicate Uncut(events: seq<Event>, from: nat, to: nat)
    requires to <= |events|
  {
    forall n | from <= n < to :: !Interrupts(events[n])
  }

  // Leaving the queue

  /** A drain that takes the key's target, and does not fail. */
  predicate SettledIn(s: State, e: Event, key: Key) {
    && e.DrainWith? && s.identityVerified && key in s.pending
    && !SyncOf(s, e.answers, key).outcome.Failed?
  }

  lemma {:induction false} NotedKeepsQueued(s: State, local: map<Key, Object>, entries: seq<Listed>, key: Key)
    requires key in s.pending
    ensures key in NotedAll(s, local, entries).pending
  {
    if entries != [] {
      NotedKeepsQueued(s, local, entries[..|entries| - 1], key);
    }
  }

  /** Short of the process ending, nothing but being synced or locked takes a key out of the queue. */
  lemma OnlySettlingDequeues(s: State, guard: bool, e: Event, t: State, key: Key)
    requires Next(s, guard, e, t) && !Interrupts(e) && key in s.pending && key !in t.pending
    ensures SettledIn(s, e, key)
  {
    match e {
      case ReconcileWith(listing) =>
        if IdentityHolds(s, listing.identity) {
          ReconciledParts(s, guard, listing, key);
          NotedKeepsQueued(Verified(s, listing), s.index, listing.entries, key);
        }
      case DrainWith(answers) =>
        if s.identityVerified { assert DrainedAt(s, answers, t, key); }
      case _ =>
    }
  }

  lemma {:induction false} LastQueued(states: seq<State>, from: nat, until: nat, key: Key) returns (n: nat)
    requires from <= until < |states| && key in states[from].pending && key !in states[until].pending
    ensures from <= n < until && key in states[n].pending && key !in states[n + 1].pending
    decreases until
  {
    if key in states[until - 1].pending {
      n := until - 1;
    } else {
      n := LastQueued(states, from, until - 1, key);
    }
  }

  /** A key queued at one moment and not at a later one was synced or locked by a drain in between, whatever frames,
      hellos and further reconciles came with it. */
  lemma LeavesQueueSettled(states: seq<State>, guard: bool, events: seq<Event>, from: nat, to: nat, key: Key)
    requires IsLife(states, guard, events) && from <= to <= |events| && Uncut(events, from, to)
    requires key in states[from].pending && key !in states[to].pending
    ensures exists n | from <= n < to :: SettledIn(states[n], events[n], key)
  {
    var n := LastQueued(states, from, to, key);
    OnlySettlingDequeues(states[n], guard, events[n], states[n + 1], key);
  }

  // What a listing asks for

  predicate Holds(s: State, e: Event) {
    e.ReconcileWith? && IdentityHolds(s, e.listing.identity)
  }

  /** Between two moments a later listing, let through by the guard, left the key out. */
  ghost predicate CondemnedWithin(states: seq<State>, guard: bool, events: seq<Event>, from: nat, to: nat, key: Key)
    requires to <= |events| && |states| == |events| + 1
  {
    exists m | from <= m < to :: Condemns(states[m], guard, events[m], key)
  }

  /** The entry's target was synced or locked at `n`; had it become a deletion by then, a later listing dropped the key. */
  ghost predicate SettledAfter(states: seq<State>, guard: bool, events: seq<Event>, j: nat, n: nat, key: Key)
    requires j < n < |events| && |states| == |events| + 1
  {
    && SettledIn(states[n], events[n], key)
    && (states[n].pending[key] == Deleted ==> CondemnedWithin(states, guard, events, j + 1, n, key))
  }

  /** What became of an entry of the listing at `j` by `b`: it was in step, or locked at that head with its copy there, or
      has been settled since. */
  ghost predicate SeenTo(states: seq<State>, guard: bool, events: seq<Event>, j: nat, b: nat, e: Listed)
    requires j < b <= |events| && |states| == |events| + 1
  {
    || Lookup(states[j].index, e.key) == Some(e.head)
    || (Lookup(states[j].locks, e.key) == Some(e.head) && e.key in states[j].repos)
    || exists n | j < n < b :: SettledAfter(states, guard, events, j, n, e.key)
  }

  /** A holding listing queues every entry that is neither in step nor locked at that head with its copy there. */
  lemma ListedQueued(s: State, guard: bool, e: Event, t: State, listed: Listed)
    requires Next(s, guard, e, t) && Holds(s, e) && OneEntryEach(e.listing.entries)
    requires listed in e.listing.entries && listed.valid
    ensures !Condemns(s, guard, e, listed.key)
    ensures || Lookup(s.index, listed.key) == Some(listed.head)
            || (Lookup(s.locks, listed.key) == Some(listed.head) && listed.key in s.repos)
            || Lookup(t.pending, listed.key) == Some(AtHead(listed.head))
  {
    NotedHere(Verified(s, e.listing), s.index, e.listing.entries, listed);
    ReconciledParts(s, guard, e.listing, listed.key);
  }

  /** Once a listed key is out of the queue, the listing that named it has been seen to. */
  lemma ListedSeenTo(states: seq<State>, guard: bool, events: seq<Event>, j: nat, b: nat, e: Listed)
    requires IsLife(states, guard, events) && j < b <= |events| && Uncut(events, j, b)
    requires Holds(states[j], events[j]) && OneEntryEach(events[j].listing.entries)
    requires e in events[j].listing.entries && e.valid && e.key !in states[b].pending
    ensures SeenTo(states, guard, events, j, b, e)
  {
    ListedQueued(states[j], guard, events[j], states[j + 1], e);
    if Lookup(states[j + 1].pending, e.key) == Some(AtHead(e.head)) {
      LeavesQueueSettled(states, guard, events, j + 1, b, e.key);
      var n :| j + 1 <= n < b && SettledIn(states[n], events[n], e.key);
      if states[n].pending[e.key] == Deleted {
        DeletionQueuedByListing(states, guard, events, j + 1, n, e.key);
      }
      assert SettledAfter(states, guard, events, j, n, e.key);
    }
  }

  // What that leaves on disk

  /** A copy is never visible without a HEAD. */
  predicate Headed(s: State) {
    forall k | k in s.repos :: s.repos[k].head.Some?
  }

  lemma SyncHeaded(local: Local, target: Target, answer: Option<Answer>)
    requires local.repo.Some? ==> local.repo.value.head.Some?
    ensures var result := Sync(local, target, answer);
      && (result.local.repo.Some? ==> result.local.repo.value.head.Some?)
      && (target.AtHead? && !result.outcome.Failed? ==> result.local.repo.Some?)
  {
  }

  lemma ReconcileHeaded(s: State, guard: bool, listing: Listing)
    requires Headed(s)
    ensures Headed(Reconciled(s, guard, listing))
  {
    if IdentityHolds(s, listing.identity) {
      NotedKeepsRest(Verified(s, listing), s.index, listing.entries);
    }
  }

  lemma NextHeaded(s: State, guard: bool, e: Event, t: State)
    requires Headed(s) && Next(s, guard, e, t)
    ensures Headed(t)
  {
    match e {
      case ReconcileWith(listing) => ReconcileHeaded(s, guard, listing);
      case DrainWith(answers) =>
        if s.identityVerified { DrainHeaded(s, answers, t); }
      case _ =>
    }
  }

  lemma DrainHeaded(s: State, answers: map<Key, Answer>, t: State)
    requires Headed(s) && s.identityVerified && Drained(s, answers, t)
    ensures Headed(t)
  {
    forall k | k in t.repos
      ensures t.repos[k].head.Some?
    {
      assert DrainedAt(s, answers, t, k);
      if k in s.pending { SyncHeaded(LocalAt(s, k), s.pending[k], Lookup(answers, k)); }
    }
  }

  lemma {:induction false} EveryLifeIsHeaded(states: seq<State>, guard: bool, events: seq<Event>, i: nat)
    requires IsLife(states, guard, events) && i < |states|
    ensures Headed(states[i])
  {
    if i > 0 {
      EveryLifeIsHeaded(states, guard, events, i - 1);
      NextHeaded(states[i - 1], guard, events[i - 1], states[i]);
    }
  }

  predicate Serves(s: State, key: Key) {
    PackImport.HeadOf(Lookup(s.repos, key)).Some?
  }

  lemma {:induction false} LastServed(states: seq<State>, from: nat, until: nat, key: Key) returns (n: nat)
    requires from <= until < |states| && Serves(states[from], key) && !Serves(states[until], key)
    ensures from <= n < until && Serves(states[n], key) && !Serves(states[n + 1], key)
    decreases until
  {
    if Serves(states[until - 1], key) {
      n := until - 1;
    } else {
      n := LastServed(states, from, until - 1, key);
    }
  }

  /** A copy held with no deletion against it is still held later on, unless a listing in between left it out. */
  lemma ServedUnlessCondemned(states: seq<State>, guard: bool, events: seq<Event>, from: nat, to: nat, key: Key)
    requires IsLife(states, guard, events) && from <= to <= |events|
    requires Serves(states[from], key) && Lookup(states[from].pending, key) != Some(Deleted)
    ensures Serves(states[to], key) || CondemnedWithin(states, guard, events, from, to, key)
  {
    if !Serves(states[to], key) {
      var n := LastServed(states, from, to, key);
      GoneByDrain(states, guard, events, n, key);
      DeletionQueuedByListing(states, guard, events, from, n, key);
    }
  }

  /** A settled commit leaves the key held and out of the queue. */
  lemma SettledServes(states: seq<State>, guard: bool, events: seq<Event>, n: nat, key: Key)
    requires IsLife(states, guard, events) && n < |events|
    requires SettledIn(states[n], events[n], key) && states[n].pending[key] != Deleted
    ensures Serves(states[n + 1], key) && key !in states[n + 1].pending
  {
    EveryLifeIsHeaded(states, guard, events, n);
    var s := states[n];
    assert DrainedAt(s, events[n].answers, states[n + 1], key);
    SyncHeaded(LocalAt(s, key), s.pending[key], Lookup(events[n].answers, key));
  }

  /** An entry seen to is held at `b`, unless a later listing left its key out, or a deletion was queued for it already
      when its listing came. */
  lemma SeenToServed(states: seq<State>, guard: bool, events: seq<Event>, j: nat, b: nat, e: Listed)
    requires IsLife(states, guard, events) && j < b <= |events| && SeenTo(states, guard, events, j, b, e)
    requires !Condemns(states[j], guard, events[j], e.key)
    ensures || Serves(states[b], e.key) || CondemnedWithin(states, guard, events, j + 1, b, e.key)
            || Lookup(states[j].pending, e.key) == Some(Deleted)
  {
    if n :| j < n < b && SettledAfter(states, guard, events, j, n, e.key) {
      if states[n].pending[e.key] == Deleted {
        var m :| j + 1 <= m < n && Condemns(states[m], guard, events[m], e.key);
      } else {
        SettledServes(states, guard, events, n, e.key);
        ServedUnlessCondemned(states, guard, events, n + 1, b, e.key);
      }
    } else {
      HeldAtListing(states, guard, events, j, e);
      if Lookup(states[j].pending, e.key) != Some(Deleted) {
        ServedUnlessCondemned(states, guard, events, j, b, e.key);
        if m :| j <= m < b && Condemns(states[m], guard, events[m], e.key) {
          assert m != j;
        }
      }
    }
  }

  lemma HeldAtListing(states: seq<State>, guard: bool, events: seq<Event>, j: nat, e: Listed)
    requires IsLife(states, guard, events) && j < |states|
    requires || Lookup(states[j].index, e.key) == Some(e.head)
             || (Lookup(states[j].locks, e.key) == Some(e.head) && e.key in states[j].repos)
    ensures Serves(states[j], e.key)
  {
    EveryLifeIsSound(states, guard, events, j);
    EveryLifeIsHeaded(states, guard, events, j);
    assert Lookup(states[j].index, e.key) == PackImport.HeadOf(Lookup(states[j].repos, e.key));
  }

  // The gate over a life

  /** The one drain of a turn, and what it reported. */
  ghost predicate DrainsAt(states: seq<State>, events: seq<Event>, from: nat, to: nat, d: nat, pass: SyncPass)
    requires from <= d < to <= |events| && |states| == |events| + 1
  {
    && events[d].DrainWith? && pass == PassOf(states[d], events[d].answers)
    && forall n | from <= n < to && events[n].DrainWith? :: n == d
  }

  /** One turn of the loop, from event `from` up to the moment `to` at which the gate looks at the queue. Frames and
      hellos may come at any point of it. */
  ghost predicate IsTurn(states: seq<State>, events: seq<Event>, from: nat, to: nat, turn: Turn)
    requires from <= to <= |events| && |states| == |events| + 1
  {
    && (turn.reconcile == Some(true) <==> exists j | from <= j < to :: Holds(states[j], events[j]))
    && (exists d | from <= d < to :: DrainsAt(states, events, from, to, d, turn.pass))
    && turn.pendingLeft == |states[to].pending|
  }

  /** A turn with nothing in between: the reconcile, if one was due and its listing came, and the drain. */
  function TurnEvents(requested: bool, listing: Option<Listing>, answers: map<Key, Answer>): seq<Event> {
    (if requested && listing.Some? then [ReconcileWith(listing.value)] else []) + [DrainWith(answers)]
  }

  function TurnStates(s: State, guard: bool, requested: bool, listing: Option<Listing>, t: State): seq<State> {
    (if requested && listing.Some? then [s] else []) + [Begun(s, guard, requested, listing), t]
  }

  /** What `TurnOnce` promises of its turn is what a turn of a life is. */
  lemma WorkerTurnIsTurn(s: State, guard: bool, requested: bool, listing: Option<Listing>, answers: map<Key, Answer>,
                         t: State, turn: Turn)
    requires turn.reconcile == ReconcileOutcome(s, requested, listing)
    requires turn.pass == PassOf(Begun(s, guard, requested, listing), answers) && turn.pendingLeft == |t.pending|
    ensures var states, events := TurnStates(s, guard, requested, listing, t), TurnEvents(requested, listing, answers);
      |states| == |events| + 1 && IsTurn(states, events, 0, |events|, turn)
  {
    var states, events := TurnStates(s, guard, requested, listing, t), TurnEvents(requested, listing, answers);
    assert DrainsAt(states, events, 0, |events|, |events| - 1, turn.pass);
    if requested && listing.Some? {
      assert events[0] == ReconcileWith(listing.value) && states[0] == s;
    }
  }

  /** The turns of one process, the i-th of them between two of its `marks`. */
  ghost predicate AreTurns(states: seq<State>, events: seq<Event>, marks: seq<nat>, turns: seq<Turn>)
    requires |states| == |events| + 1
  {
    && |marks| == |turns| + 1 && marks[|turns|] <= |events|
    && (forall i, k | 0 <= i < k < |marks| :: marks[i] <= marks[k])
    && Uncut(events, marks[0], marks[|turns|])
    && forall i | 0 <= i < |turns| :: IsTurn(states, events, marks[i], marks[i + 1], turns[i])
  }

  /** Every listing that held since `from` has been seen to by `b`, and what it named is held, but for what a later
      listing left out or an earlier one had left queued for deletion. */
  ghost predicate AllServed(states: seq<State>, guard: bool, events: seq<Event>, from: nat, b: nat)
    requires b <= |events| && |states| == |events| + 1
  {
    && (exists j | from <= j < b :: Holds(states[j], events[j]))
    && forall j | from <= j < b && Holds(states[j], events[j]) :: ListingServed(states, guard, events, j, b)
  }

  ghost predicate ListingServed(states: seq<State>, guard: bool, events: seq<Event>, j: nat, b: nat)
    requires j < b <= |events| && |states| == |events| + 1 && events[j].ReconcileWith?
  {
    forall e | e in events[j].listing.entries && e.valid ::
      && SeenTo(states, guard, events, j, b, e)
      && (|| Serves(states[b], e.key) || CondemnedWithin(states, guard, events, j + 1, b, e.key)
          || Lookup(states[j].pending, e.key) == Some(Deleted))
  }

  /** Two failed drains in a row, after some drain since `from` had landed something. */
  ghost predicate StalledAt(states: seq<State>, events: seq<Event>, from: nat, b: nat, turns: seq<Turn>, i: nat)
    requires i < |turns| && b <= |events| && |states| == |events| + 1
  {
    && i > 0 && DrainFailed(turns[i].pass) && DrainFailed(turns[i - 1].pass)
    && exists d, k | from <= d < b && events[d].DrainWith? :: LandsAt(states[d], events[d], k)
  }

  predicate LandsAt(s: State, e: Event, key: Key)
    requires e.DrainWith?
  {
    s.identityVerified && key in EndingIn(s, e.answers, Synced)
  }

  /** An empty queue means that every listing that held by then has been seen to. */
  lemma EmptyQueueServes(states: seq<State>, guard: bool, events: seq<Event>, from: nat, b: nat)
    requires IsLife(states, guard, events) && from <= b <= |events| && Uncut(events, from, b)
    requires forall n | from <= n < b && Holds(states[n], events[n]) :: OneEntryEach(events[n].listing.entries)
    requires states[b].pending == map[]
    ensures forall j | from <= j < b && Holds(states[j], events[j]) :: ListingServed(states, guard, events, j, b)
  {
    forall j, e | from <= j < b && Holds(states[j], events[j]) && e in events[j].listing.entries && e.valid
      ensures SeenTo(states, guard, events, j, b, e)
      ensures || Serves(states[b], e.key) || CondemnedWithin(states, guard, events, j + 1, b, e.key)
              || Lookup(states[j].pending, e.key) == Some(Deleted)
    {
      ListedSeenTo(states, guard, events, j, b, e);
      ListedQueued(states[j], guard, events[j], states[j + 1], e);
      SeenToServed(states, guard, events, j, b, e);
    }
  }

  /** What was landed by turn `i` was landed by some drain of theirs. */
  lemma {:induction false} LandedByDrain(states: seq<State>, events: seq<Event>, marks: seq<nat>, turns: seq<Turn>, i: nat)
    requires |states| == |events| + 1 && AreTurns(states, events, marks, turns) && i <= |turns|
    requires Workers.Landed(turns[..i]) > 0
    ensures exists d, k | marks[0] <= d < marks[i] && events[d].DrainWith? :: LandsAt(states[d], events[d], k)
  {
    assert turns[..i][..i - 1] == turns[..i - 1];
    if turns[i - 1].pass.succeeded > 0 {
      assert IsTurn(states, events, marks[i - 1], marks[i], turns[i - 1]);
      var d :| marks[i - 1] <= d < marks[i] && DrainsAt(states, events, marks[i - 1], marks[i], d, turns[i - 1].pass);
      var synced := EndingIn(states[d], events[d].answers, Synced);
      assert synced != {};
      var k :| k in synced;
      assert LandsAt(states[d], events[d], k);
    } else {
      LandedByDrain(states, events, marks, turns, i - 1);
    }
  }

  /** A turn at or after a successful reconcile has a listing that held behind it. */
  lemma ReconciledHeld(states: seq<State>, events: seq<Event>, marks: seq<nat>, turns: seq<Turn>, i: nat)
    requires |states| == |events| + 1 && AreTurns(states, events, marks, turns) && i < |turns| && ReconciledBy(turns, i)
    ensures exists j | marks[0] <= j < marks[i + 1] :: Holds(states[j], events[j])
  {
    var k :| 0 <= k < |turns| && k <= i && turns[k].reconcile == Some(true);
    assert IsTurn(states, events, marks[k], marks[k + 1], turns[k]);
    var j :| marks[k] <= j < marks[k + 1] && Holds(states[j], events[j]);
    assert marks[0] <= j < marks[i + 1];
  }

  /** What lets a cold node open at turn `i`: some listing held by then, and either everything each such listing named was
      synced or locked and is held, but for what was dropped since, or the catch-up stalled after landing something. */
  ghost predicate MayOpenAt(states: seq<State>, guard: bool, events: seq<Event>, marks: seq<nat>, turns: seq<Turn>, i: nat)
    requires |states| == |events| + 1 && AreTurns(states, events, marks, turns) && i < |turns|
  {
    var from, b := marks[0], marks[i + 1];
    && (exists j | from <= j < b :: Holds(states[j], events[j]))
    && (AllServed(states, guard, events, from, b) || StalledAt(states, events, from, b, turns, i))
  }

  lemma CaughtUpServes(states: seq<State>, guard: bool, events: seq<Event>, marks: seq<nat>, turns: seq<Turn>, i: nat)
    requires IsLife(states, guard, events) && AreTurns(states, events, marks, turns) && i < |turns|
    requires forall n | marks[0] <= n < marks[i + 1] && Holds(states[n], events[n]) ::
               OneEntryEach(events[n].listing.entries)
    requires turns[i].pendingLeft == 0 && exists j | marks[0] <= j < marks[i + 1] :: Holds(states[j], events[j])
    ensures MayOpenAt(states, guard, events, marks, turns, i)
  {
    assert IsTurn(states, events, marks[i], marks[i + 1], turns[i]);
    assert marks[0] <= marks[i + 1] <= marks[|turns|];
    EmptyQueueServes(states, guard, events, marks[0], marks[i + 1]);
    assert AllServed(states, guard, events, marks[0], marks[i + 1]);
  }

  lemma StalledLanded(states: seq<State>, guard: bool, events: seq<Event>, marks: seq<nat>, turns: seq<Turn>, i: nat)
    requires |states| == |events| + 1 && AreTurns(states, events, marks, turns) && i < |turns|
    requires CaughtUpOrStalled(turns, i) && turns[i].pendingLeft != 0
    requires exists j | marks[0] <= j < marks[i + 1] :: Holds(states[j], events[j])
    ensures MayOpenAt(states, guard, events, marks, turns, i)
  {
    LandedByDrain(states, events, marks, turns, i + 1);
    assert StalledAt(states, events, marks[0], marks[i + 1], turns, i);
  }

  /** A cold node never opens otherwise, over any life and whatever falls between the turns. */
  lemma OpenGateServes(states: seq<State>, guard: bool, events: seq<Event>, marks: seq<nat>, turns: seq<Turn>)
    requires IsLife(states, guard, events) && AreTurns(states, events, marks, turns)
    requires forall n | marks[0] <= n < marks[|turns|] && Holds(states[n], events[n]) ::
               OneEntryEach(events[n].listing.entries)
    requires TurnedAll(COLD, turns).bootstrapped
    ensures exists i | 0 <= i < |turns| :: MayOpenAt(states, guard, events, marks, turns, i)
  {
    var i := OpeningTurn(turns);
    OpensAt(states, guard, events, marks, turns, i);
  }

  lemma OpeningTurn(turns: seq<Turn>) returns (i: nat)
    requires TurnedAll(COLD, turns).bootstrapped
    ensures i < |turns| && ReconciledBy(turns, i) && CaughtUpOrStalled(turns, i)
  {
    GateOpensIff(turns);
    i :| 0 <= i < |turns| && ReconciledBy(turns, i) && CaughtUpOrStalled(turns, i);
  }

  lemma OpensAt(states: seq<State>, guard: bool, events: seq<Event>, marks: seq<nat>, turns: seq<Turn>, i: nat)
    requires IsLife(states, guard, events) && AreTurns(states, events, marks, turns) && i < |turns|
    requires forall n | marks[0] <= n < marks[|turns|] && Holds(states[n], events[n]) ::
               OneEntryEach(events[n].listing.entries)
    requires ReconciledBy(turns, i) && CaughtUpOrStalled(turns, i)
    ensures MayOpenAt(states, guard, events, marks, turns, i)
  {
    assert marks[i + 1] <= marks[|turns|];
    ReconciledHeld(states, events, marks, turns, i);
    if turns[i].pendingLeft == 0 {
      CaughtUpServes(states, guard, events, marks, turns, i);
    } else {
      StalledLanded(states, guard, events, marks, turns, i);
    }
  }
}
