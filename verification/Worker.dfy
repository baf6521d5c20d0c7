/** The replica's convergence loop: when it goes round again, and when a cold node opens for reads. */
module Workers {
  import opened Wrappers
  import opened Followers

  /** `run_worker`'s own variables, with the status flag the gate sets. */
  datatype Gate = Gate(bootstrapped: bool, reconciledOnce: bool, stalledPasses: nat, landedTotal: nat)

  /** What one turn of the loop saw: whether a reconcile was due and went well, its drain, and what was left queued. */
  datatype Turn = Turn(reconcile: Option<bool>, pass: SyncPass, pendingLeft: nat)

  predicate DrainFailed(pass: SyncPass) {
    pass.attempted > pass.locked && pass.succeeded == 0
  }

  /** The gate's bookkeeping in one turn. */
  function Turned(gate: Gate, turn: Turn): Gate {
    var reconciledOnce := gate.reconciledOnce || turn.reconcile == Some(true);
    var stalled := if DrainFailed(turn.pass) then gate.stalledPasses + 1 else 0;
    var landed := gate.landedTotal + turn.pass.succeeded;
    Gate(gate.bootstrapped || (reconciledOnce && (turn.pendingLeft == 0 || (stalled >= 2 && landed > 0))),
         reconciledOnce, stalled, landed)
  }

  function TurnedAll(gate: Gate, turns: seq<Turn>): Gate {
    if turns == [] then gate else Turned(TurnedAll(gate, turns[..|turns| - 1]), turns[|turns| - 1])
  }

  lemma TurnedSnoc(gate: Gate, turns: seq<Turn>, turn: Turn)
    ensures TurnedAll(gate, turns + [turn]) == Turned(TurnedAll(gate, turns), turn)
  {
    assert (turns + [turn])[..|turns|] == turns;
  }

  const COLD := Gate(false, false, 0, 0)

  function Landed(turns: seq<Turn>): nat {
    if turns == [] then 0 else Landed(turns[..|turns| - 1]) + turns[|turns| - 1].pass.succeeded
  }

  /** Turn `i` leaves nothing queued, or is the second failed drain in a row of a node something has landed on. */
  predicate CaughtUpOrStalled(turns: seq<Turn>, i: nat)
    requires i < |turns|
  {
    || turns[i].pendingLeft == 0
    || (i > 0 && DrainFailed(turns[i].pass) && DrainFailed(turns[i - 1].pass) && Landed(turns[..i + 1]) > 0)
  }

  predicate ReconciledBy(turns: seq<Turn>, i: nat) {
    exists j | 0 <= j < |turns| && j <= i :: turns[j].reconcile == Some(true)
  }

  ghost predicate Opens(turns: seq<Turn>) {
    exists i | 0 <= i < |turns| :: ReconciledBy(turns, i) && CaughtUpOrStalled(turns, i)
  }

  lemma {:induction false} Bookkeeping(turns: seq<Turn>)
    ensures var gate := TurnedAll(COLD, turns);
      var n := |turns|;
      && gate.landedTotal == Landed(turns) && (gate.reconciledOnce <==> ReconciledBy(turns, n))
      && (gate.stalledPasses >= 1 <==> n > 0 && DrainFailed(turns[n - 1].pass))
      && (gate.stalledPasses >= 2 <==> n > 1 && DrainFailed(turns[n - 1].pass) && DrainFailed(turns[n - 2].pass))
  {
    if turns != [] {
      var n := |turns| - 1;
      Bookkeeping(turns[..n]);
      if ReconciledBy(turns[..n], n) {
        var j :| 0 <= j < n && turns[..n][j].reconcile == Some(true);
        assert turns[j].reconcile == Some(true);
      }
      if ReconciledBy(turns, n + 1) {
        var j :| 0 <= j < |turns| && turns[j].reconcile == Some(true);
        assert j < n ==> turns[..n][j].reconcile == Some(true);
      }
    }
  }

  /** A cold node is open after some turns exactly when one of them, at or after a successful reconcile, left
      nothing queued or was the second stalled one with something landed. Hence the gate never closes again. */
  lemma {:induction false} GateOpensIff(turns: seq<Turn>)
    ensures TurnedAll(COLD, turns).bootstrapped <==> Opens(turns)
  {
    if turns != [] {
      var n := |turns| - 1;
      GateOpensIff(turns[..n]);
      Bookkeeping(turns[..n]);
      Bookkeeping(turns);
      OpensEarlierIff(turns);
      assert ReconciledBy(turns, n) <==> ReconciledBy(turns, n + 1);
      assert turns[..n + 1] == turns;
    }
  }

  lemma OpensEarlierIff(turns: seq<Turn>)
    requires turns != []
    ensures Opens(turns[..|turns| - 1])
       <==> exists i | 0 <= i < |turns| - 1 :: ReconciledBy(turns, i) && CaughtUpOrStalled(turns, i)
  {
    var rest := turns[..|turns| - 1];
    forall i | 0 <= i < |rest|
      ensures ReconciledBy(rest, i) <==> ReconciledBy(turns, i)
      ensures CaughtUpOrStalled(rest, i) <==> CaughtUpOrStalled(turns, i)
    {
      assert rest[..i + 1] == turns[..i + 1];
      assert forall j | 0 <= j <= i :: rest[j] == turns[j];
    }
  }

  /** A cold node that landed nothing opens only with nothing left to do. */
  lemma NothingLandedNothingServed(turns: seq<Turn>)
    requires TurnedAll(COLD, turns).bootstrapped && Landed(turns) == 0
    ensures exists i | 0 <= i < |turns| :: ReconciledBy(turns, i) && turns[i].pendingLeft == 0
  {
    GateOpensIff(turns);
    var i :| 0 <= i < |turns| && ReconciledBy(turns, i) && CaughtUpOrStalled(turns, i);
    LandedGrows(turns, i + 1);
  }

  lemma {:induction false} LandedGrows(turns: seq<Turn>, i: nat)
    requires i <= |turns|
    ensures Landed(turns[..i]) <= Landed(turns)
  {
    if i == |turns| {
      assert turns[..i] == turns;
    } else {
      LandedGrows(turns[..|turns| - 1], i);
      assert turns[..|turns| - 1][..i] == turns[..i];
    }
  }

  // The loop

  /** What the network gives one turn: a listing, unless fetching it failed, and answers to pack requests. */
  datatype Weather = Weather(listing: Option<Listing>, answers: map<Key, Answer>)

  /** The state a turn drains: reconciled first, where that was asked for and a listing came. */
  function Begun(s: State, guard: bool, requested: bool, listing: Option<Listing>): State {
    if requested && listing.Some? then Reconciled(s, guard, listing.value) else s
  }

  /** How that reconcile went; a listing that could not be fetched, or of another master, is a failure. */
  function ReconcileOutcome(s: State, requested: bool, listing: Option<Listing>): Option<bool> {
    if requested then Some(listing.Some? && IdentityHolds(s, listing.value.identity)) else None
  }

  class ReplicaWorker {
    const follower: ReplicaFollower
    var reconcileRequested: bool
    var gate: Gate

    constructor (follower: ReplicaFollower)
      ensures this.follower == follower && reconcileRequested
      ensures gate == Gate(|follower.index| > 0, false, 0, 0)
    {
      this.follower := follower;
      reconcileRequested := true;
      gate := Gate(|follower.index| > 0, false, 0, 0);
    }

    /** The reconcile of a turn, where one was asked for; a failed one is requested again. */
    method ReconcileIfDue(listing: Option<Listing>) returns (reconcile: Option<bool>)
      modifies this`reconcileRequested, follower
      ensures reconcile == ReconcileOutcome(old(follower.Current()), old(reconcileRequested), listing)
      ensures follower.Current() == Begun(old(follower.Current()), follower.deletionGuard, old(reconcileRequested), listing)
      ensures reconcileRequested == (reconcile == Some(false))
      ensures reconcile != Some(true) ==> follower.pending == old(follower.pending)
    {
      reconcile := None;
      if reconcileRequested {
        reconcileRequested := false;
        var ok := false;
        if listing.Some? {
          ok := follower.Reconcile(listing.value);
        }
        reconcile := Some(ok);
        if !ok {
          reconcileRequested := true;
        }
      }
    }

    /** The gate's own step, once the turn has drained. */
    method NoteTurn(turn: Turn)
      modifies this`gate
      ensures gate == Turned(old(gate), turn)
    {
      var landed := gate.landedTotal + turn.pass.succeeded;
      var stalled := if turn.pass.attempted - turn.pass.locked > 0 && turn.pass.succeeded == 0 then gate.stalledPasses + 1 else 0;
      var reconciledOnce := gate.reconciledOnce || turn.reconcile == Some(true);
      var open := gate.bootstrapped;
      if reconciledOnce && !open {
        if turn.pendingLeft == 0 {
          open := true;
        } else if stalled >= 2 && landed > 0 {
          open := true;
        }
      }
      gate := Gate(open, reconciledOnce, stalled, landed);
    }

    /** One turn of `run_worker`; `again` when it goes straight round. A failed reconcile is requested again. */
    method TurnOnce(weather: Weather) returns (turn: Turn, again: bool)
      modifies this, follower
      ensures gate == Turned(old(gate), turn) && turn.pendingLeft == |follower.pending|
      ensures turn.reconcile == ReconcileOutcome(old(follower.Current()), old(reconcileRequested), weather.listing)
      ensures var begun := Begun(old(follower.Current()), follower.deletionGuard, old(reconcileRequested), weather.listing);
        Drained(begun, weather.answers, follower.Current()) && turn.pass == PassOf(begun, weather.answers)
      ensures reconcileRequested == (turn.reconcile == Some(false))
      ensures again == (turn.pass.succeeded > 0 && follower.pending != map[])
      ensures again && turn.reconcile != Some(true) ==> |follower.pending| < |old(follower.pending)|
    {
      var reconcile := ReconcileIfDue(weather.listing);
      var pass := follower.DrainPending(weather.answers);
      turn := Turn(reconcile, pass, |follower.pending|);
      NoteTurn(turn);
      again := pass.succeeded > 0 && turn.pendingLeft != 0;
    }

    /** The loop up to its next sleep. Without new frames it gets there: each turn that goes straight round has
        either satisfied the pending reconcile request or shortened the queue. */
    method RunUntilIdle(weather: nat -> Weather) returns (turns: seq<Turn>)
      modifies this, follower
      ensures turns != [] && gate == TurnedAll(old(gate), turns)
      ensures follower.pending == map[] || turns[|turns| - 1].pass.succeeded == 0
    {
      ghost var start := gate;
      turns := [];
      var again := true;
      while again
        invariant gate == TurnedAll(start, turns)
        invariant again || (turns != [] && (follower.pending == map[] || turns[|turns| - 1].pass.succeeded == 0))
        decreases again, reconcileRequested, |follower.pending|
      {
        var turn;
        turn, again := TurnOnce(weather(|turns|));
        TurnedSnoc(start, turns, turn);
        turns := turns + [turn];
      }
    }
  }
}
