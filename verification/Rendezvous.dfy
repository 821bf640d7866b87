/**
 The rendezvous of two players at the match server. `Authenticate` runs once per connection, all of them
 concurrently: a request verifies its ticket, enters the critical section once, and then either waits for its
 opponent or hands the waiting opponent its session. Any step of any request may follow any other.
 */
module Rendezvous {
  import opened RoomModel

  datatype Ticket = Ticket(matchID: string, playerID: string, opponentID: string, expiresAt: nat)

  datatype Failure = TicketUsed | SamePlayer | Authentication | Cancelled

  /**
   Where a request is: its ticket checked (`Verified`), waiting for the opponent, waiting with its cancellation
   signalled but not yet withdrawn, holding the other half of pair number `pair`, or returned.
   */
  datatype Phase =
    | Verified
    | Waiting
    | Withdrawing
    | Pairing(pair: nat)
    | Session(pair: nat)
    | Failed(reason: Failure)

  datatype Request = Request(ticket: Ticket, phase: Phase)

  /** A created match and the two requests it was created for; `first` is the one that had been waiting. */
  datatype Pair = Pair(matchID: string, first: nat, second: nat, aborted: bool)

  datatype Manager = Manager(clock: nat, issued: set<Ticket>, requests: seq<Request>, waiting: map<string, nat>,
                             used: map<string, nat>, pairs: seq<Pair>)

  /** Tickets are issued in pairs: two tickets of one match are for players who name each other. */
  ghost predicate IssuedInPairs(issued: set<Ticket>) {
    && (forall t :: t in issued ==> t.playerID != "" && t.opponentID != "" && t.playerID != t.opponentID)
    && (forall t, u :: t in issued && u in issued && t.matchID == u.matchID ==>
          t == u || (t.playerID == u.opponentID && u.playerID == t.opponentID))
  }

  datatype Step =
    | Clock
    | Verify(ticket: Ticket)
    | Enter(id: nat)       // the critical section
    | HandOver(id: nat)    // the second player's send meets the first player's receive
    | GiveUp(id: nat)      // the waiting player's connection ends
    | Withdraw(id: nat)
    | Abort(id: nat)       // the second player sees the cancellation

  function Purged(used: map<string, nat>, now: nat): map<string, nat> {
    map matchID | matchID in used && now < used[matchID] :: used[matchID]
  }

  function PhaseOf(m: Manager, id: nat): Option<Phase> {
    if id < |m.requests| then Some(m.requests[id].phase) else None
  }

  function Moved(m: Manager, id: nat, phase: Phase): Manager
    requires id < |m.requests|
  {
    m.(requests := m.requests[id := m.requests[id].(phase := phase)])
  }

  predicate Enabled(m: Manager, step: Step) {
    match step
    case Clock => true
    case Verify(ticket) => ticket in m.issued && m.clock < ticket.expiresAt
    case Enter(id) => PhaseOf(m, id) == Some(Verified)
    case HandOver(id) =>
      id < |m.requests| && m.requests[id].phase.Pairing? && m.requests[id].phase.pair < |m.pairs|
      && PhaseOf(m, m.pairs[m.requests[id].phase.pair].first) == Some(Waiting)
    case GiveUp(id) => PhaseOf(m, id) == Some(Waiting)
    case Withdraw(id) => PhaseOf(m, id) == Some(Withdrawing)
    case Abort(id) =>
      id < |m.requests| && m.requests[id].phase.Pairing? && m.requests[id].phase.pair < |m.pairs|
      && (var first := PhaseOf(m, m.pairs[m.requests[id].phase.pair].first);
          first == Some(Withdrawing) || first == Some(Failed(Cancelled)))
  }

  /** The critical section: purge, look up, then wait, fail or pair. */
  function Entered(m: Manager, id: nat): Manager
    requires id < |m.requests|
  {
    var ticket := m.requests[id].ticket;
    var p := m.(used := Purged(m.used, m.clock));
    if ticket.matchID in p.used then Moved(p, id, Failed(TicketUsed))
    else if ticket.matchID !in p.waiting then
      Moved(p, id, Waiting).(waiting := p.waiting[ticket.matchID := id])
    else
      var first := p.waiting[ticket.matchID];
      if first >= |m.requests| then p
      else
        var other := m.requests[first].ticket;
        if other.playerID == ticket.playerID then Moved(p, id, Failed(SamePlayer))
        else if other.opponentID != ticket.playerID || ticket.opponentID != other.playerID
        then Moved(p, id, Failed(Authentication))
        else
          Moved(p, id, Pairing(|p.pairs|)).(waiting := p.waiting - {ticket.matchID},
                                            used := p.used[ticket.matchID := ticket.expiresAt],
                                            pairs := p.pairs + [Pair(ticket.matchID, first, id, false)])
  }

  function Do(m: Manager, step: Step): Manager
    requires Enabled(m, step)
  {
    match step
    case Clock => m.(clock := m.clock + 1)
    case Verify(ticket) => m.(requests := m.requests + [Request(ticket, Verified)])
    case Enter(id) => Entered(m, id)
    case HandOver(id) =>
      var k := m.requests[id].phase.pair;
      Moved(Moved(m, id, Session(k)), m.pairs[k].first, Session(k))
    case GiveUp(id) => Moved(m, id, Withdrawing)
    case Withdraw(id) =>
      var matchID := m.requests[id].ticket.matchID;
      var w := Moved(m, id, Failed(Cancelled));
      if matchID in m.waiting && m.waiting[matchID] == id then w.(waiting := m.waiting - {matchID}) else w
    case Abort(id) =>
      var k := m.requests[id].phase.pair;
      Moved(m, id, Failed(Cancelled)).(pairs := m.pairs[k := m.pairs[k].(aborted := true)])
  }

  /** The request reaches the critical section before its ticket expires. */
  predicate Prompt(m: Manager, step: Step) {
    step.Enter? && step.id < |m.requests| ==> m.clock < m.requests[step.id].ticket.expiresAt
  }

  function Play(issued: set<Ticket>, steps: seq<Step>): Option<Manager>
    decreases |steps|
  {
    if steps == [] then Some(Manager(0, issued, [], map[], map[], []))
    else
      var before := Play(issued, steps[..|steps| - 1]);
      if before.Some? && Enabled(before.value, steps[|steps| - 1])
      then Some(Do(before.value, steps[|steps| - 1]))
      else None
  }

  ghost predicate AllPrompt(issued: set<Ticket>, steps: seq<Step>)
    decreases |steps|
  {
    steps != [] ==>
      var n := |steps| - 1;
      AllPrompt(issued, steps[..n])
      && (Play(issued, steps[..n]).Some? ==> Prompt(Play(issued, steps[..n]).value, steps[n]))
  }

  // ---------------------------------------------------------------- the invariant

  /** What the two requests of a created match can be doing. */
  ghost predicate PairInOrder(m: Manager, k: nat)
    requires k < |m.pairs|
  {
    var pair := m.pairs[k];
    && pair.first < |m.requests| && pair.second < |m.requests| && pair.first != pair.second
    && (var first, second := m.requests[pair.first], m.requests[pair.second];
        && first.ticket.matchID == second.ticket.matchID == pair.matchID
        && first.ticket.opponentID == second.ticket.playerID && second.ticket.opponentID == first.ticket.playerID
        && first.ticket.playerID != second.ticket.playerID
        && (|| (second.phase == Pairing(k) && !pair.aborted
                && (first.phase == Waiting || first.phase == Withdrawing || first.phase == Failed(Cancelled)))
            || (second.phase == Session(k) && first.phase == Session(k) && !pair.aborted)
            || (second.phase == Failed(Cancelled) && pair.aborted
                && (first.phase == Withdrawing || first.phase == Failed(Cancelled)))))
  }

  ghost predicate Involved(pair: Pair, id: nat) {
    pair.first == id || pair.second == id
  }

  ghost predicate InOrder(m: Manager) {
    && IssuedInPairs(m.issued)
    && (forall id :: 0 <= id < |m.requests| ==> m.requests[id].ticket in m.issued)
    && (forall k :: 0 <= k < |m.pairs| ==> PairInOrder(m, k))
    && (forall j, k, id ::
          0 <= j < |m.pairs| && 0 <= k < |m.pairs| && Involved(m.pairs[j], id) && Involved(m.pairs[k], id) ==> j == k)
    && (forall matchID :: matchID in m.waiting ==> WaitsAlone(m, matchID))
    && (forall id :: 0 <= id < |m.requests| && m.requests[id].phase == Verified ==> Unpaired(m, id))
    && (forall id :: 0 <= id < |m.requests| && (m.requests[id].phase.Session? || m.requests[id].phase.Pairing?) ==>
          HasPair(m, id))
  }

  ghost predicate HasPair(m: Manager, id: nat)
    requires id < |m.requests| && (m.requests[id].phase.Session? || m.requests[id].phase.Pairing?)
  {
    var k := m.requests[id].phase.pair;
    k < |m.pairs| && Involved(m.pairs[k], id)
  }

  ghost predicate Unpaired(m: Manager, id: nat) {
    forall k :: 0 <= k < |m.pairs| ==> !Involved(m.pairs[k], id)
  }

  ghost predicate WaitsAlone(m: Manager, matchID: string)
    requires matchID in m.waiting
  {
    var id := m.waiting[matchID];
    && id < |m.requests| && m.requests[id].ticket.matchID == matchID && Unpaired(m, id)
    && (m.requests[id].phase == Waiting || m.requests[id].phase == Withdrawing)
  }

  /** A pair neither of whose requests has moved is still in order. */
  lemma PairKept(m: Manager, t: Manager, k: nat)
    requires k < |m.pairs| && k < |t.pairs| && t.pairs[k] == m.pairs[k] && PairInOrder(m, k)
    requires |m.requests| <= |t.requests|
    requires t.requests[m.pairs[k].first] == m.requests[m.pairs[k].first]
    requires t.requests[m.pairs[k].second] == m.requests[m.pairs[k].second]
    ensures PairInOrder(t, k)
  {
  }

  /** Entering without pairing moves one request that no pair involves. */
  lemma LoneMoveKeepsOrder(m: Manager, t: Manager, id: nat)
    requires InOrder(m) && id < |m.requests| && m.requests[id].phase == Verified
    requires t.issued == m.issued && t.pairs == m.pairs && |t.requests| == |m.requests|
    requires forall i :: 0 <= i < |m.requests| && i != id ==> t.requests[i] == m.requests[i]
    requires t.requests[id].ticket == m.requests[id].ticket
    requires t.requests[id].phase.Failed? || t.requests[id].phase == Waiting
    requires forall matchID :: matchID in t.waiting ==>
               || (matchID in m.waiting && t.waiting[matchID] == m.waiting[matchID])
               || (matchID == m.requests[id].ticket.matchID && t.waiting[matchID] == id
                   && t.requests[id].phase == Waiting)
    ensures InOrder(t)
  {
    assert Unpaired(m, id);
    forall k | 0 <= k < |t.pairs| ensures PairInOrder(t, k) {
      PairKept(m, t, k);
    }
    forall matchID | matchID in t.waiting ensures WaitsAlone(t, matchID) {
      if matchID in m.waiting && t.waiting[matchID] == m.waiting[matchID] {
        assert WaitsAlone(m, matchID);
      }
    }
    forall i | 0 <= i < |t.requests| && (t.requests[i].phase.Session? || t.requests[i].phase.Pairing?)
      ensures HasPair(t, i)
    {
      assert HasPair(m, i);
    }
    forall i | 0 <= i < |t.requests| && t.requests[i].phase == Verified ensures Unpaired(t, i) {
      assert Unpaired(m, i);
    }
  }

  predicate Pairs(m: Manager, id: nat)
    requires id < |m.requests|
  {
    |Entered(m, id).pairs| > |m.pairs|
  }

  lemma PairingFacts(m: Manager, id: nat) returns (first: nat)
    requires InOrder(m) && Enabled(m, Enter(id)) && Pairs(m, id)
    ensures var t, ticket := Do(m, Enter(id)), m.requests[id].ticket;
            && ticket.matchID in m.waiting && first == m.waiting[ticket.matchID] && first < |m.requests| && first != id
            && WaitsAlone(m, ticket.matchID) && Unpaired(m, id)
            && m.requests[first].ticket.playerID == ticket.opponentID
            && m.requests[first].ticket.opponentID == ticket.playerID
            && t == m.(requests := m.requests[id := m.requests[id].(phase := Pairing(|m.pairs|))],
                       waiting := m.waiting - {ticket.matchID},
                       used := Purged(m.used, m.clock)[ticket.matchID := ticket.expiresAt],
                       pairs := m.pairs + [Pair(ticket.matchID, first, id, false)])
  {
    first := m.waiting[m.requests[id].ticket.matchID];
    assert WaitsAlone(m, m.requests[id].ticket.matchID);
  }

  lemma PairingKeepsOrder(m: Manager, id: nat)
    requires InOrder(m) && Enabled(m, Enter(id)) && Pairs(m, id)
    ensures InOrder(Do(m, Enter(id)))
  {
    var first := PairingFacts(m, id);
    NewPairKeepsOrder(m, Do(m, Enter(id)), first, id);
  }

  /** `t` is `m` after the second request has been paired with the first. */
  ghost predicate Joined(m: Manager, t: Manager, first: nat, second: nat) {
    && first < |m.requests| && second < |m.requests| && first != second
    && m.requests[second].ticket.matchID in m.waiting && first == m.waiting[m.requests[second].ticket.matchID]
    && WaitsAlone(m, m.requests[second].ticket.matchID) && Unpaired(m, second)
    && m.requests[first].ticket.playerID == m.requests[second].ticket.opponentID
    && m.requests[first].ticket.opponentID == m.requests[second].ticket.playerID
    && t.issued == m.issued && m.requests[second].phase == Verified
    && t.requests == m.requests[second := m.requests[second].(phase := Pairing(|m.pairs|))]
    && t.waiting == m.waiting - {m.requests[second].ticket.matchID}
    && t.pairs == m.pairs + [Pair(m.requests[second].ticket.matchID, first, second, false)]
  }

  lemma NewPairInOrder(m: Manager, t: Manager, first: nat, second: nat)
    requires InOrder(m) && Joined(m, t, first, second)
    ensures forall k :: 0 <= k < |t.pairs| ==> PairInOrder(t, k)
  {
    forall k | 0 <= k < |t.pairs| ensures PairInOrder(t, k) {
      if k < |m.pairs| {
        assert PairInOrder(m, k);
        PairKept(m, t, k);
      }
    }
  }

  lemma NewPairInvolvesTwo(m: Manager, t: Manager, first: nat, second: nat, id: nat)
    requires InOrder(m) && Joined(m, t, first, second) && id != first && id != second && Unpaired(m, id)
    ensures Unpaired(t, id)
  {
  }

  lemma NewPairIsAlone(m: Manager, t: Manager, first: nat, second: nat)
    requires InOrder(m) && Joined(m, t, first, second)
    ensures forall j, k, id ::
              0 <= j < |t.pairs| && 0 <= k < |t.pairs| && Involved(t.pairs[j], id) && Involved(t.pairs[k], id) ==>
                j == k
  {
    assert Unpaired(m, first);
  }

  lemma NewPairLeavesWaiters(m: Manager, t: Manager, first: nat, second: nat)
    requires InOrder(m) && Joined(m, t, first, second)
    ensures forall matchID :: matchID in t.waiting ==> WaitsAlone(t, matchID)
  {
    forall matchID | matchID in t.waiting ensures WaitsAlone(t, matchID) {
      assert WaitsAlone(m, matchID);
      NewPairInvolvesTwo(m, t, first, second, m.waiting[matchID]);
    }
  }

  lemma NewPairKeepsOrder(m: Manager, t: Manager, first: nat, second: nat)
    requires InOrder(m) && Joined(m, t, first, second)
    ensures InOrder(t)
  {
    NewPairInOrder(m, t, first, second);
    NewPairIsAlone(m, t, first, second);
    NewPairLeavesWaiters(m, t, first, second);
    forall i | 0 <= i < |t.requests| && t.requests[i].phase == Verified ensures Unpaired(t, i) {
      NewPairInvolvesTwo(m, t, first, second, i);
    }
    forall i | 0 <= i < |t.requests| && (t.requests[i].phase.Session? || t.requests[i].phase.Pairing?)
      ensures HasPair(t, i)
    {
      assert i != second ==> HasPair(m, i);
    }
  }

  lemma EnterKeepsOrder(m: Manager, id: nat)
    requires InOrder(m) && Enabled(m, Enter(id))
    ensures InOrder(Do(m, Enter(id)))
  {
    if Pairs(m, id) {
      PairingKeepsOrder(m, id);
    } else {
      if m.requests[id].ticket.matchID in m.waiting {
        assert WaitsAlone(m, m.requests[id].ticket.matchID);
      }
      LoneMoveKeepsOrder(m, Do(m, Enter(id)), id);
    }
  }

  /** A step that moves the two requests of one pair leaves everything else in order. */
  lemma PairMoveKeepsOrder(m: Manager, t: Manager, mine: nat)
    requires InOrder(m) && mine < |m.pairs| && PairInOrder(m, mine)
    requires t.issued == m.issued && t.waiting == m.waiting && |t.requests| == |m.requests| && |t.pairs| == |m.pairs|
    requires forall k :: 0 <= k < |m.pairs| ==> t.pairs[k].first == m.pairs[k].first
                                                && t.pairs[k].second == m.pairs[k].second
    requires forall k :: 0 <= k < |m.pairs| && k != mine ==> t.pairs[k] == m.pairs[k]
    requires forall i :: 0 <= i < |m.requests| ==>
               && t.requests[i].ticket == m.requests[i].ticket
               && (!Involved(m.pairs[mine], i) ==> t.requests[i] == m.requests[i])
    requires forall i :: 0 <= i < |m.requests| && Involved(m.pairs[mine], i) ==>
               && t.requests[i].phase != Verified
               && (t.requests[i].phase.Session? || t.requests[i].phase.Pairing? ==> t.requests[i].phase.pair == mine)
    requires PairInOrder(t, mine)
    ensures InOrder(t)
  {
    forall k | 0 <= k < |t.pairs| ensures PairInOrder(t, k) {
      if k != mine {
        assert PairInOrder(m, k);
        assert Involved(m.pairs[k], m.pairs[k].first) && Involved(m.pairs[k], m.pairs[k].second);
        PairKept(m, t, k);
      }
    }
    forall j, k, i | 0 <= j < |t.pairs| && 0 <= k < |t.pairs| && Involved(t.pairs[j], i) && Involved(t.pairs[k], i)
      ensures j == k
    {
      assert Involved(m.pairs[j], i) && Involved(m.pairs[k], i);
    }
    forall matchID | matchID in t.waiting ensures WaitsAlone(t, matchID) {
      assert WaitsAlone(m, matchID);
      assert !Involved(m.pairs[mine], m.waiting[matchID]);
      assert Unpaired(t, t.waiting[matchID]);
    }
    forall i | 0 <= i < |t.requests| && t.requests[i].phase == Verified ensures Unpaired(t, i) {
      assert Unpaired(m, i);
    }
    forall i | 0 <= i < |t.requests| && (t.requests[i].phase.Session? || t.requests[i].phase.Pairing?)
      ensures HasPair(t, i)
    {
      if !Involved(m.pairs[mine], i) {
        assert HasPair(m, i);
      }
    }
  }

  lemma HandOverKeepsOrder(m: Manager, id: nat)
    requires InOrder(m) && Enabled(m, HandOver(id))
    ensures InOrder(Do(m, HandOver(id)))
  {
    var mine := m.requests[id].phase.pair;
    assert HasPair(m, id) && PairInOrder(m, mine);
    PairMoveKeepsOrder(m, Do(m, HandOver(id)), mine);
  }

  lemma AbortKeepsOrder(m: Manager, id: nat)
    requires InOrder(m) && Enabled(m, Abort(id))
    ensures InOrder(Do(m, Abort(id)))
  {
    var mine := m.requests[id].phase.pair;
    assert HasPair(m, id) && PairInOrder(m, mine);
    PairMoveKeepsOrder(m, Do(m, Abort(id)), mine);
  }

  /** A waiting request that moves towards its cancellation leaves everything in order. */
  lemma WaiterMoveKeepsOrder(m: Manager, t: Manager, id: nat)
    requires InOrder(m) && id < |m.requests| && t.issued == m.issued && t.pairs == m.pairs
    requires (m.requests[id].phase == Waiting && t.requests == m.requests[id := m.requests[id].(phase := Withdrawing)])
          || (m.requests[id].phase == Withdrawing
              && t.requests == m.requests[id := m.requests[id].(phase := Failed(Cancelled))])
    requires forall matchID :: matchID in t.waiting ==>
               && matchID in m.waiting && t.waiting[matchID] == m.waiting[matchID]
               && (t.waiting[matchID] == id ==> t.requests[id].phase == Withdrawing)
    ensures InOrder(t)
  {
    forall k | 0 <= k < |t.pairs| ensures PairInOrder(t, k) {
      assert PairInOrder(m, k);
    }
    forall matchID | matchID in t.waiting ensures WaitsAlone(t, matchID) {
      assert WaitsAlone(m, matchID);
    }
    forall i | 0 <= i < |t.requests| && t.requests[i].phase == Verified ensures Unpaired(t, i) {
      assert Unpaired(m, i);
    }
    forall i | 0 <= i < |t.requests| && (t.requests[i].phase.Session? || t.requests[i].phase.Pairing?)
      ensures HasPair(t, i)
    {
      assert HasPair(m, i);
    }
  }

  lemma GiveUpKeepsOrder(m: Manager, id: nat)
    requires InOrder(m) && Enabled(m, GiveUp(id))
    ensures InOrder(Do(m, GiveUp(id)))
  {
    WaiterMoveKeepsOrder(m, Do(m, GiveUp(id)), id);
  }

  lemma WithdrawKeepsOrder(m: Manager, id: nat)
    requires InOrder(m) && Enabled(m, Withdraw(id))
    ensures InOrder(Do(m, Withdraw(id)))
  {
    var t := Do(m, Withdraw(id));
    forall matchID | matchID in t.waiting ensures matchID in m.waiting && t.waiting[matchID] != id {
      assert WaitsAlone(m, matchID);
    }
    WaiterMoveKeepsOrder(m, t, id);
  }

  lemma VerifyKeepsOrder(m: Manager, ticket: Ticket)
    requires InOrder(m) && Enabled(m, Verify(ticket))
    ensures InOrder(Do(m, Verify(ticket)))
  {
    var t := Do(m, Verify(ticket));
    forall k | 0 <= k < |t.pairs| ensures PairInOrder(t, k) && !Involved(t.pairs[k], |m.requests|) {
      assert PairInOrder(m, k);
      PairKept(m, t, k);
    }
    forall matchID | matchID in t.waiting ensures WaitsAlone(t, matchID) {
      assert WaitsAlone(m, matchID);
    }
    forall i | 0 <= i < |t.requests| && t.requests[i].phase == Verified ensures Unpaired(t, i) {
      assert i < |m.requests| ==> Unpaired(m, i);
    }
    forall i | 0 <= i < |t.requests| && (t.requests[i].phase.Session? || t.requests[i].phase.Pairing?)
      ensures HasPair(t, i)
    {
      assert HasPair(m, i);
    }
  }

  lemma OrderIsKept(m: Manager, step: Step)
    requires InOrder(m) && Enabled(m, step)
    ensures InOrder(Do(m, step))
  {
    match step
    case Clock =>
      forall k | 0 <= k < |m.pairs| ensures PairInOrder(Do(m, step), k) {
        assert PairInOrder(m, k);
      }
      forall matchID | matchID in m.waiting ensures WaitsAlone(Do(m, step), matchID) {
        assert WaitsAlone(m, matchID);
      }
    case Verify(ticket) => VerifyKeepsOrder(m, ticket);
    case Enter(id) => EnterKeepsOrder(m, id);
    case HandOver(id) => HandOverKeepsOrder(m, id);
    case GiveUp(id) => GiveUpKeepsOrder(m, id);
    case Withdraw(id) => WithdrawKeepsOrder(m, id);
    case Abort(id) => AbortKeepsOrder(m, id);
  }

  lemma {:induction false} OrderAlways(issued: set<Ticket>, steps: seq<Step>)
    requires IssuedInPairs(issued) && Play(issued, steps).Some?
    ensures InOrder(Play(issued, steps).value)
    decreases |steps|
  {
    if steps != [] {
      var n := |steps| - 1;
      OrderAlways(issued, steps[..n]);
      OrderIsKept(Play(issued, steps[..n]).value, steps[n]);
    }
  }

  ghost predicate Returned(phase: Phase) {
    phase.Session? || phase.Failed?
  }

  /**
   In every interleaving, a created match belongs to two distinct players who name each other; once both of their
   calls have returned, either both returned sessions of this match, or both returned errors and the match is
   aborted. Until then neither has a session without the other.
   */
  lemma BothOrNeither(issued: set<Ticket>, steps: seq<Step>, k: nat)
    requires IssuedInPairs(issued) && Play(issued, steps).Some? && k < |Play(issued, steps).value.pairs|
    ensures var m := Play(issued, steps).value; var pair := m.pairs[k];
            && pair.first < |m.requests| && pair.second < |m.requests|
            && (var first, second := m.requests[pair.first], m.requests[pair.second];
                && first.ticket.playerID != second.ticket.playerID
                && first.ticket.playerID == second.ticket.opponentID
                && second.ticket.playerID == first.ticket.opponentID
                && (first.phase.Session? <==> second.phase.Session?)
                && (first.phase.Session? ==> first.phase == second.phase == Session(k) && !pair.aborted)
                && (Returned(first.phase) && Returned(second.phase) && !first.phase.Session? ==>
                      first.phase == second.phase == Failed(Cancelled) && pair.aborted))
  {
    OrderAlways(issued, steps);
    assert PairInOrder(Play(issued, steps).value, k);
  }

  /** A session always is the session of some created match the request belongs to. */
  lemma SessionsHaveMatches(issued: set<Ticket>, steps: seq<Step>, id: nat)
    requires IssuedInPairs(issued) && Play(issued, steps).Some? && id < |Play(issued, steps).value.requests|
    requires Play(issued, steps).value.requests[id].phase.Session?
    ensures var m := Play(issued, steps).value;
            m.requests[id].phase.pair < |m.pairs| && Involved(m.pairs[m.requests[id].phase.pair], id)
  {
    OrderAlways(issued, steps);
    assert HasPair(Play(issued, steps).value, id);
  }

  /** A request that holds the other half of a pair is never stuck: it can hand over the session or give up. */
  lemma PairingIsNeverStuck(issued: set<Ticket>, steps: seq<Step>, id: nat)
    requires IssuedInPairs(issued) && Play(issued, steps).Some? && id < |Play(issued, steps).value.requests|
    requires Play(issued, steps).value.requests[id].phase.Pairing?
    ensures var m := Play(issued, steps).value;
            && (Enabled(m, HandOver(id)) || Enabled(m, Abort(id)))
            && (Enabled(m, HandOver(id)) ==> Returned(PhaseOf(Do(m, HandOver(id)), id).value))
            && (Enabled(m, Abort(id)) ==> Returned(PhaseOf(Do(m, Abort(id)), id).value))
  {
    OrderAlways(issued, steps);
    var m := Play(issued, steps).value;
    assert HasPair(m, id) && PairInOrder(m, m.requests[id].phase.pair);
  }

  // ---------------------------------------------------------------- nobody waits in vain

  /** The request holds the place of its match, or the opponent that took it from there is about to hand over. */
  ghost predicate AccountedFor(m: Manager, id: nat)
    requires id < |m.requests|
  {
    || (m.requests[id].ticket.matchID in m.waiting && m.waiting[m.requests[id].ticket.matchID] == id)
    || exists k :: 0 <= k < |m.pairs| && TakenUp(m, k, id)
  }

  ghost predicate TakenUp(m: Manager, k: nat, id: nat)
    requires k < |m.pairs|
  {
    m.pairs[k].first == id && PhaseOf(m, m.pairs[k].second) == Some(Pairing(k))
  }

  ghost predicate NobodyIsForgotten(m: Manager) {
    forall id :: 0 <= id < |m.requests| && m.requests[id].phase == Waiting ==> AccountedFor(m, id)
  }

  /** Whoever waits after a step has been waiting, in a place or a pair that the step leaves alone. */
  lemma StillAccountedFor(m: Manager, t: Manager, id: nat)
    requires id < |m.requests| <= |t.requests| && AccountedFor(m, id) && t.requests[id].ticket == m.requests[id].ticket
    requires var matchID := m.requests[id].ticket.matchID;
             matchID in m.waiting && m.waiting[matchID] == id ==> matchID in t.waiting && t.waiting[matchID] == id
    requires |m.pairs| <= |t.pairs|
    requires forall k :: 0 <= k < |m.pairs| && TakenUp(m, k, id) ==> TakenUp(t, k, id)
    ensures AccountedFor(t, id)
  {
  }

  lemma EntryForgetsNobody(m: Manager, id: nat)
    requires InOrder(m) && NobodyIsForgotten(m) && Enabled(m, Enter(id))
    ensures NobodyIsForgotten(Do(m, Enter(id)))
  {
    var t := Do(m, Enter(id));
    if Pairs(m, id) {
      var first := PairingFacts(m, id);
      PairingForgetsNobody(m, t, first, id);
    } else {
      LoneEntryForgetsNobody(m, t, id);
    }
  }

  lemma PairingForgetsNobody(m: Manager, t: Manager, first: nat, id: nat)
    requires InOrder(m) && NobodyIsForgotten(m) && Joined(m, t, first, id)
    ensures NobodyIsForgotten(t)
  {
    forall i | 0 <= i < |t.requests| && t.requests[i].phase == Waiting ensures AccountedFor(t, i) {
      if i == first {
        assert TakenUp(t, |m.pairs|, i);
      } else {
        StillAccountedFor(m, t, i);
      }
    }
  }

  lemma LoneEntryForgetsNobody(m: Manager, t: Manager, id: nat)
    requires InOrder(m) && NobodyIsForgotten(m) && Enabled(m, Enter(id)) && !Pairs(m, id) && t == Do(m, Enter(id))
    ensures NobodyIsForgotten(t)
  {
    if m.requests[id].ticket.matchID in m.waiting {
      assert WaitsAlone(m, m.requests[id].ticket.matchID);
    }
    forall i | 0 <= i < |t.requests| && t.requests[i].phase == Waiting ensures AccountedFor(t, i) {
      if i != id {
        StillAccountedFor(m, t, i);
      }
    }
  }

  /** A step of the two requests of a pair, after which neither waits. */
  lemma PairMoveForgetsNobody(m: Manager, t: Manager, mine: nat)
    requires InOrder(m) && NobodyIsForgotten(m) && mine < |m.pairs| == |t.pairs| && |t.requests| == |m.requests|
    requires t.waiting == m.waiting && forall k :: 0 <= k < |m.pairs| && k != mine ==> t.pairs[k] == m.pairs[k]
    requires forall i :: 0 <= i < |m.requests| ==>
               t.requests[i].ticket == m.requests[i].ticket
               && if Involved(m.pairs[mine], i) then t.requests[i].phase != Waiting else t.requests[i] == m.requests[i]
    ensures NobodyIsForgotten(t)
  {
    forall i | 0 <= i < |t.requests| && t.requests[i].phase == Waiting ensures AccountedFor(t, i) {
      forall k | 0 <= k < |m.pairs| && TakenUp(m, k, i) ensures TakenUp(t, k, i) {
        assert k != mine && Involved(m.pairs[k], m.pairs[k].second);
        assert !Involved(m.pairs[mine], m.pairs[k].second);
      }
      StillAccountedFor(m, t, i);
    }
  }

  /** A step of one request that is in no pair as the second one, after which it does not wait. */
  lemma LoneMoveForgetsNobody(m: Manager, t: Manager, id: nat)
    requires InOrder(m) && NobodyIsForgotten(m) && id < |m.requests| && !m.requests[id].phase.Pairing?
    requires t.pairs == m.pairs && |t.requests| == |m.requests| && t.requests[id].phase != Waiting
    requires t.requests == m.requests[id := t.requests[id]]
    requires forall matchID :: matchID in m.waiting && m.waiting[matchID] != id ==>
               matchID in t.waiting && t.waiting[matchID] == m.waiting[matchID]
    ensures NobodyIsForgotten(t)
  {
    forall i | 0 <= i < |t.requests| && t.requests[i].phase == Waiting ensures AccountedFor(t, i) {
      StillAccountedFor(m, t, i);
    }
  }

  lemma HandOverForgetsNobody(m: Manager, id: nat)
    requires InOrder(m) && NobodyIsForgotten(m) && Enabled(m, HandOver(id))
    ensures NobodyIsForgotten(Do(m, HandOver(id)))
  {
    assert HasPair(m, id) && PairInOrder(m, m.requests[id].phase.pair);
    PairMoveForgetsNobody(m, Do(m, HandOver(id)), m.requests[id].phase.pair);
  }

  lemma AbortForgetsNobody(m: Manager, id: nat)
    requires InOrder(m) && NobodyIsForgotten(m) && Enabled(m, Abort(id))
    ensures NobodyIsForgotten(Do(m, Abort(id)))
  {
    assert HasPair(m, id) && PairInOrder(m, m.requests[id].phase.pair);
    PairMoveForgetsNobody(m, Do(m, Abort(id)), m.requests[id].phase.pair);
  }

  lemma NobodyIsForgottenByAStep(m: Manager, step: Step)
    requires InOrder(m) && NobodyIsForgotten(m) && Enabled(m, step)
    ensures NobodyIsForgotten(Do(m, step))
  {
    var t := Do(m, step);
    match step
    case Clock => StaysForgottenByNobody(m, t);
    case Verify(ticket) => StaysForgottenByNobody(m, t);
    case Enter(id) => EntryForgetsNobody(m, id);
    case HandOver(id) => HandOverForgetsNobody(m, id);
    case GiveUp(id) => LoneMoveForgetsNobody(m, t, id);
    case Withdraw(id) => LoneMoveForgetsNobody(m, t, id);
    case Abort(id) => AbortForgetsNobody(m, id);
  }

  lemma StaysForgottenByNobody(m: Manager, t: Manager)
    requires NobodyIsForgotten(m) && m.requests <= t.requests && t.waiting == m.waiting && t.pairs == m.pairs
    requires forall i :: |m.requests| <= i < |t.requests| ==> t.requests[i].phase != Waiting
    ensures NobodyIsForgotten(t)
  {
    forall i | 0 <= i < |t.requests| && t.requests[i].phase == Waiting ensures AccountedFor(t, i) {
      StillAccountedFor(m, t, i);
    }
  }

  /**
   In every interleaving, each waiting request either holds the place of its match, where its opponent will find it, or
   has been taken up by an opponent that is about to hand over.
   */
  lemma {:induction false} NobodyWaitsInVain(issued: set<Ticket>, steps: seq<Step>)
    requires IssuedInPairs(issued) && Play(issued, steps).Some?
    ensures NobodyIsForgotten(Play(issued, steps).value)
    decreases |steps|
  {
    if steps != [] {
      var n := |steps| - 1;
      OrderAlways(issued, steps[..n]);
      NobodyWaitsInVain(issued, steps[..n]);
      NobodyIsForgottenByAStep(Play(issued, steps[..n]).value, steps[n]);
    }
  }

  /** The match ID of the request has been used by a ticket that is still valid. */
  predicate IsUsed(m: Manager, matchID: string) {
    matchID in m.used && m.clock < m.used[matchID]
  }

  /**
   What entering comes to, in every reachable state: the ticket has been used; or the place of its match is free and is
   now held; or the same player holds it; or the opponent does, and the two are paired. Tickets that fail leave every
   place as it was; and no two issued tickets of one match fail to name each other.
   */
  lemma EntryIsDecided(issued: set<Ticket>, steps: seq<Step>, id: nat)
    requires IssuedInPairs(issued) && Play(issued, steps).Some? && Enabled(Play(issued, steps).value, Enter(id))
    ensures var m := Play(issued, steps).value; var t := Do(m, Enter(id));
            var ticket, phase := m.requests[id].ticket, PhaseOf(t, id).value;
            && (forall i :: 0 <= i < |m.requests| && i != id ==> t.requests[i] == m.requests[i])
            && (phase == Failed(TicketUsed) <==> IsUsed(m, ticket.matchID))
            && (phase == Waiting <==> !IsUsed(m, ticket.matchID) && ticket.matchID !in m.waiting)
            && (phase == Failed(SamePlayer)
                <==> !IsUsed(m, ticket.matchID) && WaitsFor(m, ticket.matchID) == Some(ticket.playerID))
            && (phase == Pairing(|m.pairs|)
                <==> !IsUsed(m, ticket.matchID) && WaitsFor(m, ticket.matchID) == Some(ticket.opponentID))
            && (phase.Failed? || phase == Waiting || phase == Pairing(|m.pairs|))
            && (phase.Failed? ==> t.waiting == m.waiting && t.pairs == m.pairs && phase != Failed(Authentication))
            && (phase == Waiting ==> t.waiting == m.waiting[ticket.matchID := id] && t.pairs == m.pairs)
            && (phase.Pairing? ==>
                  && t.waiting == m.waiting - {ticket.matchID} && IsUsedUntil(t, ticket)
                  && t.pairs == m.pairs + [Pair(ticket.matchID, m.waiting[ticket.matchID], id, false)])
  {
    OrderAlways(issued, steps);
    var m := Play(issued, steps).value;
    var ticket := m.requests[id].ticket;
    if ticket.matchID in m.waiting {
      assert WaitsAlone(m, ticket.matchID);
      var other := m.requests[m.waiting[ticket.matchID]].ticket;
      assert ticket in m.issued && other in m.issued;
    }
  }

  /** The player who holds the place of a match. */
  function WaitsFor(m: Manager, matchID: string): Option<string> {
    if matchID in m.waiting && m.waiting[matchID] < |m.requests| then
      Some(m.requests[m.waiting[matchID]].ticket.playerID)
    else None
  }

  predicate IsUsedUntil(m: Manager, ticket: Ticket) {
    ticket.matchID in m.used && m.used[ticket.matchID] == ticket.expiresAt
  }

  // ---------------------------------------------------------------- at most one match per match ID

  /** The ticket whose expiry guards a created match. */
  function Guard(m: Manager, k: nat): Option<Ticket> {
    if k < |m.pairs| && m.pairs[k].second < |m.requests| then Some(m.requests[m.pairs[k].second].ticket) else None
  }

  /** The used entry of a created match stays until the second player's ticket has expired. */
  ghost predicate Guarded(m: Manager) {
    && (forall k :: 0 <= k < |m.pairs| ==>
          && Guard(m, k).Some?
          && (|| m.clock >= Guard(m, k).value.expiresAt
              || (m.pairs[k].matchID in m.used && m.used[m.pairs[k].matchID] == Guard(m, k).value.expiresAt)))
    && (forall k :: 0 <= k < |m.pairs| && m.pairs[k].matchID in m.waiting ==>
          m.waiting[m.pairs[k].matchID] < |m.requests|
          && m.requests[m.waiting[m.pairs[k].matchID]].ticket != Guard(m, k).value)
    && (forall j, k :: 0 <= j < k < |m.pairs| ==> m.pairs[j].matchID != m.pairs[k].matchID)
  }

  /** While the used entry is in place or freshly purged, only the holder of the other ticket can come in. */
  lemma NotTheGuard(m: Manager, id: nat, k: nat)
    requires InOrder(m) && Guarded(m) && Enabled(m, Enter(id)) && Prompt(m, Enter(id)) && k < |m.pairs|
    requires m.pairs[k].matchID == m.requests[id].ticket.matchID
    requires m.requests[id].ticket.matchID !in Purged(m.used, m.clock)
    ensures m.requests[id].ticket != Guard(m, k).value && Guard(m, k).value in m.issued
    ensures Guard(m, k).value.matchID == m.pairs[k].matchID
  {
    assert PairInOrder(m, k);
  }

  lemma NoSecondPair(m: Manager, id: nat, k: nat)
    requires InOrder(m) && Guarded(m) && Enabled(m, Enter(id)) && Prompt(m, Enter(id)) && k < |m.pairs|
    requires Pairs(m, id)
    ensures m.pairs[k].matchID != m.requests[id].ticket.matchID
  {
    var ticket := m.requests[id].ticket;
    if m.pairs[k].matchID == ticket.matchID {
      assert WaitsAlone(m, ticket.matchID);
      NotTheGuard(m, id, k);
    }
  }

  lemma EnterKeepsGuard(m: Manager, id: nat)
    requires InOrder(m) && Guarded(m) && Enabled(m, Enter(id)) && Prompt(m, Enter(id))
    ensures Guarded(Do(m, Enter(id)))
  {
    if Pairs(m, id) {
      PairingKeepsGuard(m, id);
    } else {
      LoneEnterKeepsGuard(m, id);
    }
  }

  lemma PairingKeepsGuard(m: Manager, id: nat)
    requires InOrder(m) && Guarded(m) && Enabled(m, Enter(id)) && Prompt(m, Enter(id)) && Pairs(m, id)
    ensures Guarded(Do(m, Enter(id)))
  {
    var first := PairingFacts(m, id);
    forall k | 0 <= k < |m.pairs|
      ensures m.pairs[k].matchID != m.requests[id].ticket.matchID && m.pairs[k].second < |m.requests|
    {
      assert PairInOrder(m, k);
      NoSecondPair(m, id, k);
    }
    NewPairKeepsGuard(m, Do(m, Enter(id)), first, id);
  }

  lemma NewPairKeepsGuard(m: Manager, t: Manager, first: nat, second: nat)
    requires Guarded(m) && second < |m.requests| && t.clock == m.clock && |t.requests| == |m.requests|
    requires forall i :: 0 <= i < |m.requests| ==> t.requests[i].ticket == m.requests[i].ticket
    requires t.waiting == m.waiting - {m.requests[second].ticket.matchID}
    requires t.used == Purged(m.used, m.clock)[m.requests[second].ticket.matchID := m.requests[second].ticket.expiresAt]
    requires t.pairs == m.pairs + [Pair(m.requests[second].ticket.matchID, first, second, false)]
    requires forall k :: 0 <= k < |m.pairs| ==>
               m.pairs[k].matchID != m.requests[second].ticket.matchID && m.pairs[k].second < |m.requests|
    ensures Guarded(t)
  {
    forall k | 0 <= k < |m.pairs| ensures Guard(t, k) == Guard(m, k) {
    }
  }

  lemma LoneEnterFacts(m: Manager, id: nat)
    requires InOrder(m) && Enabled(m, Enter(id)) && !Pairs(m, id)
    ensures var t, ticket := Do(m, Enter(id)), m.requests[id].ticket;
            && t.pairs == m.pairs && t.clock == m.clock && |t.requests| == |m.requests|
            && (forall i :: 0 <= i < |m.requests| ==> t.requests[i].ticket == m.requests[i].ticket)
            && (t.waiting == m.waiting
                || (t.waiting == m.waiting[ticket.matchID := id] && ticket.matchID !in Purged(m.used, m.clock)))
  {
  }

  lemma LoneEnterKeepsGuard(m: Manager, id: nat)
    requires InOrder(m) && Guarded(m) && Enabled(m, Enter(id)) && Prompt(m, Enter(id)) && !Pairs(m, id)
    ensures Guarded(Do(m, Enter(id)))
  {
    var t := Do(m, Enter(id));
    LoneEnterFacts(m, id);
    forall k | 0 <= k < |m.pairs| && m.pairs[k].matchID in t.waiting
      ensures t.waiting[m.pairs[k].matchID] < |t.requests|
      ensures t.requests[t.waiting[m.pairs[k].matchID]].ticket != Guard(m, k).value
    {
      if t.waiting != m.waiting && m.pairs[k].matchID == m.requests[id].ticket.matchID {
        NotTheGuard(m, id, k);
      }
    }
    UsedEntryStays(m, id);
    GuardCarries(m, t);
  }

  /** The guard depends on tickets, entries and the clock only. */
  lemma GuardCarries(m: Manager, t: Manager)
    requires InOrder(m) && Guarded(m)
    requires |t.pairs| == |m.pairs| && |t.requests| >= |m.requests| && t.clock >= m.clock
    requires forall k :: 0 <= k < |m.pairs| ==>
               t.pairs[k].matchID == m.pairs[k].matchID && t.pairs[k].second == m.pairs[k].second
    requires forall i :: 0 <= i < |m.requests| ==> t.requests[i].ticket == m.requests[i].ticket
    requires forall k :: 0 <= k < |m.pairs| && m.clock < Guard(m, k).value.expiresAt ==>
               m.pairs[k].matchID in t.used && t.used[m.pairs[k].matchID] == Guard(m, k).value.expiresAt
    requires forall k :: 0 <= k < |m.pairs| && m.pairs[k].matchID in t.waiting ==>
               t.waiting[m.pairs[k].matchID] < |t.requests|
               && t.requests[t.waiting[m.pairs[k].matchID]].ticket != Guard(m, k).value
    ensures Guarded(t)
  {
    forall k | 0 <= k < |m.pairs| ensures Guard(t, k) == Guard(m, k) {
      assert PairInOrder(m, k);
    }
  }

  lemma UsedEntryStays(m: Manager, id: nat)
    requires Guarded(m) && Enabled(m, Enter(id))
    ensures var t := Do(m, Enter(id));
            forall k :: 0 <= k < |m.pairs| && m.clock < Guard(m, k).value.expiresAt
                        && m.pairs[k].matchID != m.requests[id].ticket.matchID ==>
              m.pairs[k].matchID in t.used && t.used[m.pairs[k].matchID] == Guard(m, k).value.expiresAt
    ensures var t := Do(m, Enter(id));
            !Pairs(m, id) ==>
            forall k :: 0 <= k < |m.pairs| && m.clock < Guard(m, k).value.expiresAt ==>
              m.pairs[k].matchID in t.used && t.used[m.pairs[k].matchID] == Guard(m, k).value.expiresAt
  {
  }

  lemma OthersKeepGuard(m: Manager, step: Step)
    requires InOrder(m) && Guarded(m) && Enabled(m, step) && !step.Enter?
    ensures Guarded(Do(m, step))
  {
    var t := Do(m, step);
    forall k | 0 <= k < |m.pairs| && m.pairs[k].matchID in t.waiting
      ensures m.pairs[k].matchID in m.waiting
      ensures t.waiting[m.pairs[k].matchID] == m.waiting[m.pairs[k].matchID] < |m.requests|
    {
    }
    GuardCarries(m, t);
  }

  lemma {:induction false} GuardAlways(issued: set<Ticket>, steps: seq<Step>)
    requires IssuedInPairs(issued) && Play(issued, steps).Some? && AllPrompt(issued, steps)
    ensures Guarded(Play(issued, steps).value)
    decreases |steps|
  {
    if steps != [] {
      var n := |steps| - 1;
      OrderAlways(issued, steps[..n]);
      GuardAlways(issued, steps[..n]);
      var m := Play(issued, steps[..n]).value;
      if steps[n].Enter? {
        EnterKeepsGuard(m, steps[n].id);
      } else {
        OthersKeepGuard(m, steps[n]);
      }
    }
  }

  /**
   If every request enters the critical section before its own ticket expires, a match ID is used for one match at
   most, although used entries are purged.
   */
  lemma OneMatchPerID(issued: set<Ticket>, steps: seq<Step>, j: nat, k: nat)
    requires IssuedInPairs(issued) && Play(issued, steps).Some? && AllPrompt(issued, steps)
    requires j < k < |Play(issued, steps).value.pairs|
    ensures Play(issued, steps).value.pairs[j].matchID != Play(issued, steps).value.pairs[k].matchID
  {
    GuardAlways(issued, steps);
  }

  // ---------------------------------------------------------------- the time between check and entry

  /** The clock reading under which a request's ticket was checked. */
  ghost function CheckedAt(issued: set<Ticket>, steps: seq<Step>, id: nat): nat
    decreases |steps|
  {
    if steps == [] then 0
    else
      var n := |steps| - 1;
      var before := Play(issued, steps[..n]);
      if before.Some? && steps[n].Verify? && |before.value.requests| == id then before.value.clock
      else CheckedAt(issued, steps[..n], id)
  }

  /** No request enters more than `lag` after it was checked; with lag 0 both see one reading of the clock. */
  ghost predicate EntersWithin(issued: set<Ticket>, steps: seq<Step>, lag: nat)
    decreases |steps|
  {
    steps != [] ==>
      var n := |steps| - 1;
      && EntersWithin(issued, steps[..n], lag)
      && (steps[n].Enter? && Play(issued, steps[..n]).Some? ==>
            Play(issued, steps[..n]).value.clock <= CheckedAt(issued, steps[..n], steps[n].id) + lag)
  }

  lemma StepsKeepTickets(m: Manager, step: Step)
    requires Enabled(m, step)
    ensures |Do(m, step).requests| == |m.requests| + if step.Verify? then 1 else 0
    ensures forall i :: 0 <= i < |m.requests| ==> Do(m, step).requests[i].ticket == m.requests[i].ticket
    ensures m.clock <= Do(m, step).clock
  {
  }

  lemma {:induction false} CheckedInTime(issued: set<Ticket>, steps: seq<Step>, id: nat)
    requires Play(issued, steps).Some? && id < |Play(issued, steps).value.requests|
    ensures CheckedAt(issued, steps, id) < Play(issued, steps).value.requests[id].ticket.expiresAt
    decreases |steps|
  {
    var n := |steps| - 1;
    var before := Play(issued, steps[..n]).value;
    StepsKeepTickets(before, steps[n]);
    if id < |before.requests| {
      CheckedInTime(issued, steps[..n], id);
    }
  }

  lemma {:induction false} OneReadingIsPrompt(issued: set<Ticket>, steps: seq<Step>)
    requires EntersWithin(issued, steps, 0)
    ensures AllPrompt(issued, steps)
    decreases |steps|
  {
    if steps != [] {
      var n := |steps| - 1;
      OneReadingIsPrompt(issued, steps[..n]);
      if steps[n].Enter? && Play(issued, steps[..n]).Some? && steps[n].id < |Play(issued, steps[..n]).value.requests| {
        CheckedInTime(issued, steps[..n], steps[n].id);
      }
    }
  }

  /** Nobody waits longer than the clock has run. */
  lemma {:induction false} ClockBoundsTheWait(issued: set<Ticket>, steps: seq<Step>, lag: nat)
    requires Play(issued, steps).Some? && Play(issued, steps).value.clock <= lag
    ensures EntersWithin(issued, steps, lag)
    decreases |steps|
  {
    if steps != [] {
      var n := |steps| - 1;
      StepsKeepTickets(Play(issued, steps[..n]).value, steps[n]);
      ClockBoundsTheWait(issued, steps[..n], lag);
    }
  }

  /** Whatever the tickets and the interleaving, no match ID is used twice if entries wait at most `lag`. */
  ghost predicate NeverTwice(lag: nat) {
    forall issued, steps, j: nat, k: nat ::
      IssuedInPairs(issued) && Play(issued, steps).Some? && EntersWithin(issued, steps, lag)
      && j < k < |Play(issued, steps).value.pairs| ==>
        Play(issued, steps).value.pairs[j].matchID != Play(issued, steps).value.pairs[k].matchID
  }

  /** One match per match ID is guaranteed exactly if check and entry see the same reading of the clock. */
  lemma OneMatchPerIDIff(lag: nat)
    ensures NeverTwice(lag) <==> lag == 0
  {
    if lag == 0 {
      forall issued, steps, j: nat, k: nat
        | IssuedInPairs(issued) && Play(issued, steps).Some? && EntersWithin(issued, steps, lag)
          && j < k < |Play(issued, steps).value.pairs|
        ensures Play(issued, steps).value.pairs[j].matchID != Play(issued, steps).value.pairs[k].matchID
      {
        OneReadingIsPrompt(issued, steps);
        OneMatchPerID(issued, steps, j, k);
      }
    } else {
      var issued, steps := LateEntriesRepeatTheMatch();
      ClockBoundsTheWait(issued, steps, lag);
      assert !(Play(issued, steps).value.pairs[0].matchID != Play(issued, steps).value.pairs[1].matchID);
    }
  }

  lemma PlayOn(issued: set<Ticket>, steps: seq<Step>, m: Manager, step: Step)
    requires Play(issued, steps) == Some(m) && Enabled(m, step)
    ensures Play(issued, steps + [step]) == Some(Do(m, step))
  {
    assert (steps + [step])[..|steps + [step]| - 1] == steps;
  }

  /** Two checked requests for each other enter one after the other and are paired. */
  lemma MeetOnce(issued: set<Ticket>, steps: seq<Step>, m: Manager, i: nat, j: nat)
    returns (longer: seq<Step>, t: Manager)
    requires Play(issued, steps) == Some(m) && i < |m.requests| && j < |m.requests| && i != j
    requires m.requests[i].phase == Verified && m.requests[j].phase == Verified
    requires var a, b := m.requests[i].ticket, m.requests[j].ticket;
             && a.matchID == b.matchID && a.playerID == b.opponentID && b.playerID == a.opponentID
             && a.playerID != b.playerID && a.matchID !in Purged(m.used, m.clock) && a.matchID !in m.waiting
    ensures Play(issued, longer) == Some(t) && t.clock == m.clock && t.waiting == m.waiting
    ensures t.pairs == m.pairs + [Pair(m.requests[i].ticket.matchID, i, j, false)]
    ensures t.used == Purged(m.used, m.clock)[m.requests[j].ticket.matchID := m.requests[j].ticket.expiresAt]
    ensures |t.requests| == |m.requests|
    ensures forall n :: 0 <= n < |m.requests| && n != i && n != j ==> t.requests[n] == m.requests[n]
  {
    PlayOn(issued, steps, m, Enter(i));
    var mid := Do(m, Enter(i));
    assert Purged(mid.used, mid.clock) == mid.used;
    PlayOn(issued, steps + [Enter(i)], mid, Enter(j));
    longer, t := steps + [Enter(i)] + [Enter(j)], Do(mid, Enter(j));
    assert t.waiting == m.waiting;
  }

  lemma CheckOnce(issued: set<Ticket>, steps: seq<Step>, m: Manager, ticket: Ticket)
    requires Play(issued, steps) == Some(m) && ticket in m.issued && m.clock < ticket.expiresAt
    ensures Play(issued, steps + [Verify(ticket)]) == Some(m.(requests := m.requests + [Request(ticket, Verified)]))
  {
    PlayOn(issued, steps, m, Verify(ticket));
  }

  /**
   Promptness matters: `Authenticate` reads the clock once to check the ticket and again to purge used entries. Two
   repeated requests that are checked just before the expiry and enter just after it create the match again.
   */
  lemma LateEntriesRepeatTheMatch() returns (issued: set<Ticket>, steps: seq<Step>)
    ensures IssuedInPairs(issued) && Play(issued, steps).Some? && |Play(issued, steps).value.pairs| == 2
    ensures Play(issued, steps).value.pairs[0].matchID == Play(issued, steps).value.pairs[1].matchID
    ensures Play(issued, steps).value.clock == 1 && !AllPrompt(issued, steps)
  {
    var a, b := Ticket("match", "a", "b", 1), Ticket("match", "b", "a", 1);
    issued := {a, b};
    var m := Manager(0, issued, [], map[], map[], []);
    CheckOnce(issued, [], m, a);
    m := m.(requests := m.requests + [Request(a, Verified)]);
    CheckOnce(issued, [] + [Verify(a)], m, b);
    m := m.(requests := m.requests + [Request(b, Verified)]);
    CheckOnce(issued, [] + [Verify(a)] + [Verify(b)], m, a);
    m := m.(requests := m.requests + [Request(a, Verified)]);
    CheckOnce(issued, [] + [Verify(a)] + [Verify(b)] + [Verify(a)], m, b);
    m := m.(requests := m.requests + [Request(b, Verified)]);
    steps := [] + [Verify(a)] + [Verify(b)] + [Verify(a)] + [Verify(b)];
    steps, m := MeetOnce(issued, steps, m, 0, 1);
    PlayOn(issued, steps, m, Clock);
    steps, m := steps + [Clock], Do(m, Clock);
    assert "match" !in Purged(m.used, m.clock);
    steps, m := MeetOnce(issued, steps, m, 2, 3);
    if AllPrompt(issued, steps) {
      OneMatchPerID(issued, steps, 0, 1);
    }
  }
}
