/**
 The matchmaking queue. A player who leaves or whose entry expires stays behind in the `waiting` list as a stale
 name; the list is cleaned only as names are popped. The theorems say that this laziness never costs anybody a match.

 Signing a ticket is total here apart from the guard it starts with; match IDs are fresh names handed in.
 */
module Matchmaking {
  import opened RoomModel

  datatype Entry =
    | InQueue(joinedAt: int)
    | Matched(matchID: string, opponentID: string, ticket: Ticket, expiry: int, joinedAt: int)

  datatype Ticket = Ticket(matchID: string, playerID: string, opponentID: string)

  datatype Result = NotQueued | Waiting | Found(matchID: string, opponentID: string, ticket: Ticket, expiry: int)

  datatype Queue = Queue(entries: map<string, Entry>, waiting: seq<string>)

  const EMPTY_QUEUE := Queue(map[], [])

  /** What the ticket manager's `Issue` checks before it signs. */
  function Issue(matchID: string, playerID: string, opponentID: string): Option<Ticket> {
    if matchID == "" || playerID == "" || opponentID == "" || playerID == opponentID then None
    else Some(Ticket(matchID, playerID, opponentID))
  }

  predicate Expired(e: Entry, now: int, ttl: int) {
    match e
    case InQueue(joinedAt) => now - joinedAt >= ttl
    case Matched(_, _, _, expiry, _) => now >= expiry
  }

  function Purged(entries: map<string, Entry>, now: int, ttl: int): map<string, Entry> {
    map p | p in entries && !Expired(entries[p], now, ttl) :: entries[p]
  }

  function ResultOf(e: Entry): Result {
    match e
    case InQueue(_) => Waiting
    case Matched(matchID, opponentID, ticket, expiry, _) => Found(matchID, opponentID, ticket, expiry)
  }

  predicate IsWaiting(entries: map<string, Entry>, p: string) {
    p in entries && entries[p].InQueue?
  }

  /** The first name on the list that still waits and is not the asking player, and the list after it. */
  function NextWaiting(q: Queue, playerID: string): (Option<string>, seq<string>)
    decreases |q.waiting|
  {
    if q.waiting == [] then (None, [])
    else if q.waiting[0] != playerID && IsWaiting(q.entries, q.waiting[0]) then (Some(q.waiting[0]), q.waiting[1..])
    else NextWaiting(q.(waiting := q.waiting[1..]), playerID)
  }

  function Joined(q: Queue, playerID: string, now: int, ttl: int, matchID: string, expiry: int)
    : (Queue, Option<Result>)
  {
    if playerID == "" then (q, None)
    else
      var p := q.(entries := Purged(q.entries, now, ttl));
      if playerID in p.entries then (p, Some(ResultOf(p.entries[playerID])))
      else
        var (opponent, left) := NextWaiting(p, playerID);
        match opponent
        case None => (Queue(p.entries[playerID := InQueue(now)], left + [playerID]), Some(Waiting))
        case Some(opponentID) =>
          (match (Issue(matchID, playerID, opponentID), Issue(matchID, opponentID, playerID))
           case (Some(mine), Some(theirs)) =>
             (Queue(p.entries[playerID := Matched(matchID, opponentID, mine, expiry, now)]
                             [opponentID := Matched(matchID, playerID, theirs, expiry, now)], left),
              Some(Found(matchID, opponentID, mine, expiry)))
           case _ => (p.(waiting := left), None))
  }

  function Left(q: Queue, playerID: string): Queue {
    q.(entries := q.entries - {playerID})
  }

  class Service {
    const waitingTTL: int
    var entries: map<string, Entry>
    var waiting: seq<string>

    ghost function Value(): Queue
      reads this
    {
      Queue(entries, waiting)
    }

    constructor (waitingTTL: int)
      ensures Value() == EMPTY_QUEUE && this.waitingTTL == waitingTTL
    {
      this.waitingTTL := waitingTTL;
      entries, waiting := map[], [];
    }

    /** `now`, `matchID` and `expiry` are what the clock, the UUID generator and the signer return in this call. */
    method Join(playerID: string, now: int, matchID: string, expiry: int) returns (result: Option<Result>)
      modifies this
      ensures (Value(), result) == Joined(old(Value()), playerID, now, waitingTTL, matchID, expiry)
    {
      if playerID == "" {
        return None;
      }
      PurgeExpired(now);
      if playerID in entries {
        return Some(ResultOf(entries[playerID]));
      }
      var opponent := PopWaiting(playerID);
      if opponent.None? {
        entries := entries[playerID := InQueue(now)];
        waiting := waiting + [playerID];
        return Some(Waiting);
      }
      var mine := Issue(matchID, playerID, opponent.value);
      if mine.None? {
        return None;
      }
      var theirs := Issue(matchID, opponent.value, playerID);
      if theirs.None? {
        return None;
      }
      entries := entries[playerID := Matched(matchID, opponent.value, mine.value, expiry, now)];
      entries := entries[opponent.value := Matched(matchID, playerID, theirs.value, expiry, now)];
      return Some(Found(matchID, opponent.value, mine.value, expiry));
    }

    method PlayerStatus(playerID: string, now: int) returns (result: Result)
      modifies this
      ensures Value() == old(Value()).(entries := Purged(old(entries), now, waitingTTL))
      ensures result == if playerID in entries then ResultOf(entries[playerID]) else NotQueued
    {
      PurgeExpired(now);
      if playerID in entries {
        return ResultOf(entries[playerID]);
      }
      return NotQueued;
    }

    method Leave(playerID: string)
      modifies this
      ensures Value() == Left(old(Value()), playerID)
    {
      entries := entries - {playerID};
    }

    method PopWaiting(playerID: string) returns (opponent: Option<string>)
      modifies `waiting
      ensures (opponent, waiting) == NextWaiting(old(Value()), playerID)
    {
      while |waiting| > 0
        invariant NextWaiting(Value(), playerID) == NextWaiting(old(Value()), playerID)
        decreases |waiting|
      {
        var candidate := waiting[0];
        waiting := waiting[1..];
        if candidate != playerID {
          if candidate in entries && entries[candidate].InQueue? {
            return Some(candidate);
          }
        }
      }
      return None;
    }

    method PurgeExpired(now: int)
      modifies `entries
      ensures entries == Purged(old(entries), now, waitingTTL)
    {
      var todo := entries.Keys;
      while todo != {}
        invariant todo <= old(entries).Keys
        invariant forall p :: p in entries <==>
                    p in old(entries) && (p in todo || !Expired(old(entries)[p], now, waitingTTL))
        invariant forall p :: p in entries ==> entries[p] == old(entries)[p]
        decreases |todo|
      {
        var p :| p in todo;
        todo := todo - {p};
        if Expired(entries[p], now, waitingTTL) {
          entries := entries - {p};
        }
      }
    }
  }

  // ---------------------------------------------------------------- what holds in every reachable state

  datatype Call =
    | Joins(playerID: string, now: int, matchID: string, expiry: int)
    | Asks(now: int)
    | Leaves(playerID: string)

  /** Match IDs are fresh: neither empty nor used by an earlier call. */
  ghost predicate FreshIDs(calls: seq<Call>) {
    forall i :: 0 <= i < |calls| && calls[i].Joins? ==>
      calls[i].matchID != "" && forall j :: 0 <= j < i && calls[j].Joins? ==> calls[j].matchID != calls[i].matchID
  }

  function Serve(q: Queue, call: Call, ttl: int): Queue {
    match call
    case Joins(playerID, now, matchID, expiry) => Joined(q, playerID, now, ttl, matchID, expiry).0
    case Asks(now) => q.(entries := Purged(q.entries, now, ttl))
    case Leaves(playerID) => Left(q, playerID)
  }

  function Run(calls: seq<Call>, ttl: int): Queue {
    if calls == [] then EMPTY_QUEUE else Serve(Run(calls[..|calls| - 1], ttl), calls[|calls| - 1], ttl)
  }

  ghost predicate Lined(q: Queue) {
    && (forall p :: IsWaiting(q.entries, p) ==> p in q.waiting)
    && (forall p, r :: IsWaiting(q.entries, p) && IsWaiting(q.entries, r) ==> p == r)
    && "" !in q.waiting
  }

  /** Two entries of one match name each other, and carry tickets that say so. */
  ghost predicate Coupled(q: Queue) {
    && (forall p, r :: p in q.entries && r in q.entries && p != r && q.entries[p].Matched? && q.entries[r].Matched?
                       && q.entries[p].matchID == q.entries[r].matchID ==>
          q.entries[p].opponentID == r && q.entries[r].opponentID == p)
    && (forall p :: p in q.entries && q.entries[p].Matched? ==>
          q.entries[p].opponentID != p
          && q.entries[p].ticket == Ticket(q.entries[p].matchID, p, q.entries[p].opponentID))
  }

  ghost predicate UsesOnly(q: Queue, ids: set<string>) {
    forall p :: p in q.entries && q.entries[p].Matched? ==> q.entries[p].matchID in ids
  }

  /** Popping finds exactly the one who waits, if that is not the asker, however many stale names come first. */
  lemma {:induction false} NextWaitingFinds(q: Queue, playerID: string)
    requires !IsWaiting(q.entries, playerID)
    requires forall p :: IsWaiting(q.entries, p) ==> p in q.waiting
    requires forall p, r :: IsWaiting(q.entries, p) && IsWaiting(q.entries, r) ==> p == r
    ensures var (opponent, left) := NextWaiting(q, playerID);
            && (opponent.Some? <==> exists p :: IsWaiting(q.entries, p))
            && (opponent.Some? ==> IsWaiting(q.entries, opponent.value) && opponent.value in q.waiting)
            && (forall p :: p in left ==> p in q.waiting)
            && (opponent.None? ==> left == [])
    decreases |q.waiting|
  {
    if q.waiting == [] {
      assert !exists p :: IsWaiting(q.entries, p);
    } else if !IsWaiting(q.entries, q.waiting[0]) {
      assert q.waiting == [q.waiting[0]] + q.waiting[1..];
      NextWaitingFinds(q.(waiting := q.waiting[1..]), playerID);
    }
  }

  lemma PurgeKeeps(q: Queue, now: int, ttl: int, ids: set<string>)
    requires Lined(q) && Coupled(q) && UsesOnly(q, ids)
    ensures var p := q.(entries := Purged(q.entries, now, ttl)); Lined(p) && Coupled(p) && UsesOnly(p, ids)
  {
    forall p | IsWaiting(Purged(q.entries, now, ttl), p) ensures IsWaiting(q.entries, p) {
    }
  }

  lemma JoinKeeps(q: Queue, playerID: string, now: int, ttl: int, matchID: string, expiry: int, ids: set<string>)
    requires Lined(q) && Coupled(q) && UsesOnly(q, ids) && matchID != "" && matchID !in ids
    ensures var t := Joined(q, playerID, now, ttl, matchID, expiry).0;
            Lined(t) && Coupled(t) && UsesOnly(t, ids + {matchID})
  {
    PurgeKeeps(q, now, ttl, ids);
    var p := q.(entries := Purged(q.entries, now, ttl));
    if playerID != "" && playerID !in p.entries {
      NextWaitingFinds(p, playerID);
      var (opponent, left) := NextWaiting(p, playerID);
      if opponent.None? {
        EnterKeeps(p, playerID, now, left, ids);
      } else {
        PairKeeps(p, playerID, opponent.value, left, matchID, expiry, now, ids);
      }
    }
  }

  lemma EnterKeeps(q: Queue, playerID: string, now: int, left: seq<string>, ids: set<string>)
    requires Lined(q) && Coupled(q) && UsesOnly(q, ids) && playerID != "" && playerID !in q.entries && left == []
    requires !exists p :: IsWaiting(q.entries, p)
    ensures var t := Queue(q.entries[playerID := InQueue(now)], left + [playerID]);
            Lined(t) && Coupled(t) && UsesOnly(t, ids)
  {
    var t := Queue(q.entries[playerID := InQueue(now)], left + [playerID]);
    forall p | IsWaiting(t.entries, p) ensures p == playerID {
      assert p != playerID ==> IsWaiting(q.entries, p);
    }
  }

  /** The queue after a pairing, with the rest of the list. */
  function Paired(q: Queue, playerID: string, opponentID: string, left: seq<string>, matchID: string, expiry: int,
                  now: int): Queue
  {
    var mine, theirs := Ticket(matchID, playerID, opponentID), Ticket(matchID, opponentID, playerID);
    Queue(q.entries[playerID := Matched(matchID, opponentID, mine, expiry, now)]
                   [opponentID := Matched(matchID, playerID, theirs, expiry, now)], left)
  }

  lemma PairKeeps(q: Queue, playerID: string, opponentID: string, left: seq<string>, matchID: string, expiry: int,
                  now: int, ids: set<string>)
    requires Lined(q) && Coupled(q) && UsesOnly(q, ids) && matchID !in ids
    requires playerID != "" && opponentID != "" && playerID !in q.entries && IsWaiting(q.entries, opponentID)
    requires forall p :: p in left ==> p in q.waiting
    ensures var t := Paired(q, playerID, opponentID, left, matchID, expiry, now);
            Lined(t) && Coupled(t) && UsesOnly(t, ids + {matchID})
  {
    var t := Paired(q, playerID, opponentID, left, matchID, expiry, now);
    forall p ensures !IsWaiting(t.entries, p) {
      assert IsWaiting(t.entries, p) ==> IsWaiting(q.entries, p);
    }
  }

  function UsedIDs(calls: seq<Call>): set<string> {
    set i | 0 <= i < |calls| && calls[i].Joins? :: calls[i].matchID
  }

  lemma {:induction false} QueueIsInOrder(calls: seq<Call>, ttl: int)
    requires FreshIDs(calls)
    ensures Lined(Run(calls, ttl)) && Coupled(Run(calls, ttl)) && UsesOnly(Run(calls, ttl), UsedIDs(calls))
    decreases |calls|
  {
    if calls != [] {
      var n := |calls| - 1;
      var before, call := calls[..n], calls[n];
      QueueIsInOrder(before, ttl);
      var q := Run(before, ttl);
      match call {
        case Joins(playerID, now, matchID, expiry) =>
          JoinKeeps(q, playerID, now, ttl, matchID, expiry, UsedIDs(before));
          assert UsedIDs(calls) == UsedIDs(before) + {matchID} by {
            forall i | 0 <= i < |calls| && calls[i].Joins? ensures calls[i].matchID in UsedIDs(before) + {matchID} {
              assert i < n ==> before[i] == calls[i];
            }
            forall id | id in UsedIDs(before) ensures id in UsedIDs(calls) {
              var i :| 0 <= i < |before| && before[i].Joins? && before[i].matchID == id;
              assert calls[i] == before[i];
            }
          }
        case Asks(now) =>
          PurgeKeeps(q, now, ttl, UsedIDs(before));
          SameIDs(before, call);
        case Leaves(playerID) =>
          SameIDs(before, call);
          forall p | IsWaiting(Left(q, playerID).entries, p) ensures IsWaiting(q.entries, p) {
          }
      }
    }
  }

  lemma SameIDs(calls: seq<Call>, call: Call)
    ensures UsedIDs(calls) <= UsedIDs(calls + [call])
  {
    forall id | id in UsedIDs(calls) ensures id in UsedIDs(calls + [call]) {
      var i :| 0 <= i < |calls| && calls[i].Joins? && calls[i].matchID == id;
      assert (calls + [call])[i] == calls[i];
    }
  }

  /**
   In every reachable state at most one player waits, and is on the list; and any two entries of one match name each
   other.
   */
  lemma AtMostOneWaits(calls: seq<Call>, ttl: int, p: string, r: string)
    requires FreshIDs(calls) && p in Run(calls, ttl).entries && r in Run(calls, ttl).entries && p != r
    ensures var q := Run(calls, ttl);
            && !(IsWaiting(q.entries, p) && IsWaiting(q.entries, r))
            && (IsWaiting(q.entries, p) ==> p in q.waiting)
            && (q.entries[p].Matched? && q.entries[r].Matched? && q.entries[p].matchID == q.entries[r].matchID ==>
                  q.entries[p].opponentID == r && q.entries[r].opponentID == p)
  {
    QueueIsInOrder(calls, ttl);
  }

  /** The pairing a newcomer is owed: with whoever waits, told to both of them. */
  ghost predicate PairedUp(t: Queue, result: Result, playerID: string, opponentID: string, matchID: string,
                           expiry: int)
  {
    && playerID != opponentID && playerID in t.entries && opponentID in t.entries
    && result == Found(matchID, opponentID, Ticket(matchID, playerID, opponentID), expiry)
    && ResultOf(t.entries[playerID]) == result
    && ResultOf(t.entries[opponentID]) == Found(matchID, playerID, Ticket(matchID, opponentID, playerID), expiry)
  }

  lemma NewcomerIsServed(q: Queue, playerID: string, now: int, ttl: int, matchID: string, expiry: int)
    requires Lined(q) && playerID != "" && matchID != ""
    requires Lined(q.(entries := Purged(q.entries, now, ttl))) && playerID !in Purged(q.entries, now, ttl)
    ensures var left := Purged(q.entries, now, ttl);
            var (t, result) := Joined(q, playerID, now, ttl, matchID, expiry);
            && result.Some?
            && (forall w :: IsWaiting(left, w) ==> PairedUp(t, result.value, playerID, w, matchID, expiry))
            && ((forall w :: !IsWaiting(left, w)) ==> result.value == Waiting && IsWaiting(t.entries, playerID))
  {
    var p := q.(entries := Purged(q.entries, now, ttl));
    NextWaitingFinds(p, playerID);
    var (opponent, left) := NextWaiting(p, playerID);
    if opponent.Some? {
      assert IsWaiting(p.entries, opponent.value) && opponent.value != "" && opponent.value != playerID;
      assert Issue(matchID, playerID, opponent.value).Some? && Issue(matchID, opponent.value, playerID).Some?;
    }
  }

  /**
   Work conservation: a player who joins and is in no entry is paired with the one who waits, if anybody unexpired
   does, and otherwise becomes the one who waits. Joining fails only for the empty name; in particular the guard of
   `Issue` never fires after an opponent has been popped.
   */
  lemma JoiningNeverWastesAWait(calls: seq<Call>, ttl: int, playerID: string, now: int, matchID: string, expiry: int)
    requires FreshIDs(calls + [Joins(playerID, now, matchID, expiry)]) && playerID != ""
    ensures var q := Run(calls, ttl); var left := Purged(q.entries, now, ttl);
            var (t, result) := Joined(q, playerID, now, ttl, matchID, expiry);
            && result.Some?
            && (playerID in left ==> result.value == ResultOf(left[playerID]) && t.entries == left)
            && (playerID !in left ==>
                  && (forall w :: IsWaiting(left, w) ==> PairedUp(t, result.value, playerID, w, matchID, expiry))
                  && ((forall w :: !IsWaiting(left, w)) ==> result.value == Waiting && IsWaiting(t.entries, playerID)))
  {
    var all := calls + [Joins(playerID, now, matchID, expiry)];
    assert all[|calls|].matchID == matchID;
    forall i | 0 <= i < |calls| ensures all[i] == calls[i] {
    }
    QueueIsInOrder(calls, ttl);
    var q := Run(calls, ttl);
    PurgeKeeps(q, now, ttl, UsedIDs(calls));
    if playerID !in Purged(q.entries, now, ttl) {
      NewcomerIsServed(q, playerID, now, ttl, matchID, expiry);
    }
  }

  // ---------------------------------------------------------------- leaving and expiring

  /** No call of this kind lets the player in again. */
  ghost predicate StaysAway(calls: seq<Call>, playerID: string) {
    forall i :: 0 <= i < |calls| && calls[i].Joins? ==> calls[i].playerID != playerID
  }

  /** The player is in no entry, and named by none but those that were there before. */
  ghost predicate IsGone(q: Queue, before: Queue, playerID: string) {
    && playerID !in q.entries
    && forall r :: r in q.entries && q.entries[r].Matched? && q.entries[r].opponentID == playerID ==>
         r in before.entries && before.entries[r] == q.entries[r]
  }

  lemma {:induction false} NextWaitingWaits(q: Queue, playerID: string)
    ensures var (opponent, _) := NextWaiting(q, playerID);
            opponent.Some? ==> IsWaiting(q.entries, opponent.value) && opponent.value != playerID
    decreases |q.waiting|
  {
    if q.waiting != [] {
      NextWaitingWaits(q.(waiting := q.waiting[1..]), playerID);
    }
  }

  lemma JoinKeepsGone(q: Queue, before: Queue, gone: string, playerID: string, now: int, ttl: int, matchID: string,
                      expiry: int)
    requires IsGone(q, before, gone) && playerID != gone
    ensures IsGone(Joined(q, playerID, now, ttl, matchID, expiry).0, before, gone)
  {
    var p := q.(entries := Purged(q.entries, now, ttl));
    NextWaitingWaits(p, playerID);
    var (opponent, left) := NextWaiting(p, playerID);
    var t := Joined(q, playerID, now, ttl, matchID, expiry).0;
    forall r | r in t.entries && t.entries[r].Matched? && t.entries[r].opponentID == gone
      ensures r in before.entries && before.entries[r] == t.entries[r]
    {
      assert r in q.entries && t.entries[r] == q.entries[r];
    }
  }

  /**
   Whoever has left and does not join again is in no entry from then on and nobody's new opponent, whatever name has
   stayed on the list.
   */
  lemma {:induction false} LeavingIsForGood(calls: seq<Call>, playerID: string, later: seq<Call>, ttl: int)
    requires StaysAway(later, playerID)
    ensures IsGone(Run(calls + [Leaves(playerID)] + later, ttl), Run(calls, ttl), playerID)
    decreases |later|
  {
    var all := calls + [Leaves(playerID)] + later;
    if later == [] {
      assert all[..|all| - 1] == calls;
    } else {
      var n := |later| - 1;
      assert all[..|all| - 1] == calls + [Leaves(playerID)] + later[..n] && all[|all| - 1] == later[n];
      LeavingIsForGood(calls, playerID, later[..n], ttl);
      if later[n].Joins? {
        var q := Run(calls + [Leaves(playerID)] + later[..n], ttl);
        JoinKeepsGone(q, Run(calls, ttl), playerID, later[n].playerID, later[n].now, ttl, later[n].matchID,
                      later[n].expiry);
      }
    }
  }

  /** A status call keeps exactly the entries whose time is not up: the waiting time, or that of the ticket. */
  lemma EntriesLast(q: Queue, now: int, ttl: int, p: string)
    ensures var t := Serve(q, Asks(now), ttl);
            && (p in t.entries <==> p in q.entries && match q.entries[p]
                                                     case InQueue(joinedAt) => now < joinedAt + ttl
                                                     case Matched(_, _, _, expiry, _) => now < expiry)
            && (p in t.entries ==> t.entries[p] == q.entries[p]) && t.waiting == q.waiting
  {
  }

  /** A player who has just joined and waits is found by anybody else who joins within the time it waits. */
  lemma WaitersAreFound(calls: seq<Call>, ttl: int, first: Call, second: Call)
    requires first.Joins? && second.Joins? && FreshIDs(calls + [first, second]) && first.playerID != second.playerID
    requires first.playerID != "" && second.playerID != "" && second.now < first.now + ttl
    requires Joined(Run(calls, ttl), first.playerID, first.now, ttl, first.matchID, first.expiry).1 == Some(Waiting)
    requires first.playerID !in Purged(Run(calls, ttl).entries, first.now, ttl)
    requires second.playerID !in Run(calls, ttl).entries
    ensures var (t, result) := Joined(Run(calls + [first], ttl), second.playerID, second.now, ttl, second.matchID,
                                      second.expiry);
            result.Some? && PairedUp(t, result.value, second.playerID, first.playerID, second.matchID, second.expiry)
  {
    var before := calls + [first];
    assert before + [second] == calls + [first, second] && before[..|calls|] == calls;
    forall i | 0 <= i < |before| ensures before[i] == (calls + [first, second])[i] {
    }
    var q := Run(calls, ttl);
    FreshUpTo(calls + [first, second], |before|);
    assert (calls + [first, second])[..|before|] == before;
    FreshUpTo(before, |calls|);
    JoiningNeverWastesAWait(calls, ttl, first.playerID, first.now, first.matchID, first.expiry);
    JoinerWaits(q, first, ttl);
    JoiningNeverWastesAWait(before, ttl, second.playerID, second.now, second.matchID, second.expiry);
    assert IsWaiting(Purged(Run(before, ttl).entries, second.now, ttl), first.playerID);
  }

  lemma FreshUpTo(calls: seq<Call>, n: nat)
    requires FreshIDs(calls) && n <= |calls|
    ensures FreshIDs(calls[..n])
  {
  }

  lemma JoinerWaits(q: Queue, call: Call, ttl: int)
    requires call.Joins? && call.playerID !in Purged(q.entries, call.now, ttl) && call.playerID != ""
    requires Joined(q, call.playerID, call.now, ttl, call.matchID, call.expiry).1 == Some(Waiting)
    ensures var t := Serve(q, call, ttl);
            && call.playerID in t.entries && t.entries[call.playerID] == InQueue(call.now)
            && forall p :: p in t.entries ==> p == call.playerID || p in q.entries
  {
    NextWaitingWaits(q.(entries := Purged(q.entries, call.now, ttl)), call.playerID);
  }
}
