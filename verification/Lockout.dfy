/**
 The price of the input-tick guard. The room accepts an input only up to 120 ticks past the last one it accepted, while
 the client's ticks run on whether or not its datagrams arrive: a player whose datagrams are lost for that long is
 locked out for the rest of the match. Here is exactly when.
 */
module Lockout {
  import opened RoomModel
  import opened RoomSlots
  import opened RoomLifecycle
  import opened RoomCommands
  import opened ActionQueue
  import opened MatchController
  import opened Delivery

  // ---------------------------------------------------------------- runs of the room

  /** The input is this player's, and passes the tick guard. */
  predicate InReach(slot: Slot, e: Event) {
    e.Deliver? && e.id == slot.player.id && InTime(slot, e.input)
  }

  /** Some input of the player is accepted, at its turn in the run. */
  ghost predicate SomeAccepted(s: State, events: seq<Event>, side: Side) {
    exists i :: 0 <= i < |events| && InReach(SlotOf(Run(s, events[..i]), side), events[i])
  }

  ghost predicate NoneAccepted(s: State, events: seq<Event>, side: Side) {
    forall i :: 0 <= i < |events| ==> !InReach(SlotOf(Run(s, events[..i]), side), events[i])
  }

  /** The names and this player's guard are the same in both states. */
  ghost predicate SameGuard(s: State, t: State, side: Side) {
    && SlotOf(t, side).lastInputTick == SlotOf(s, side).lastInputTick
    && t.a.player.id == s.a.player.id && t.b.player.id == s.b.player.id
  }

  lemma SameGuardSameReach(s: State, t: State, side: Side, e: Event)
    requires SameGuard(s, t, side)
    ensures InReach(SlotOf(t, side), e) <==> InReach(SlotOf(s, side), e)
  {
  }

  lemma RefusedChangesNothing(s: State, id: string, input: Input, side: Side)
    requires s.a.player.id != s.b.player.id && !InReach(SlotOf(s, side), Deliver(id, input))
    ensures SameGuard(s, Submit(s, id, input), side)
  {
    InputsAreRecorded(s, id, input, side);
    SubmitPreservesAllButQueues(s, id, input);
  }

  /** An event that delivers nothing acceptable leaves them as they were. */
  lemma GuardStays(s: State, e: Event, side: Side)
    requires s.a.player.id != s.b.player.id && !InReach(SlotOf(s, side), e)
    ensures SameGuard(s, Apply(s, e), side)
  {
    match e
    case Deliver(id, input) => RefusedChangesNothing(s, id, input, side);
    case Tick =>
      NamesAreKept(s);
      if s.status == MatchActive {
        TickSlotFrame(s.rules, s.tick + 1, SlotOf(s, side));
        var damage := ActiveSlot(s, side);
      }
  }

  lemma {:induction false} GuardStaysOverRuns(s: State, events: seq<Event>, side: Side)
    requires s.a.player.id != s.b.player.id && NoneAccepted(s, events, side)
    ensures SameGuard(s, Run(s, events), side)
    decreases |events|
  {
    if events != [] {
      var n := |events| - 1;
      forall i | 0 <= i < n ensures !InReach(SlotOf(Run(s, events[..n][..i]), side), events[..n][i]) {
        assert events[..n][..i] == events[..i];
      }
      GuardStaysOverRuns(s, events[..n], side);
      GuardStays(Run(s, events[..n]), events[n], side);
    }
  }

  /** Up to the first accepted input the guard is still the one at the start. */
  lemma ReachIsTheStarts(s: State, events: seq<Event>, side: Side, i: nat)
    requires s.a.player.id != s.b.player.id && i < |events| && NoneAccepted(s, events[..i], side)
    ensures InReach(SlotOf(Run(s, events[..i]), side), events[i]) <==> InReach(SlotOf(s, side), events[i])
  {
    GuardStaysOverRuns(s, events[..i], side);
    SameGuardSameReach(s, Run(s, events[..i]), side, events[i]);
  }

  lemma {:induction false} FirstAccepted(s: State, events: seq<Event>, side: Side, i: nat) returns (first: nat)
    requires i < |events| && InReach(SlotOf(Run(s, events[..i]), side), events[i])
    ensures first <= i && InReach(SlotOf(Run(s, events[..first]), side), events[first])
    ensures NoneAccepted(s, events[..first], side)
    decreases i
  {
    first := i;
    if j :| 0 <= j < i && InReach(SlotOf(Run(s, events[..j]), side), events[j]) {
      first := FirstAccepted(s, events, side, j);
    } else {
      forall j | 0 <= j < i ensures !InReach(SlotOf(Run(s, events[..i][..j]), side), events[..i][j]) {
        assert events[..i][..j] == events[..j];
      }
    }
  }

  /**
   Over any run, with ticks and the opponent's inputs in it: some input of the player is accepted exactly if one is
   delivered that is within reach already at the start.
   */
  lemma AcceptedIffInReach(s: State, events: seq<Event>, side: Side)
    requires s.a.player.id != s.b.player.id
    ensures SomeAccepted(s, events, side) <==> exists e :: e in events && InReach(SlotOf(s, side), e)
  {
    if SomeAccepted(s, events, side) {
      var i :| 0 <= i < |events| && InReach(SlotOf(Run(s, events[..i]), side), events[i]);
      var first := FirstAccepted(s, events, side, i);
      ReachIsTheStarts(s, events, side, first);
      assert events[first] in events;
    } else if exists e :: e in events && InReach(SlotOf(s, side), e) {
      var e :| e in events && InReach(SlotOf(s, side), e);
      var j :| 0 <= j < |events| && events[j] == e;
      forall i | 0 <= i < j ensures !InReach(SlotOf(Run(s, events[..j][..i]), side), events[..j][i]) {
        assert events[..j][..i] == events[..i];
      }
      ReachIsTheStarts(s, events, side, j);
    }
  }

  /** Once all that is still delivered of a player is out of reach, the guard never moves again. */
  lemma LockedOutForGood(s: State, events: seq<Event>, side: Side)
    requires s.a.player.id != s.b.player.id && forall e :: e in events ==> !InReach(SlotOf(s, side), e)
    ensures NoneAccepted(s, events, side) && SameGuard(s, Run(s, events), side)
  {
    AcceptedIffInReach(s, events, side);
    assert !SomeAccepted(s, events, side);
    GuardStaysOverRuns(s, events, side);
  }

  // ---------------------------------------------------------------- executions of the whole system

  function Mine(s: System): Slot {
    SlotOf(s.room, s.side)
  }

  /** What an action does to the room. */
  function RoomEvent(localID: string, action: Delivery.Action): seq<Event> {
    match action
    case RoomReceives(datagram) => [Deliver(localID, datagram)]
    case RoomReceivesFromOther(id, input) => [Deliver(id, input)]
    case RoomTicks => [Tick]
    case _ => []
  }

  function RoomEvents(localID: string, actions: seq<Delivery.Action>): seq<Event> {
    if actions == [] then []
    else RoomEvents(localID, actions[..|actions| - 1]) + RoomEvent(localID, actions[|actions| - 1])
  }

  lemma LastStep(s: System, actions: seq<Delivery.Action>, end: System) returns (mid: System)
    requires actions != [] && Execution(s, actions, end)
    ensures var n := |actions| - 1;
            Execution(s, actions[..n], mid) && Possible(mid, actions[n]) && end == Next(mid, actions[n])
  {
    var n := |actions| - 1;
    mid :| Execution(s, actions[..n], mid) && Possible(mid, actions[n]) && end == Next(mid, actions[n]);
  }

  lemma OneEvent(s: State, e: Event)
    ensures Run(s, [e]) == Apply(s, e)
  {
    RunOn(s, [], e);
    assert [] + [e] == [e];
  }

  lemma NextFollows(s: System, action: Delivery.Action)
    requires Possible(s, action)
    ensures var t := Next(s, action);
            && t.room == Run(s.room, RoomEvent(s.client.localPlayerID, action)) && t.side == s.side
            && t.client.localPlayerID == s.client.localPlayerID
  {
    match action
    case RoomReceives(datagram) => OneEvent(s.room, Deliver(s.client.localPlayerID, datagram));
    case RoomReceivesFromOther(id, input) => OneEvent(s.room, Deliver(id, input));
    case RoomTicks => OneEvent(s.room, Tick);
    case _ =>
  }

  lemma {:induction false} RoomFollows(s: System, actions: seq<Delivery.Action>, end: System)
    requires Execution(s, actions, end)
    ensures end.room == Run(s.room, RoomEvents(s.client.localPlayerID, actions)) && end.side == s.side
    ensures end.client.localPlayerID == s.client.localPlayerID
    decreases |actions|
  {
    if actions != [] {
      var n, localID := |actions| - 1, s.client.localPlayerID;
      var mid := LastStep(s, actions, end);
      RoomFollows(s, actions[..n], mid);
      NextFollows(mid, actions[n]);
      RunAppend(s.room, RoomEvents(localID, actions[..n]), RoomEvent(localID, actions[n]));
    }
  }

  lemma OneDelivered(s: System, action: Delivery.Action, e: Event)
    requires Possible(s, action) && e.Deliver? && e.id == s.client.localPlayerID
    ensures e in RoomEvent(s.client.localPlayerID, action) <==> action == RoomReceives(e.input)
  {
  }

  lemma InAppended<T>(x: T, xs: seq<T>, ys: seq<T>)
    ensures x in xs + ys <==> x in xs || x in ys
  {
  }

  lemma BothAppended<T, U>(x: T, xs: seq<T>, more: seq<T>, y: U, ys: seq<U>, last: U)
    requires (x in xs <==> y in ys) && (x in more <==> y == last)
    ensures x in xs + more <==> y in ys + [last]
  {
    InAppended(x, xs, more);
    InAppended(y, ys, [last]);
  }

  lemma SamePlayer(s: System, actions: seq<Delivery.Action>, end: System)
    requires Execution(s, actions, end)
    ensures end.client.localPlayerID == s.client.localPlayerID
  {
    RoomFollows(s, actions, end);
  }

  lemma OneMoreDelivered(localID: string, actions: seq<Delivery.Action>, mid: System, e: Event)
    requires actions != [] && Possible(mid, actions[|actions| - 1]) && mid.client.localPlayerID == localID
    requires e.Deliver? && e.id == localID
    requires e in RoomEvents(localID, actions[..|actions| - 1]) <==> RoomReceives(e.input) in actions[..|actions| - 1]
    ensures e in RoomEvents(localID, actions) <==> RoomReceives(e.input) in actions
  {
    var n := |actions| - 1;
    OneDelivered(mid, actions[n], e);
    BothAppended(e, RoomEvents(localID, actions[..n]), RoomEvent(localID, actions[n]), RoomReceives(e.input),
                 actions[..n], actions[n]);
    assert actions == actions[..n] + [actions[n]];
  }

  /** The room's events that are this player's are the received datagrams. */
  lemma {:induction false} DeliveredDatagrams(s: System, actions: seq<Delivery.Action>, end: System, e: Event)
    requires Execution(s, actions, end) && e.Deliver? && e.id == s.client.localPlayerID
    ensures e in RoomEvents(s.client.localPlayerID, actions) <==> RoomReceives(e.input) in actions
    decreases |actions|
  {
    if actions != [] {
      var mid := LastStep(s, actions, end);
      DeliveredDatagrams(s, actions[..|actions| - 1], mid, e);
      SamePlayer(s, actions[..|actions| - 1], mid);
      OneMoreDelivered(s.client.localPlayerID, actions, mid, e);
    }
  }

  /** The player is one of the two in the room, who have different names. */
  ghost predicate Named(s: System) {
    s.room.a.player.id != s.room.b.player.id && s.client.localPlayerID == Mine(s).player.id
  }

  /** In this stretch of an execution some datagram of the player is accepted. */
  ghost predicate Heard(s: System, actions: seq<Delivery.Action>) {
    SomeAccepted(s.room, RoomEvents(s.client.localPlayerID, actions), s.side)
  }

  lemma HeardIffInReach(s: System, actions: seq<Delivery.Action>, end: System)
    requires Named(s) && Execution(s, actions, end)
    ensures Heard(s, actions) <==> exists d :: RoomReceives(d) in actions && InTime(Mine(s), d)
  {
    var localID := s.client.localPlayerID;
    var events := RoomEvents(localID, actions);
    AcceptedIffInReach(s.room, events, s.side);
    if Heard(s, actions) {
      var e :| e in events && InReach(Mine(s), e);
      DeliveredDatagrams(s, actions, end, e);
      assert RoomReceives(e.input) in actions;
    }
    if d :| RoomReceives(d) in actions && InTime(Mine(s), d) {
      DeliveredDatagrams(s, actions, end, Deliver(localID, d));
      assert InReach(Mine(s), Deliver(localID, d));
    }
  }

  // ---------------------------------------------------------------- the client's ticks run on

  /** `t` comes later: the ticks have moved on by at most `steps`, and what is new in the network carries new ticks. */
  ghost predicate Later(s: System, t: System, steps: nat) {
    && s.client.inputTick <= t.client.inputTick <= s.client.inputTick + steps && s.sent <= t.sent
    && forall d :: d in t.sent ==> d in s.sent || s.client.inputTick < d.tick <= t.client.inputTick
  }

  lemma OneTickLater(s: System, frame: InputFrame)
    requires s.client.inputTick + 1 < U32_LIMIT
    ensures Later(s, Next(s, ClientTicks(frame)), 1)
  {
  }

  lemma SnapshotsKeepTheTick(c: Client, shot: Snapshot)
    ensures SnapshotApplied(c, shot).inputTick == c.inputTick
  {
  }

  lemma OneStepLater(s: System, action: Delivery.Action)
    requires Possible(s, action) && s.client.inputTick + 1 < U32_LIMIT
    ensures Later(s, Next(s, action), 1)
  {
    match action
    case ClientTicks(frame) => OneTickLater(s, frame);
    case ClientStarts(shot) => SnapshotsKeepTheTick(s.client.(started := true), shot);
    case ClientReceives(shot) => SnapshotsKeepTheTick(s.client, shot);
    case ClientEnds(shot) => SnapshotsKeepTheTick(s.client, shot.(status := MatchFinished));
    case _ =>
  }

  lemma LaterStill(s: System, mid: System, t: System, steps: nat)
    requires Later(s, mid, steps) && Later(mid, t, 1)
    ensures Later(s, t, steps + 1)
  {
  }

  /** As long as the client's ticks do not wrap around. */
  lemma {:induction false} TicksRunOn(s: System, actions: seq<Delivery.Action>, end: System)
    requires Execution(s, actions, end) && s.client.inputTick + |actions| < U32_LIMIT
    ensures Later(s, end, |actions|)
    decreases |actions|
  {
    if actions != [] {
      var n := |actions| - 1;
      var mid := LastStep(s, actions, end);
      TicksRunOn(s, actions[..n], mid);
      OneStepLater(mid, actions[n]);
      LaterStill(s, mid, end, n);
    }
  }

  lemma StaysSent(s: System, action: Delivery.Action)
    requires Possible(s, action) && s.client.inputTick + 1 < U32_LIMIT
    ensures s.sent <= Next(s, action).sent && (action.RoomReceives? ==> action.datagram in Next(s, action).sent)
  {
    OneStepLater(s, action);
  }

  /** Only what has been sent is received. */
  lemma {:induction false} ReceivedWasSent(s: System, actions: seq<Delivery.Action>, end: System, d: Input)
    requires Execution(s, actions, end) && s.client.inputTick + |actions| < U32_LIMIT && RoomReceives(d) in actions
    ensures d in end.sent
    decreases |actions|
  {
    var n := |actions| - 1;
    var mid := LastStep(s, actions, end);
    TicksRunOn(s, actions[..n], mid);
    StaysSent(mid, actions[n]);
    if RoomReceives(d) != actions[n] {
      NotTheLast(RoomReceives(d), actions);
      ReceivedWasSent(s, actions[..n], mid, d);
    }
  }

  lemma NotTheLast<T>(x: T, xs: seq<T>)
    requires x in xs && x != xs[|xs| - 1]
    ensures x in xs[..|xs| - 1]
  {
  }

  /**
   Whatever happens from now on, until the client's ticks wrap around: nothing it still sends is accepted; only a
   datagram that is under way already could be.
   */
  ghost predicate LockedOut(s: System) {
    forall actions, end ::
      Execution(s, actions, end) && s.client.inputTick + |actions| < U32_LIMIT && Heard(s, actions) ==>
        OldArrives(s, actions)
  }

  /** A datagram sent before this state, and within reach in it, is delivered. */
  ghost predicate OldArrives(s: System, actions: seq<Delivery.Action>) {
    exists d :: RoomReceives(d) in actions && d in s.sent && InTime(Mine(s), d)
  }

  lemma TooLateIsLockedOut(s: System, actions: seq<Delivery.Action>, end: System)
    requires Named(s) && s.client.inputTick >= TickHorizon(Mine(s)) && Execution(s, actions, end)
    requires s.client.inputTick + |actions| < U32_LIMIT && Heard(s, actions)
    ensures OldArrives(s, actions)
  {
    var d := WhatWasHeard(s, actions, end);
    TicksRunOn(s, actions, end);
    ReceivedWasSent(s, actions, end, d);
    SentBefore(s, end, |actions|, d);
  }

  lemma WhatWasHeard(s: System, actions: seq<Delivery.Action>, end: System) returns (d: Input)
    requires Named(s) && Execution(s, actions, end) && Heard(s, actions)
    ensures RoomReceives(d) in actions && InTime(Mine(s), d)
  {
    HeardIffInReach(s, actions, end);
    d :| RoomReceives(d) in actions && InTime(Mine(s), d);
  }

  /** What is in reach although the client's ticks have gone past it was under way before. */
  lemma SentBefore(s: System, end: System, steps: nat, d: Input)
    requires Later(s, end, steps) && d in end.sent && InTime(Mine(s), d)
    requires s.client.inputTick >= TickHorizon(Mine(s))
    ensures d in s.sent
  {
  }

  lemma Extend(start: System, actions: seq<Delivery.Action>, s: System, action: Delivery.Action)
    requires Execution(start, actions, s) && Possible(s, action)
    ensures Execution(start, actions + [action], Next(s, action))
  {
    assert (actions + [action])[..|actions|] == actions;
  }

  const IDLE_FRAME := InputFrame(0, 0, [], [])

  /** In time, the next datagram gets through if the network lets it. */
  lemma InTimeIsHeard(s: System) returns (actions: seq<Delivery.Action>, end: System)
    requires Named(s) && Playing(s.client) && s.client.inputTick < TickHorizon(Mine(s))
    requires forall d :: d in s.sent ==> d.tick <= s.client.inputTick
    ensures Execution(s, actions, end) && |actions| == 2 && Heard(s, actions) && !OldArrives(s, actions)
  {
    var mid := Next(s, ClientTicks(IDLE_FRAME));
    var datagram := Outgoing(mid.client, IDLE_FRAME);
    assert datagram.tick == s.client.inputTick + 1 && datagram in mid.sent;
    Extend(s, [], s, ClientTicks(IDLE_FRAME));
    Extend(s, [] + [ClientTicks(IDLE_FRAME)], mid, RoomReceives(datagram));
    actions, end := [] + [ClientTicks(IDLE_FRAME)] + [RoomReceives(datagram)], Next(mid, RoomReceives(datagram));
    HeardIffInReach(s, actions, end);
    assert RoomReceives(datagram) in actions && InTime(Mine(s), datagram);
  }

  /**
   Exactly when: a playing client, in any execution from the start of the match, is locked out if and only if its ticks
   have reached the horizon of the last input the room accepted.
   */
  lemma LockedOutIff(start: System, history: seq<Delivery.Action>, s: System)
    requires Initial(start) && Execution(start, history, s) && Playing(s.client) && |history| + 2 < U32_LIMIT
    ensures LockedOut(s) <==> s.client.inputTick >= TickHorizon(Mine(s))
  {
    var base, top := InvariantOverExecutions(start, history, s);
    TicksRunOn(start, history, s);
    if s.client.inputTick >= TickHorizon(Mine(s)) {
      forall actions, end
        | Execution(s, actions, end) && s.client.inputTick + |actions| < U32_LIMIT && Heard(s, actions)
        ensures OldArrives(s, actions)
      {
        TooLateIsLockedOut(s, actions, end);
      }
    } else {
      var actions, end := InTimeIsHeard(s);
      assert Heard(s, actions) && !OldArrives(s, actions);
    }
  }

  // ---------------------------------------------------------------- an honest player who is locked out

  /** The room after `n` ticks without any input, up to the start of the match. */
  function Waited(room: State, n: nat): State {
    if n == 0 then room else Step(Waited(room, n - 1))
  }

  /** `room` is what `n` ticks of waiting make of a fresh one. */
  ghost predicate Waits(spawned: State, room: State, n: nat) {
    && room.rules == spawned.rules && room.tick == n
    && room.status == (if n < spawned.rules.countdownTicks then MatchCountdown else MatchActive)
    && WaitingSlot(room.a) && WaitingSlot(room.b)
  }

  predicate WaitingSlot(slot: Slot) {
    slot.lastInputTick == 0 && slot.pending == []
  }

  lemma OneMoreWait(spawned: State, room: State, n: nat)
    requires Waits(spawned, room, n) && n < spawned.rules.countdownTicks
    ensures Waits(spawned, Step(room), n + 1)
  {
  }

  lemma {:induction false} WaitingOpensTheMatch(spawned: State, n: nat)
    requires Waits(spawned, spawned, 0) && n <= spawned.rules.countdownTicks
    ensures Waits(spawned, Waited(spawned, n), n)
  {
    if n > 0 {
      WaitingOpensTheMatch(spawned, n - 1);
      OneMoreWait(spawned, Waited(spawned, n - 1), n - 1);
    }
  }

  lemma {:induction false} RoomWaits(start: System, n: nat) returns (actions: seq<Delivery.Action>, s: System)
    requires start.sent == {}
    ensures Execution(start, actions, s) && |actions| == n
    ensures s.room == Waited(start.room, n) && s.client == start.client && s.side == start.side && s.sent == {}
    ensures start.shots <= s.shots && (n > 0 ==> SnapshotOf(s.room) in s.shots)
  {
    if n == 0 {
      actions, s := [], start;
    } else {
      actions, s := RoomWaits(start, n - 1);
      Extend(start, actions, s, RoomTicks);
      actions, s := actions + [RoomTicks], Next(s, RoomTicks);
    }
  }

  lemma StartThenActive(c: Client, initial: Snapshot, active: Snapshot)
    requires !c.started && !c.ended && c.world.None? && initial.serverTick <= active.serverTick
    requires active.status == MatchActive
    ensures var d := SnapshotApplied(SnapshotApplied(c.(started := true), initial), active);
            Playing(d) && d.inputTick == c.inputTick
  {
  }

  /** The match starts, and its first active snapshot arrives. */
  lemma MatchStarts(start: System, before: seq<Delivery.Action>, s: System, initial: Snapshot)
    returns (actions: seq<Delivery.Action>, playing: System)
    requires Execution(start, before, s) && initial in s.shots && SnapshotOf(s.room) in s.shots
    requires s.room.status == MatchActive && initial.serverTick <= s.room.tick
    requires !s.client.started && !s.client.ended && s.client.world.None?
    ensures Execution(start, actions, playing) && |actions| == |before| + 2 && Playing(playing.client)
    ensures playing.room == s.room && playing.side == s.side && playing.client.inputTick == s.client.inputTick
  {
    StartThenActive(s.client, initial, SnapshotOf(s.room));
    var mid := Next(s, ClientStarts(initial));
    Extend(start, before, s, ClientStarts(initial));
    Extend(start, before + [ClientStarts(initial)], mid, ClientReceives(SnapshotOf(s.room)));
    actions := before + [ClientStarts(initial)] + [ClientReceives(SnapshotOf(s.room))];
    playing := Next(mid, ClientReceives(SnapshotOf(s.room)));
  }

  lemma IdleTick(s: System)
    requires Playing(s.client) && s.client.inputTick + 1 < U32_LIMIT
    ensures var t := Next(s, ClientTicks(IDLE_FRAME));
            && Playing(t.client) && t.room == s.room && t.side == s.side && t.client.inputTick == s.client.inputTick + 1
  {
  }

  lemma {:induction false} ClientPlaysOn(start: System, before: seq<Delivery.Action>, s: System, n: nat)
    returns (actions: seq<Delivery.Action>, end: System)
    requires Execution(start, before, s) && Playing(s.client) && s.client.inputTick + n < U32_LIMIT
    ensures Execution(start, actions, end) && |actions| == |before| + n && Playing(end.client)
    ensures end.room == s.room && end.side == s.side && end.client.inputTick == s.client.inputTick + n
    decreases n
  {
    actions, end := before, s;
    if n > 0 {
      var mid: System;
      actions, mid := ClientPlaysOn(start, before, s, n - 1);
      Extend(start, actions, mid, ClientTicks(IDLE_FRAME));
      IdleTick(mid);
      actions, end := actions + [ClientTicks(IDLE_FRAME)], Next(mid, ClientTicks(IDLE_FRAME));
    }
  }

  function NewSystem(a: string, b: string, r: Ruleset, side: Side): System {
    var room := NewState(a, b, r);
    System(room, NewClient(SlotOf(room, side).player.id), side, {}, {SnapshotOf(room)}, [], [])
  }

  /** A match has begun, and the client has played for 120 ticks of which nothing has arrived. */
  lemma NothingArrives(start: System, r: Ruleset) returns (history: seq<Delivery.Action>, s: System)
    requires start.room.rules == r && r.countdownTicks > 0 && Waits(start.room, start.room, 0)
    requires start.sent == {} && SnapshotOf(start.room) in start.shots
    requires !start.client.started && !start.client.ended && start.client.world.None? && start.client.inputTick == 0
    ensures Execution(start, history, s) && |history| == r.countdownTicks + 2 + MAX_INPUT_TICK_ADVANCE
    ensures Playing(s.client) && s.room.status == MatchActive && s.room.tick == r.countdownTicks && s.side == start.side
    ensures s.client.inputTick == MAX_INPUT_TICK_ADVANCE && WaitingSlot(s.room.a) && WaitingSlot(s.room.b)
  {
    WaitingOpensTheMatch(start.room, r.countdownTicks);
    history, s := RoomWaits(start, r.countdownTicks);
    history, s := MatchStarts(start, history, s, SnapshotOf(start.room));
    history, s := ClientPlaysOn(start, history, s, MAX_INPUT_TICK_ADVANCE);
  }

  lemma NewSystemIsInitial(a: string, b: string, r: Ruleset, side: Side) returns (start: System)
    requires a != "" && b != "" && a != b && Accepted(r)
    ensures start == NewSystem(a, b, r, side) && Initial(start)
    ensures start.room.rules == r && r.countdownTicks > 0 && Waits(start.room, start.room, 0)
    ensures start.sent == {} && SnapshotOf(start.room) in start.shots && start.side == side
    ensures !start.client.started && !start.client.ended && start.client.world.None? && start.client.inputTick == 0
  {
    start := NewSystem(a, b, r, side);
  }

  lemma WaitingHorizon(s: System)
    requires WaitingSlot(s.room.a) && WaitingSlot(s.room.b)
    ensures TickHorizon(Mine(s)) == MAX_INPUT_TICK_ADVANCE
  {
  }

  /**
   It happens to honest players: under any rules, a client that plays for 120 ticks while the network loses every
   datagram is locked out of a match that has just begun.
   */
  lemma HonestPlayerIsLockedOut(a: string, b: string, r: Ruleset, side: Side)
    returns (start: System, history: seq<Delivery.Action>, s: System)
    requires a != "" && b != "" && a != b && Accepted(r)
    ensures start == NewSystem(a, b, r, side) && Initial(start) && Execution(start, history, s)
    ensures |history| == r.countdownTicks + 2 + MAX_INPUT_TICK_ADVANCE
    ensures Playing(s.client) && s.room.status == MatchActive && s.room.tick == r.countdownTicks && LockedOut(s)
  {
    start := NewSystemIsInitial(a, b, r, side);
    history, s := NothingArrives(start, r);
    WaitingHorizon(s);
    LockedOutByNow(start, history, s);
  }

  lemma LockedOutByNow(start: System, history: seq<Delivery.Action>, s: System)
    requires Initial(start) && Execution(start, history, s)
    requires s.client.inputTick >= TickHorizon(Mine(s))
    ensures LockedOut(s)
  {
    var base, top := InvariantOverExecutions(start, history, s);
    forall actions, end
      | Execution(s, actions, end) && s.client.inputTick + |actions| < U32_LIMIT && Heard(s, actions)
      ensures OldArrives(s, actions)
    {
      TooLateIsLockedOut(s, actions, end);
    }
  }
}
