/**
 What the client's prediction is worth, over whole executions of client, network and room: it always is the movement
 rule run from the last snapshot's position over exactly the inputs that snapshot does not cover yet, and what the
 room holds for the player is what the client predicted for that tick.
 */
module Reconciliation {
  import opened RoomModel
  import opened RoomSlots
  import opened ActionQueue
  import opened MatchController
  import opened Delivery
  import opened Prediction
  import opened ClientRuns
  import Interpolation
  import RoomCommands
  import RoomLifecycle

  // ---------------------------------------------------------------- what the client has predicted

  /** The direction an input frame asks for, on the tick it is predicted for. */
  function PredictedOn(c: Client, action: Delivery.Action): seq<PendingInput> {
    if action.ClientTicks? && InPlay(c) then
      [PendingInput((c.inputTick + 1) % U32_LIMIT, RoomCommands.Sign(action.frame.moveX),
                    RoomCommands.Sign(action.frame.moveY))]
    else []
  }

  /** All inputs the client has predicted in an execution. */
  function Foreseen(start: System, actions: seq<Delivery.Action>): seq<PendingInput> {
    if actions == [] then []
    else
      var last := |actions| - 1;
      Foreseen(start, actions[..last]) + PredictedOn(After(start, actions[..last]).client, actions[last])
  }

  /** The inputs past a tick. */
  function Past(inputs: seq<PendingInput>, tick: nat): seq<PendingInput> {
    if inputs == [] then []
    else
      var last := |inputs| - 1;
      Past(inputs[..last], tick) + if inputs[last].tick > tick then [inputs[last]] else []
  }

  ghost predicate CountedUp(inputs: seq<PendingInput>) {
    forall i :: 0 <= i < |inputs| ==> inputs[i].tick == i + 1
  }

  function Least(m: nat, n: nat): nat {
    if m < n then m else n
  }

  lemma {:induction false} PastIsTheRest(inputs: seq<PendingInput>, tick: nat)
    requires CountedUp(inputs)
    ensures Past(inputs, tick) == inputs[Least(tick, |inputs|)..]
    decreases |inputs|
  {
    if inputs != [] {
      var last := |inputs| - 1;
      PastIsTheRest(inputs[..last], tick);
      assert inputs[last].tick == last + 1;
      if tick <= last {
        TakeDrop(inputs, tick);
      }
    }
  }

  lemma TakeDrop<T>(xs: seq<T>, n: nat)
    requires n < |xs|
    ensures xs[..|xs| - 1][n..] + [xs[|xs| - 1]] == xs[n..]
  {
  }

  lemma {:induction false} AckedFromThere(inputs: seq<PendingInput>, k: nat, acked: U32)
    requires CountedUp(inputs) && k <= |inputs|
    ensures AckedCount(inputs[k..], acked) == if acked <= k then 0 else Least(acked, |inputs|) - k
    decreases |inputs| - k
  {
    if k < |inputs| {
      assert inputs[k..][0] == inputs[k] && inputs[k..][1..] == inputs[k + 1..];
      AckedFromThere(inputs, k + 1, acked);
    }
  }

  /** Popping for a later tick what was left for an earlier one. */
  lemma PastPast(inputs: seq<PendingInput>, known: nat, acked: U32)
    requires CountedUp(inputs) && known <= acked
    ensures Past(inputs, known)[AckedCount(Past(inputs, known), acked)..] == Past(inputs, acked)
  {
    PastIsTheRest(inputs, known);
    PastIsTheRest(inputs, acked);
    AckedFromThere(inputs, Least(known, |inputs|), acked);
  }

  // ---------------------------------------------------------------- what the room publishes

  function PlayerIn(shot: Snapshot, side: Side): PlayerState {
    if side then shot.playerA else shot.playerB
  }

  /** The room acknowledges what it holds, and later snapshots acknowledge no less. */
  ghost predicate AcksRise(s: System) {
    var slot := SlotOf(s.room, s.side);
    && slot.player.lastAckedInputTick <= slot.input.tick == slot.lastInputTick
    && SnapshotOf(s.room) in s.shots
    && (forall u :: u in s.shots ==> u.serverTick <= s.room.tick)
    && (forall u, v :: u in s.shots && v in s.shots && u.serverTick <= v.serverTick ==>
          PlayerIn(u, s.side).lastAckedInputTick <= PlayerIn(v, s.side).lastAckedInputTick)
  }

  lemma SubmitKeepsAcks(slot: Slot, input: Input)
    requires slot.player.lastAckedInputTick <= slot.input.tick == slot.lastInputTick
    ensures var t := SubmitSlot(slot, input);
            t.player == slot.player && t.player.lastAckedInputTick <= t.input.tick == t.lastInputTick
  {
    QueueFrame(RecordMovement(slot, input), Truncated(input.actions));
  }

  lemma RoomSubmitKeepsAcks(s: System, id: string, input: Input)
    requires AcksRise(s)
    ensures AcksRise(s.(room := Submit(s.room, id, input)))
  {
    SubmitKeepsAcks(SlotOf(s.room, s.side), input);
    RoomLifecycle.SubmitPreservesAllButQueues(s.room, id, input);
    SubmittedSlot(s.room, id, input, s.side);
  }

  lemma SubmittedSlot(room: State, id: string, input: Input, side: Side)
    ensures var slot, t := SlotOf(room, side), SlotOf(Submit(room, id, input), side);
            t == slot || (id == slot.player.id && t == SubmitSlot(slot, input))
  {
  }

  lemma TickAcks(room: State, side: Side)
    requires var slot := SlotOf(room, side);
             slot.player.lastAckedInputTick <= slot.input.tick == slot.lastInputTick
    ensures var slot, t := SlotOf(room, side), SlotOf(Step(room), side);
            && slot.player.lastAckedInputTick <= t.player.lastAckedInputTick <= t.input.tick == t.lastInputTick
            && t.input.tick == slot.input.tick
            && (t.input.moveX == t.input.moveY == 0
                || (t.input.moveX == slot.input.moveX && t.input.moveY == slot.input.moveY))
    ensures room.status == MatchFinished ==> Step(room) == room
    ensures room.status != MatchFinished ==> Step(room).tick == room.tick + 1
  {
    if room.status == MatchActive {
      ActiveTickAcks(room, side);
      RoomLifecycle.ActiveStepClock(room);
    }
  }

  lemma ActiveTickAcks(room: State, side: Side)
    ensures var slot, t := SlotOf(room, side), SlotOf(ActiveStep(room), side);
            && t.player.lastAckedInputTick == slot.input.tick
            && t.input == slot.input && t.lastInputTick == slot.lastInputTick
  {
    TickAcksSlot(room.rules, room.tick + 1, SlotOf(room, side));
    TickSlotFrame(room.rules, room.tick + 1, SlotOf(room, side));
    var damage := ActiveSlot(room, side);
  }

  lemma TickAcksSlot(r: Ruleset, tick: nat, slot: Slot)
    ensures TickSlot(r, tick, slot).player.lastAckedInputTick == slot.input.tick
  {
    var kind := TickSlotShape(r, tick, slot);
  }

  lemma PublishingKeepsAcks(s: System)
    requires AcksRise(s)
    ensures AcksRise(Delivery.Next(s, RoomTicks))
  {
    TickAcks(s.room, s.side);
    NewShotKeepsAcks(s, Step(s.room), Delivery.Next(s, RoomTicks));
  }

  lemma NewShotKeepsAcks(s: System, room: State, t: System)
    requires AcksRise(s) && t.room == room && t.side == s.side && t.shots == s.shots + {SnapshotOf(room)}
    requires SlotOf(s.room, s.side).player.lastAckedInputTick <= SlotOf(room, s.side).player.lastAckedInputTick
    requires SlotOf(room, s.side).player.lastAckedInputTick <= SlotOf(room, s.side).input.tick
    requires SlotOf(room, s.side).input.tick == SlotOf(room, s.side).lastInputTick
    requires room == s.room || room.tick == s.room.tick + 1
    ensures AcksRise(t)
  {
    forall u | u in s.shots && room != s.room
      ensures PlayerIn(u, s.side).lastAckedInputTick <= SlotOf(room, s.side).player.lastAckedInputTick
    {
      assert u.serverTick <= SnapshotOf(s.room).serverTick;
    }
  }

  // ---------------------------------------------------------------- what the client knows

  /** The prediction is the rule run from the published position over the inputs not acknowledged with it. */
  ghost predicate UpToDate(p: Predicted, inputs: seq<PendingInput>, player: PlayerState) {
    && p.pending == Past(inputs, player.lastAckedInputTick)
    && p.position == Replay(PositionOf(player), p.pending)
  }

  /** The world shows what some snapshot has published. */
  ghost predicate FromAShot(s: System, world: Snapshot) {
    exists u :: u in s.shots && u.serverTick == world.serverTick && u.playerA == world.playerA
                && u.playerB == world.playerB
  }

  ghost predicate Knows(s: System, inputs: seq<PendingInput>) {
    var c := s.client;
    && |inputs| == c.inputTick && CountedUp(inputs)
    && (!c.started || c.world.None? ==> inputs == [])
    && match c.world
       case None => c.prediction.pending == []
       case Some(world) => FromAShot(s, world) && UpToDate(c.prediction, inputs, PlayerIn(world, s.side))
  }

  ghost predicate IsPredicted(inputs: seq<PendingInput>, tick: U32, moveX: I8, moveY: I8) {
    0 < tick <= |inputs| && inputs[tick - 1] == PendingInput(tick, moveX, moveY)
  }

  /** Every datagram asks for what was predicted for its tick, and what the room holds is one of these, or nothing. */
  ghost predicate HoldsPredicted(s: System, inputs: seq<PendingInput>) {
    var held := SlotOf(s.room, s.side).input;
    && (forall d :: d in s.sent ==>
          IsPredicted(inputs, d.tick, RoomCommands.Sign(d.moveX), RoomCommands.Sign(d.moveY)))
    && held.tick <= |inputs|
    && (held.moveX == held.moveY == 0 || IsPredicted(inputs, held.tick, held.moveX, held.moveY))
  }

  /** Names tell the local player from the opponent in every snapshot. */
  ghost predicate NamesAreClear(s: System) {
    && SlotOf(s.room, s.side).player.id == s.client.localPlayerID && s.room.a.player.id != s.room.b.player.id
    && forall u :: u in s.shots ==>
         PlayerIn(u, s.side).id == s.client.localPlayerID && PlayerIn(u, !s.side).id != s.client.localPlayerID
  }

  lemma InvariantClearsNames(s: System, base: nat, top: nat)
    requires Delivery.Invariant(s, base, top)
    ensures NamesAreClear(s)
  {
    forall u | u in s.shots
      ensures PlayerIn(u, s.side).id == s.client.localPlayerID && PlayerIn(u, !s.side).id != s.client.localPlayerID
    {
      assert NameIn(u, s.side) == s.client.localPlayerID && NameIn(u, !s.side) != s.client.localPlayerID;
    }
  }

  lemma OneMorePast(inputs: seq<PendingInput>, last: PendingInput, tick: nat)
    requires last.tick > tick
    ensures Past(inputs + [last], tick) == Past(inputs, tick) + [last]
  {
    assert (inputs + [last])[..|inputs|] == inputs;
  }

  lemma OneMoreReplayed(p: Position, inputs: seq<PendingInput>, last: PendingInput)
    ensures Replay(p, inputs + [last]) == ApplyMovement(Replay(p, inputs), last.moveX, last.moveY)
  {
    assert (inputs + [last])[..|inputs|] == inputs;
  }

  /** One more input keeps the prediction up to date, as nothing yet acknowledges it. */
  lemma PredictingKeepsUp(p: Predicted, inputs: seq<PendingInput>, player: PlayerState, tick: U32, moveX: I8, moveY: I8)
    requires UpToDate(p, inputs, player) && player.lastAckedInputTick < tick
    ensures UpToDate(Applied(p, tick, moveX, moveY),
                     inputs + [PendingInput(tick, RoomCommands.Sign(moveX), RoomCommands.Sign(moveY))], player)
  {
    var last := PendingInput(tick, RoomCommands.Sign(moveX), RoomCommands.Sign(moveY));
    OneMorePast(inputs, last, player.lastAckedInputTick);
    OneMoreReplayed(PositionOf(player), p.pending, last);
  }

  /** A later snapshot brings it up to date again. */
  lemma ReconcilingKeepsUp(p: Predicted, inputs: seq<PendingInput>, known: nat, player: PlayerState)
    requires CountedUp(inputs) && p.pending == Past(inputs, known) && known <= player.lastAckedInputTick
    ensures UpToDate(Reconciled(p, PositionOf(player), player.lastAckedInputTick), inputs, player)
  {
    PastPast(inputs, known, player.lastAckedInputTick);
  }

  // ---------------------------------------------------------------- the steps

  lemma TickKnows(s: System, frame: InputFrame, inputs: seq<PendingInput>)
    requires Knows(s, inputs) && HoldsPredicted(s, inputs) && AcksRise(s) && s.client.inputTick + 1 < U32_LIMIT
    ensures Knows(Delivery.Next(s, ClientTicks(frame)), inputs + PredictedOn(s.client, ClientTicks(frame)))
  {
    var t := Delivery.Next(s, ClientTicks(frame));
    if InPlay(s.client) {
      WorldIsAcked(s, inputs);
      PredictionOfTick(s.client, frame);
      PlayingKnows(s, t, frame, inputs);
    } else {
      assert inputs + [] == inputs && t.client == s.client;
    }
  }

  /** A tick that counts up, and predicts one more input. */
  lemma PlayingKnows(s: System, t: System, frame: InputFrame, inputs: seq<PendingInput>)
    requires Knows(s, inputs) && s.client.inputTick + 1 < U32_LIMIT && s.client.started && s.client.world.Some?
    requires PlayerIn(s.client.world.value, s.side).lastAckedInputTick <= |inputs|
    requires t.shots == s.shots && t.side == s.side && t.client.started && t.client.world == s.client.world
    requires t.client.inputTick == s.client.inputTick + 1
    requires t.client.prediction == Applied(s.client.prediction, s.client.inputTick + 1, frame.moveX, frame.moveY)
    ensures Knows(t, inputs + [PendingInput(s.client.inputTick + 1, RoomCommands.Sign(frame.moveX),
                                            RoomCommands.Sign(frame.moveY))])
  {
    PredictingKeepsUp(s.client.prediction, inputs, PlayerIn(s.client.world.value, s.side), s.client.inputTick + 1,
                      frame.moveX, frame.moveY);
    assert FromAShot(t, t.client.world.value);
  }

  lemma WorldIsAcked(s: System, inputs: seq<PendingInput>)
    requires Knows(s, inputs) && HoldsPredicted(s, inputs) && AcksRise(s) && s.client.world.Some?
    ensures PlayerIn(s.client.world.value, s.side).lastAckedInputTick <= |inputs|
  {
    var world := s.client.world.value;
    var u :| u in s.shots && u.serverTick == world.serverTick && u.playerA == world.playerA
             && u.playerB == world.playerB;
    assert u.serverTick <= SnapshotOf(s.room).serverTick;
  }

  lemma PredictionOfTick(c: Client, frame: InputFrame)
    requires InPlay(c) && c.inputTick + 1 < U32_LIMIT
    ensures var t := Ticked(c, frame);
            && t == c.(inputTick := c.inputTick + 1, queue := t.queue, nextLightAttackTick := t.nextLightAttackTick,
                       prediction := t.prediction)
            && t.prediction == Applied(c.prediction, c.inputTick + 1, frame.moveX, frame.moveY)
  {
  }

  lemma TickSendsPredicted(s: System, frame: InputFrame, inputs: seq<PendingInput>)
    requires Knows(s, inputs) && HoldsPredicted(s, inputs) && s.client.inputTick + 1 < U32_LIMIT
    ensures HoldsPredicted(Delivery.Next(s, ClientTicks(frame)), inputs + PredictedOn(s.client, ClientTicks(frame)))
  {
    var t, longer := Delivery.Next(s, ClientTicks(frame)), inputs + PredictedOn(s.client, ClientTicks(frame));
    forall d | d in t.sent
      ensures IsPredicted(longer, d.tick, RoomCommands.Sign(d.moveX), RoomCommands.Sign(d.moveY))
    {
      assert d in s.sent ==> IsPredicted(inputs, d.tick, RoomCommands.Sign(d.moveX), RoomCommands.Sign(d.moveY));
    }
  }

  /** What a snapshot that is not stale does to a client whose name it tells from the opponent's. */
  lemma SnapshotIsApplied(c: Client, shot: Snapshot, side: Side)
    requires PlayerIn(shot, side).id == c.localPlayerID && PlayerIn(shot, !side).id != c.localPlayerID
    requires !Stale(c, shot)
    ensures var t, mine, theirs := SnapshotApplied(c, shot), PlayerIn(shot, side), PlayerIn(shot, !side);
            && t.prediction == Reconciled(c.prediction, PositionOf(mine), mine.lastAckedInputTick)
            && t.opponent == Interpolation.Pushed(c.opponent, shot.serverTick, theirs.positionX, theirs.positionY)
            && t.queue.pending == Unacknowledged(c.queue.pending, mine.lastAckedActionSequence)
            && t.world == Some(shot.(arenaID := t.arenaID))
            && t.inputTick == c.inputTick && t.started == c.started && t.ended == c.ended
            && t.localPlayerID == c.localPlayerID
  {
  }

  lemma SnapshotKnows(s: System, c: Client, shot: Snapshot, published: Snapshot, inputs: seq<PendingInput>)
    requires Knows(s, inputs) && AcksRise(s) && NamesAreClear(s) && (c == s.client || c == s.client.(started := true))
    requires published in s.shots && shot == published.(status := shot.status)
    ensures Knows(s.(client := SnapshotApplied(c, shot)), inputs)
  {
    if Stale(c, shot) {
      assert SnapshotApplied(c, shot) == c;
    } else {
      SnapshotBringsUpToDate(s, c, shot, published, inputs);
      SnapshotIsApplied(c, shot, s.side);
      NewWorldIsKnown(s, SnapshotApplied(c, shot), shot, published, inputs);
    }
  }

  lemma SnapshotBringsUpToDate(s: System, c: Client, shot: Snapshot, published: Snapshot, inputs: seq<PendingInput>)
    requires Knows(s, inputs) && AcksRise(s) && NamesAreClear(s) && (c == s.client || c == s.client.(started := true))
    requires published in s.shots && shot == published.(status := shot.status) && !Stale(c, shot)
    ensures UpToDate(SnapshotApplied(c, shot).prediction, inputs, PlayerIn(shot, s.side))
  {
    SnapshotIsApplied(c, shot, s.side);
    var known := KnownBefore(s, c, shot, published, inputs);
    ReconcilingKeepsUp(c.prediction, inputs, known, PlayerIn(shot, s.side));
  }

  /** A client brought up to date by a snapshot. */
  lemma NewWorldIsKnown(s: System, t: Client, shot: Snapshot, published: Snapshot, inputs: seq<PendingInput>)
    requires Knows(s, inputs) && published in s.shots && shot == published.(status := shot.status)
    requires t.inputTick == s.client.inputTick && (t.started == s.client.started || t.started)
    requires t.world == Some(shot.(arenaID := t.arenaID))
    requires UpToDate(t.prediction, inputs, PlayerIn(shot, s.side))
    ensures Knows(s.(client := t), inputs)
  {
    var u := s.(client := t);
    assert published.serverTick == t.world.value.serverTick && published.playerA == t.world.value.playerA
        && published.playerB == t.world.value.playerB;
    assert FromAShot(u, t.world.value);
  }

  /** What the client has heard before acknowledges no more than a snapshot that is not stale. */
  lemma KnownBefore(s: System, c: Client, shot: Snapshot, published: Snapshot, inputs: seq<PendingInput>)
    returns (known: nat)
    requires Knows(s, inputs) && AcksRise(s) && (c == s.client || c == s.client.(started := true)) && !Stale(c, shot)
    requires published in s.shots && shot == published.(status := shot.status)
    ensures known <= PlayerIn(shot, s.side).lastAckedInputTick && c.prediction.pending == Past(inputs, known)
  {
    known := 0;
    if c.world.Some? && s.client.started {
      var world := c.world.value;
      var u :| u in s.shots && u.serverTick == world.serverTick && u.playerA == world.playerA
               && u.playerB == world.playerB;
      assert u.serverTick <= published.serverTick;
      known := PlayerIn(world, s.side).lastAckedInputTick;
    }
  }

  lemma RoomHoldsWhatArrives(s: System, datagram: Input, inputs: seq<PendingInput>)
    requires HoldsPredicted(s, inputs) && datagram in s.sent
    ensures HoldsPredicted(Delivery.Next(s, RoomReceives(datagram)), inputs)
  {
    var slot := SlotOf(s.room, s.side);
    SubmittedSlot(s.room, s.client.localPlayerID, datagram, s.side);
    QueueFrame(RecordMovement(slot, datagram), Truncated(datagram.actions));
  }

  lemma OthersChangeNothing(s: System, id: string, input: Input, inputs: seq<PendingInput>)
    requires HoldsPredicted(s, inputs) && NamesAreClear(s) && id != s.client.localPlayerID
    ensures HoldsPredicted(s.(room := Submit(s.room, id, input)), inputs)
  {
    SubmittedSlot(s.room, id, input, s.side);
  }

  lemma RoomTickHolds(s: System, inputs: seq<PendingInput>)
    requires HoldsPredicted(s, inputs) && AcksRise(s)
    ensures HoldsPredicted(Delivery.Next(s, RoomTicks), inputs)
  {
    TickAcks(s.room, s.side);
    HeldStays(s, Step(s.room), Delivery.Next(s, RoomTicks), inputs);
  }

  lemma HeldStays(s: System, room: State, t: System, inputs: seq<PendingInput>)
    requires HoldsPredicted(s, inputs) && t.room == room && t.side == s.side && t.sent == s.sent
    requires var held, now := SlotOf(s.room, s.side).input, SlotOf(room, s.side).input;
             && now.tick == held.tick
             && (now.moveX == now.moveY == 0 || (now.moveX == held.moveX && now.moveY == held.moveY))
    ensures HoldsPredicted(t, inputs)
  {
  }

  /** Everything above together. */
  ghost predicate Agrees(s: System, inputs: seq<PendingInput>) {
    NamesAreClear(s) && AcksRise(s) && Knows(s, inputs) && HoldsPredicted(s, inputs)
  }

  lemma RoomStepKnows(s: System, t: System, inputs: seq<PendingInput>)
    requires Knows(s, inputs) && t.client == s.client && t.side == s.side && s.shots <= t.shots
    ensures Knows(t, inputs)
  {
  }

  lemma ActionKeepsAcks(s: System, action: Delivery.Action)
    requires AcksRise(s)
    ensures AcksRise(Delivery.Next(s, action))
  {
    match action
    case RoomReceives(datagram) => RoomSubmitKeepsAcks(s, s.client.localPlayerID, datagram);
    case RoomReceivesFromOther(id, input) => RoomSubmitKeepsAcks(s, id, input);
    case RoomTicks => PublishingKeepsAcks(s);
    case _ =>
  }

  lemma StartKnows(s: System, shot: Snapshot, inputs: seq<PendingInput>)
    requires Agrees(s, inputs) && shot in s.shots
    ensures Knows(Delivery.Next(s, ClientStarts(shot)), inputs)
  {
    SnapshotKnows(s, s.client.(started := true), shot, shot, inputs);
  }

  lemma EndKnows(s: System, shot: Snapshot, inputs: seq<PendingInput>)
    requires Agrees(s, inputs) && shot in s.shots
    ensures Knows(Delivery.Next(s, ClientEnds(shot)), inputs)
  {
    var last := shot.(status := MatchFinished);
    SnapshotKnows(s, s.client, last, shot, inputs);
    var mid := s.(client := SnapshotApplied(s.client, last));
    assert Delivery.Next(s, ClientEnds(shot)) == mid.(client := mid.client.(ended := true));
  }

  lemma ActionKnows(s: System, action: Delivery.Action, inputs: seq<PendingInput>)
    requires Agrees(s, inputs) && Possible(s, action) && s.client.inputTick + 1 < U32_LIMIT
    ensures Knows(Delivery.Next(s, action), inputs + PredictedOn(s.client, action))
  {
    assert inputs + [] == inputs;
    match action
    case ClientTicks(frame) => TickKnows(s, frame, inputs);
    case ClientStarts(shot) => StartKnows(s, shot, inputs);
    case ClientReceives(shot) => SnapshotKnows(s, s.client, shot, shot, inputs);
    case ClientEnds(shot) => EndKnows(s, shot, inputs);
    case _ => RoomStepKnows(s, Delivery.Next(s, action), inputs);
  }

  lemma ActionHoldsPredicted(s: System, action: Delivery.Action, inputs: seq<PendingInput>)
    requires Agrees(s, inputs) && Possible(s, action) && s.client.inputTick + 1 < U32_LIMIT
    ensures HoldsPredicted(Delivery.Next(s, action), inputs + PredictedOn(s.client, action))
  {
    assert inputs + [] == inputs;
    match action
    case ClientTicks(frame) => TickSendsPredicted(s, frame, inputs);
    case RoomReceives(datagram) => RoomHoldsWhatArrives(s, datagram, inputs);
    case RoomReceivesFromOther(id, input) => OthersChangeNothing(s, id, input, inputs);
    case RoomTicks => RoomTickHolds(s, inputs);
    case _ =>
  }

  lemma ActionKeepsAgreement(s: System, action: Delivery.Action, t: System, inputs: seq<PendingInput>,
                             longer: seq<PendingInput>)
    requires Agrees(s, inputs) && Possible(s, action) && t == Delivery.Next(s, action) && NamesAreClear(t)
    requires longer == inputs + PredictedOn(s.client, action) && s.client.inputTick + 1 < U32_LIMIT
    ensures Agrees(t, longer) && t.client.inputTick <= s.client.inputTick + 1
  {
    ActionKeepsAcks(s, action);
    ActionKnows(s, action, inputs);
    ActionHoldsPredicted(s, action, inputs);
    assert |longer| <= |inputs| + 1;
  }

  lemma LastAction(start: System, actions: seq<Delivery.Action>, end: System) returns (mid: System)
    requires Initial(start) && Execution(start, actions, end) && actions != []
    ensures var n := |actions| - 1;
            && Execution(start, actions[..n], mid) && Possible(mid, actions[n]) && end == Delivery.Next(mid, actions[n])
            && Foreseen(start, actions) == Foreseen(start, actions[..n]) + PredictedOn(mid.client, actions[n])
    ensures NamesAreClear(end)
  {
    ExecutionLeadsTo(start, actions, end);
    mid := After(start, actions[..|actions| - 1]);
    var base, top := InvariantOverExecutions(start, actions, end);
    InvariantClearsNames(end, base, top);
  }

  lemma StartAgrees(start: System)
    requires Initial(start)
    ensures Agrees(start, []) && start.client.inputTick == 0
  {
  }

  lemma {:induction false} ExecutionsAgree(start: System, actions: seq<Delivery.Action>, end: System)
    requires Initial(start) && Execution(start, actions, end) && |actions| < U32_LIMIT
    ensures Agrees(end, Foreseen(start, actions)) && end.client.inputTick <= |actions|
    decreases |actions|
  {
    if actions == [] {
      StartAgrees(start);
    } else {
      var n := |actions| - 1;
      var mid := LastAction(start, actions, end);
      ExecutionsAgree(start, actions[..n], mid);
      ActionKeepsAgreement(mid, actions[n], end, Foreseen(start, actions[..n]), Foreseen(start, actions));
    }
  }

  /** The snapshot is no older than what a started client shows. */
  predicate IsNews(c: Client, shot: Snapshot) {
    c.started && c.world.Some? ==> c.world.value.serverTick <= shot.serverTick
  }

  /**
   In every execution in which the client's ticks do not wrap, a snapshot that is not out of date leaves exactly the
   inputs the client has predicted past the input tick it acknowledges, and the position they lead to from where it
   shows the player.
   */
  lemma SnapshotsReconcile(start: System, actions: seq<Delivery.Action>, s: System, shot: Snapshot)
    requires Initial(start) && Execution(start, actions, s) && |actions| < U32_LIMIT
    requires shot in s.shots && IsNews(s.client, shot)
    ensures var prediction, player := Delivery.Next(s, ClientReceives(shot)).client.prediction, PlayerIn(shot, s.side);
            && prediction.pending == Past(Foreseen(start, actions), player.lastAckedInputTick)
            && prediction.position == Replay(PositionOf(player), prediction.pending)
  {
    ExecutionsAgree(start, actions, s);
    HearingBringsUpToDate(s, shot, Foreseen(start, actions));
  }

  lemma HearingBringsUpToDate(s: System, shot: Snapshot, inputs: seq<PendingInput>)
    requires Agrees(s, inputs) && shot in s.shots && !Stale(s.client, shot)
    ensures UpToDate(Delivery.Next(s, ClientReceives(shot)).client.prediction, inputs, PlayerIn(shot, s.side))
  {
    SnapshotBringsUpToDate(s, s.client, shot, shot, inputs);
  }

  /** Between snapshots as well: whatever the world was taken from, the prediction is that position and those inputs. */
  lemma PredictionIsCurrent(start: System, actions: seq<Delivery.Action>, s: System)
    requires Initial(start) && Execution(start, actions, s) && |actions| < U32_LIMIT && s.client.world.Some?
    ensures var prediction, player := s.client.prediction, PlayerIn(s.client.world.value, s.side);
            && prediction.pending == Past(Foreseen(start, actions), player.lastAckedInputTick)
            && prediction.position == Replay(PositionOf(player), prediction.pending)
            && FromAShot(s, s.client.world.value)
  {
    ExecutionsAgree(start, actions, s);
  }

  /**
   What the room holds for the player, and so will carry out on its next tick, is what the client has predicted for the
   tick the room holds it from, or nothing at all.
   */
  lemma RoomHoldsWhatWasPredicted(start: System, actions: seq<Delivery.Action>, s: System)
    requires Initial(start) && Execution(start, actions, s) && |actions| < U32_LIMIT
    ensures var held := SlotOf(s.room, s.side).input;
            held.moveX == held.moveY == 0
            || PendingInput(held.tick, held.moveX, held.moveY) in Foreseen(start, actions)
  {
    ExecutionsAgree(start, actions, s);
    var held, inputs := SlotOf(s.room, s.side).input, Foreseen(start, actions);
    if IsPredicted(inputs, held.tick, held.moveX, held.moveY) {
      assert inputs[held.tick - 1] in inputs;
    }
  }

  // ---------------------------------------------------------------- the opponent and the commands

  /** A point of the buffer is where some snapshot has shown the opponent. */
  ghost predicate IsShown(s: System, p: Interpolation.Point) {
    exists u :: u in s.shots && u.serverTick == p.tick && PlayerIn(u, !s.side).positionX as real == p.x
                && PlayerIn(u, !s.side).positionY as real == p.y
  }

  ghost predicate Truthful(s: System) {
    s.client.opponent.capacity == CAPACITY && forall p :: p in s.client.opponent.points ==> IsShown(s, p)
  }

  lemma PushedPoints(b: Interpolation.Buffer, tick: nat, x: int, y: int, p: Interpolation.Point)
    ensures p in Interpolation.Pushed(b, tick, x, y).points ==>
              p in b.points || p == Interpolation.Point(tick, x as real, y as real)
  {
  }

  lemma SnapshotStaysTruthful(s: System, c: Client, shot: Snapshot, published: Snapshot)
    requires Truthful(s) && NamesAreClear(s) && (c == s.client || c == s.client.(started := true))
    requires published in s.shots && shot == published.(status := shot.status)
    ensures Truthful(s.(client := SnapshotApplied(c, shot)))
  {
    if !Stale(c, shot) {
      SnapshotIsApplied(c, shot, s.side);
      var t, theirs := s.(client := SnapshotApplied(c, shot)), PlayerIn(shot, !s.side);
      forall p | p in t.client.opponent.points ensures IsShown(t, p) {
        PushedPoints(c.opponent, shot.serverTick, theirs.positionX, theirs.positionY, p);
        if p in c.opponent.points {
          assert IsShown(s, p);
        } else {
          assert published.serverTick == p.tick && PlayerIn(published, !s.side) == theirs;
        }
      }
    }
  }

  lemma MoreShotsStayTruthful(s: System, t: System)
    requires Truthful(s) && t.client.opponent == s.client.opponent && t.side == s.side && s.shots <= t.shots
    ensures Truthful(t)
  {
    forall p | p in t.client.opponent.points ensures IsShown(t, p) {
      assert IsShown(s, p);
    }
  }

  lemma ActionStaysTruthful(s: System, action: Delivery.Action)
    requires Truthful(s) && NamesAreClear(s) && Possible(s, action)
    ensures Truthful(Delivery.Next(s, action))
  {
    match action
    case ClientStarts(shot) => SnapshotStaysTruthful(s, s.client.(started := true), shot, shot);
    case ClientReceives(shot) => SnapshotStaysTruthful(s, s.client, shot, shot);
    case ClientEnds(shot) =>
      SnapshotStaysTruthful(s, s.client, shot.(status := MatchFinished), shot);
      MoreShotsStayTruthful(s.(client := SnapshotApplied(s.client, shot.(status := MatchFinished))),
                            Delivery.Next(s, action));
    case _ => MoreShotsStayTruthful(s, Delivery.Next(s, action));
  }

  /** The client interpolates the opponent between positions the room has published, under their own ticks. */
  lemma {:induction false} OpponentIsWhereShown(start: System, actions: seq<Delivery.Action>, end: System)
    requires Initial(start) && Execution(start, actions, end)
    ensures Truthful(end)
    decreases |actions|
  {
    ExecutionLeadsTo(start, actions, end);
    if actions != [] {
      var n := |actions| - 1;
      var mid := After(start, actions[..n]);
      var base, top := InvariantOverExecutions(start, actions[..n], mid);
      InvariantClearsNames(mid, base, top);
      OpponentIsWhereShown(start, actions[..n], mid);
      ActionStaysTruthful(mid, actions[n]);
    }
  }

  lemma {:induction false} OnlyLaterStay(commands: seq<Command>, acked: U32, c: Command)
    ensures c in Unacknowledged(commands, acked) <==> c in commands && c.sequence > acked
    decreases |commands|
  {
    if commands != [] {
      assert commands == [commands[0]] + commands[1..];
      OnlyLaterStay(commands[1..], acked, c);
    }
  }

  /**
   A snapshot that is not out of date becomes the world as it is; the commands past its acknowledgement go on waiting;
   and the opponent's newest point is where it shows them, unless a later one is known.
   */
  lemma SnapshotsAreShown(start: System, actions: seq<Delivery.Action>, s: System, shot: Snapshot)
    requires Initial(start) && Execution(start, actions, s) && shot in s.shots && IsNews(s.client, shot)
    ensures var c, t := s.client, Delivery.Next(s, ClientReceives(shot)).client;
            var mine, theirs := PlayerIn(shot, s.side), PlayerIn(shot, !s.side);
            && t.world == Some(shot.(arenaID := if c.arenaID == "" then shot.arenaID else c.arenaID))
            && (forall command :: command in t.queue.pending
                                  <==> command in c.queue.pending && command.sequence > mine.lastAckedActionSequence)
            && ((forall p :: p in c.opponent.points ==> p.tick < shot.serverTick) ==>
                  t.opponent.points != [] && Interpolation.Newest(t.opponent.points)
                  == Interpolation.Point(shot.serverTick, theirs.positionX as real, theirs.positionY as real))
  {
    var base, top := InvariantOverExecutions(start, actions, s);
    InvariantClearsNames(s, base, top);
    OpponentIsWhereShown(start, actions, s);
    SnapshotIsApplied(s.client, shot, s.side);
    ShownToClient(s.client, SnapshotApplied(s.client, shot), shot, s.side);
  }

  lemma ShownToClient(c: Client, t: Client, shot: Snapshot, side: Side)
    requires c.opponent.capacity == CAPACITY
    requires var mine, theirs := PlayerIn(shot, side), PlayerIn(shot, !side);
             && t.queue.pending == Unacknowledged(c.queue.pending, mine.lastAckedActionSequence)
             && t.opponent == Interpolation.Pushed(c.opponent, shot.serverTick, theirs.positionX, theirs.positionY)
    ensures var mine, theirs := PlayerIn(shot, side), PlayerIn(shot, !side);
            && (forall command :: command in t.queue.pending
                                  <==> command in c.queue.pending && command.sequence > mine.lastAckedActionSequence)
            && ((forall p :: p in c.opponent.points ==> p.tick < shot.serverTick) ==>
                  t.opponent.points != [] && Interpolation.Newest(t.opponent.points)
                  == Interpolation.Point(shot.serverTick, theirs.positionX as real, theirs.positionY as real))
  {
    forall command
      ensures command in t.queue.pending
         <==> command in c.queue.pending && command.sequence > PlayerIn(shot, side).lastAckedActionSequence
    {
      OnlyLaterStay(c.queue.pending, PlayerIn(shot, side).lastAckedActionSequence, command);
    }
    if c.opponent.points != [] {
      assert Interpolation.Newest(c.opponent.points) in c.opponent.points;
    }
  }
}
