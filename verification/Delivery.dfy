/**
 The command protocol end to end: a client that repeats its waiting commands, a network that may drop, repeat and
 reorder datagrams in both directions, and the room. Together they behave like a reliable first-in first-out
 queue: what the room has consumed is always a prefix of what the client has enqueued, command by command, each
 exactly once.
 */
module Delivery {
  import opened RoomModel
  import opened RoomSlots
  import opened RoomCommands
  import opened ActionQueue
  import opened MatchController
  import RoomLifecycle

  /**
   `sent` and `shots` are all datagrams ever handed to the network: a datagram is delivered whenever a step picks
   it, so it may arrive late, repeatedly, in any order or never. `log` and `consumed` are the commands enqueued by
   the client and consumed by the room so far.
   */
  datatype System = System(room: State, client: Client, side: Side, sent: set<Input>, shots: set<Snapshot>,
                           log: seq<ActionCommand>, consumed: seq<ActionCommand>)

  datatype Action =
    | ClientTicks(frame: InputFrame)
    | ClientStarts(shot: Snapshot)
    | ClientReceives(shot: Snapshot)
    | ClientEnds(shot: Snapshot)
    | RoomReceives(datagram: Input)
    | RoomReceivesFromOther(id: string, input: Input)
    | RoomTicks

  ghost predicate Possible(s: System, action: Action) {
    match action
    case ClientStarts(shot) => shot in s.shots
    case ClientReceives(shot) => shot in s.shots
    case ClientEnds(shot) => shot in s.shots
    case RoomReceives(datagram) => datagram in s.sent
    case RoomReceivesFromOther(id, _) => id != s.client.localPlayerID
    case _ => true
  }

  /** The commands the client enqueues on this tick, as they will travel. */
  function Added(before: Queue, after: Queue): seq<ActionCommand> {
    if |after.pending| <= |before.pending| then [] else AllOnWire(after.pending[|before.pending|..])
  }

  function Next(s: System, action: Action): System {
    match action
    case ClientTicks(frame) =>
      var client := Ticked(s.client, frame);
      var sent := if Playing(s.client) then s.sent + {Outgoing(client, frame)} else s.sent;
      s.(client := client, sent := sent, log := s.log + Added(s.client.queue, client.queue))
    case ClientStarts(shot) => s.(client := SnapshotApplied(s.client.(started := true), shot))
    case ClientReceives(shot) => s.(client := SnapshotApplied(s.client, shot))
    case ClientEnds(shot) =>
      s.(client := SnapshotApplied(s.client, shot.(status := MatchFinished)).(ended := true))
    case RoomReceives(datagram) => s.(room := Submit(s.room, s.client.localPlayerID, datagram))
    case RoomReceivesFromOther(id, input) => s.(room := Submit(s.room, id, input))
    case RoomTicks =>
      var room := Step(s.room);
      s.(room := room, shots := s.shots + {SnapshotOf(room)}, consumed := s.consumed + Consumed(s.room, s.side))
  }

  ghost predicate Initial(s: System) {
    && (exists a, b, r :: a != "" && b != "" && a != b && Accepted(r) && s.room == NewState(a, b, r))
    && s.client == NewClient(SlotOf(s.room, s.side).player.id)
    && s.sent == {} && s.shots == {SnapshotOf(s.room)} && s.log == [] && s.consumed == []
  }

  ghost predicate Execution(start: System, actions: seq<Action>, end: System) {
    if actions == [] then start == end
    else
      var n := |actions| - 1;
      exists mid :: Execution(start, actions[..n], mid) && Possible(mid, actions[n]) && end == Next(mid, actions[n])
  }

  // ---------------------------------------------------------------- the invariant

  /** Sequence numbers are given out from 1 and never again. */
  ghost predicate Numbered(log: seq<ActionCommand>) {
    |log| < U32_LIMIT && forall i :: 0 <= i < |log| ==> log[i].sequence == i + 1
  }

  ghost predicate ClientHolds(queue: Queue, log: seq<ActionCommand>, base: nat) {
    && base <= |log| && |queue.pending| <= MAXIMUM_SIZE
    && AllOnWire(queue.pending) == log[base..]
    && queue.nextSequence == (|log| + 1) % U32_LIMIT
  }

  /** Each datagram carries a stretch of the log that starts at or before the room's acknowledgement. */
  ghost predicate Stretch(datagram: Input, log: seq<ActionCommand>, ack: nat) {
    exists lo: nat, hi: nat :: Carries(datagram, log, lo, hi) && lo <= ack
  }

  ghost predicate Carries(datagram: Input, log: seq<ActionCommand>, lo: nat, hi: nat) {
    lo <= hi <= |log| && hi <= lo + MAXIMUM_SIZE && datagram.actions == log[lo..hi]
  }

  /** The room's queue is the stretch of the log after the acknowledgement, up to `top`. */
  ghost predicate RoomHolds(slot: Slot, log: seq<ActionCommand>, top: nat) {
    var ack := slot.player.lastAckedActionSequence;
    ack <= top <= |log| && top <= ack + MAX_PENDING_ACTIONS && slot.pending == log[ack..top]
  }

  function Ack(s: System): U32 {
    SlotOf(s.room, s.side).player.lastAckedActionSequence
  }

  function AckIn(shot: Snapshot, side: Side): U32 {
    if side then shot.playerA.lastAckedActionSequence else shot.playerB.lastAckedActionSequence
  }

  function NameIn(shot: Snapshot, side: Side): string {
    if side then shot.playerA.id else shot.playerB.id
  }

  ghost predicate Invariant(s: System, base: nat, top: nat) {
    && Numbered(s.log)
    && s.room.a.player.id != s.room.b.player.id && s.client.localPlayerID == SlotOf(s.room, s.side).player.id
    && ClientHolds(s.client.queue, s.log, base) && base <= Ack(s)
    && (forall d :: d in s.sent ==> Stretch(d, s.log, Ack(s)))
    && (forall shot :: shot in s.shots ==>
          && AckIn(shot, s.side) <= Ack(s) && NameIn(shot, s.side) == s.client.localPlayerID
          && NameIn(shot, !s.side) != s.client.localPlayerID)
    && RoomHolds(SlotOf(s.room, s.side), s.log, top)
    && Ack(s) <= |s.log| && s.consumed == s.log[..Ack(s)]
  }

  // ---------------------------------------------------------------- the client end

  lemma {:induction false} AcknowledgeDropsPrefix(pending: seq<Command>, log: seq<ActionCommand>, base: nat, ack: U32)
    returns (newBase: nat)
    requires Numbered(log) && base <= |log| && AllOnWire(pending) == log[base..] && ack <= |log|
    ensures newBase == if ack > base then ack else base
    ensures newBase <= |log| && AllOnWire(Unacknowledged(pending, ack)) == log[newBase..]
    ensures |Unacknowledged(pending, ack)| <= |pending|
    decreases |pending|
  {
    newBase := base;
    if pending != [] {
      assert |AllOnWire(pending)| == |pending|;
      assert AllOnWire(pending)[0] == OnWire(pending[0]) == log[base];
      assert AllOnWire(pending[1..]) == AllOnWire(pending)[1..];
      if pending[0].sequence <= ack {
        newBase := AcknowledgeDropsPrefix(pending[1..], log, base + 1, ack);
      } else {
        var rest := AcknowledgeDropsPrefix(pending[1..], log, base + 1, ack);
        assert rest == base + 1;
        assert AllOnWire([pending[0]] + Unacknowledged(pending[1..], ack))
            == [OnWire(pending[0])] + AllOnWire(Unacknowledged(pending[1..], ack));
      }
    } else {
      assert |log[base..]| == 0;
    }
  }

  /** Enqueueing appends to the log and to what waits, under the next number. */
  lemma EnqueueExtends(q: Queue, action: ActionQueue.Action, log: seq<ActionCommand>, base: nat)
    requires Numbered(log) && ClientHolds(q, log, base)
    ensures var after := Enqueued(q, action); var longer := log + Added(q, after);
            && Numbered(longer) && ClientHolds(after, longer, base)
            && q.pending <= after.pending
  {
    var after := Enqueued(q, action);
    if CanEnqueue(q, action) {
      var command := Command(q.nextSequence, action);
      assert after.pending[|q.pending|..] == [command];
      assert Added(q, after) == [OnWire(command)];
      assert AllOnWire(after.pending) == AllOnWire(q.pending) + [OnWire(command)];
      assert |log| + 1 < U32_LIMIT;
    } else {
      assert log + Added(q, after) == log;
    }
  }

  lemma AddedInTwoSteps(q: Queue, mid: Queue, after: Queue)
    requires q.pending <= mid.pending <= after.pending
    ensures Added(q, mid) + Added(mid, after) == Added(q, after)
  {
  }

  lemma {:induction false} PressedExtends(q: Queue, pressed: seq<ActionQueue.Action>, log: seq<ActionCommand>,
                                          base: nat)
    requires Numbered(log) && ClientHolds(q, log, base)
    ensures var after := PressedEnqueued(q, pressed); var longer := log + Added(q, after);
            Numbered(longer) && ClientHolds(after, longer, base) && q.pending <= after.pending
    decreases |pressed|
  {
    if pressed == [] {
      assert log + Added(q, q) == log;
    } else {
      var n := |pressed| - 1;
      PressedExtends(q, pressed[..n], log, base);
      var mid := PressedEnqueued(q, pressed[..n]);
      if pressed[n] != PressLightAttack {
        EnqueueTwice(q, mid, pressed[n], log, base);
      }
    }
  }

  lemma EnqueueTwice(q: Queue, mid: Queue, action: ActionQueue.Action, log: seq<ActionCommand>, base: nat)
    requires q.pending <= mid.pending
    requires Numbered(log + Added(q, mid)) && ClientHolds(mid, log + Added(q, mid), base)
    ensures var after := Enqueued(mid, action); var longer := log + Added(q, after);
            Numbered(longer) && ClientHolds(after, longer, base) && q.pending <= after.pending
  {
    var after := Enqueued(mid, action);
    EnqueueExtends(mid, action, log + Added(q, mid), base);
    AddedInTwoSteps(q, mid, after);
    assert log + Added(q, mid) + Added(mid, after) == log + Added(q, after);
  }

  lemma TickExtends(c: Client, frame: InputFrame, log: seq<ActionCommand>, base: nat)
    requires Numbered(log) && ClientHolds(c.queue, log, base)
    ensures var after := Ticked(c, frame).queue; var longer := log + Added(c.queue, after);
            Numbered(longer) && ClientHolds(after, longer, base)
  {
    if Playing(c) {
      PressedExtends(c.queue, frame.pressed, log, base);
      EnqueueTwice(c.queue, PressedEnqueued(c.queue, frame.pressed), PressLightAttack, log, base);
    } else {
      assert log + Added(c.queue, c.queue) == log;
    }
  }

  // ---------------------------------------------------------------- the server end

  lemma InsertLargest(commands: seq<ActionCommand>, command: ActionCommand)
    requires forall i :: 0 <= i < |commands| ==> commands[i].sequence < command.sequence
    ensures InsertBySequence(commands, command) == commands + [command]
  {
    if commands != [] {
      InsertLargest(commands[1..], command);
    }
  }

  /** One command of the log: known, or next in line. It is never turned away. */
  lemma QueueNext(slot: Slot, log: seq<ActionCommand>, top: nat, at: nat)
    requires Numbered(log) && RoomHolds(slot, log, top) && at < |log| && at <= top
    requires at < slot.player.lastAckedActionSequence + MAX_PENDING_ACTIONS
    ensures QueueAction(slot, log[at]) == slot.(pending := QueueAction(slot, log[at]).pending)
    ensures RoomHolds(QueueAction(slot, log[at]), log, if at < top then top else top + 1)
  {
    var ack := slot.player.lastAckedActionSequence;
    assert log[at].sequence == at + 1;
    if ack <= at < top {
      assert slot.pending[at - ack] == log[at];
      assert HasSequence(slot.pending, log[at].sequence);
    } else if at == top {
      forall i | 0 <= i < |slot.pending| ensures slot.pending[i].sequence < log[at].sequence {
        assert slot.pending[i] == log[ack + i];
      }
      InsertLargest(slot.pending, log[at]);
      assert log[ack..top + 1] == log[ack..top] + [log[at]];
    }
  }

  lemma {:induction false} QueueStretch(slot: Slot, log: seq<ActionCommand>, top: nat, lo: nat, hi: nat)
    requires Numbered(log) && RoomHolds(slot, log, top) && lo <= hi <= |log| && lo <= top
    requires hi <= slot.player.lastAckedActionSequence + MAX_PENDING_ACTIONS
    ensures RoomHolds(QueueActions(slot, log[lo..hi]), log, if hi > top then hi else top)
    ensures QueueActions(slot, log[lo..hi]).player == slot.player
    decreases hi - lo
  {
    if lo < hi {
      QueueNext(slot, log, top, lo);
      assert log[lo..hi][0] == log[lo] && log[lo..hi][1..] == log[lo + 1..hi];
      QueueStretch(QueueAction(slot, log[lo]), log, if lo < top then top else top + 1, lo + 1, hi);
    }
  }

  /**
   An honest datagram whose tick is accepted leaves every command it carries pending or already acknowledged:
   neither the eight places nor the window of 64 ever turns one away.
   */
  lemma HonestCommandsAreKept(slot: Slot, datagram: Input, log: seq<ActionCommand>, top: nat, lo: nat, hi: nat)
    returns (newTop: nat)
    requires Numbered(log) && RoomHolds(slot, log, top)
    requires Carries(datagram, log, lo, hi) && lo <= slot.player.lastAckedActionSequence
    ensures newTop == if AcceptsTick(slot, datagram.tick) && hi > top then hi else top
    ensures RoomHolds(SubmitSlot(slot, datagram), log, newTop)
    ensures SubmitSlot(slot, datagram).player == slot.player
  {
    newTop := top;
    if AcceptsTick(slot, datagram.tick) {
      newTop := if hi > top then hi else top;
      assert Truncated(datagram.actions) == log[lo..hi];
      QueueStretch(RecordMovement(slot, datagram), log, top, lo, hi);
    }
  }

  // ---------------------------------------------------------------- the whole system

  lemma StretchesGrow(datagram: Input, log: seq<ActionCommand>, more: seq<ActionCommand>, ack: nat, newAck: nat)
    requires Stretch(datagram, log, ack) && ack <= newAck
    ensures Stretch(datagram, log + more, newAck)
  {
    var lo: nat, hi: nat :| Carries(datagram, log, lo, hi) && lo <= ack;
    assert (log + more)[lo..hi] == log[lo..hi];
    assert Carries(datagram, log + more, lo, hi);
  }

  lemma ClientTickKeeps(s: System, frame: InputFrame, base: nat, top: nat)
    requires Invariant(s, base, top)
    ensures Invariant(Next(s, ClientTicks(frame)), base, top)
  {
    var t := Next(s, ClientTicks(frame));
    var more := Added(s.client.queue, t.client.queue);
    TickExtends(s.client, frame, s.log, base);
    assert |AllOnWire(t.client.queue.pending)| == |t.client.queue.pending|;
    forall d | d in t.sent ensures Stretch(d, t.log, Ack(t)) {
      if d in s.sent {
        StretchesGrow(d, s.log, more, Ack(s), Ack(t));
      } else {
        assert t.log[base..|t.log|] == t.log[base..];
        assert Carries(d, t.log, base, |t.log|);
      }
    }
    assert t.log[..Ack(s)] == s.log[..Ack(s)];
    var ack := SlotOf(s.room, s.side).player.lastAckedActionSequence;
    assert t.log[ack..top] == s.log[ack..top];
  }

  lemma SnapshotKeeps(s: System, c: Client, shot: Snapshot, base: nat, top: nat) returns (newBase: nat)
    requires Invariant(s, base, top) && c == s.client.(started := c.started)
    requires exists published :: published in s.shots && shot == published.(status := shot.status)
    ensures Invariant(s.(client := SnapshotApplied(c, shot)), newBase, top)
    ensures !Stale(c, shot) ==> newBase >= AckIn(shot, s.side)
  {
    var published :| published in s.shots && shot == published.(status := shot.status);
    newBase := base;
    if !Stale(c, shot) {
      newBase := AcknowledgeDropsPrefix(c.queue.pending, s.log, base, AckIn(shot, s.side));
    }
  }

  lemma RoomReceivesKeeps(s: System, datagram: Input, base: nat, top: nat) returns (newTop: nat)
    requires Invariant(s, base, top) && datagram in s.sent
    ensures Invariant(Next(s, RoomReceives(datagram)), base, newTop) && newTop >= top
    ensures AcceptsTick(SlotOf(s.room, s.side), datagram.tick) ==>
              newTop >= top && forall i :: 0 <= i < |datagram.actions| ==> datagram.actions[i].sequence <= newTop
  {
    var slot := SlotOf(s.room, s.side);
    var lo: nat, hi: nat :| Carries(datagram, s.log, lo, hi) && lo <= Ack(s);
    newTop := HonestCommandsAreKept(slot, datagram, s.log, top, lo, hi);
    assert SlotOf(Submit(s.room, s.client.localPlayerID, datagram), s.side) == SubmitSlot(slot, datagram);
    RoomLifecycle.SubmitPreservesAllButQueues(s.room, s.client.localPlayerID, datagram);
    forall i | 0 <= i < |datagram.actions| ensures datagram.actions[i].sequence <= hi {
      assert datagram.actions[i] == s.log[lo + i];
    }
  }

  lemma OtherKeeps(s: System, id: string, input: Input, base: nat, top: nat)
    requires Invariant(s, base, top) && id != s.client.localPlayerID
    ensures Invariant(Next(s, RoomReceivesFromOther(id, input)), base, top)
  {
    RoomLifecycle.SubmitPreservesAllButQueues(s.room, id, input);
    assert SlotOf(Submit(s.room, id, input), s.side) == SlotOf(s.room, s.side);
  }

  /** A tick of an unfinished room acknowledges everything that was pending. */
  lemma RoomTickKeeps(s: System, base: nat, top: nat)
    requires Invariant(s, base, top)
    ensures Invariant(Next(s, RoomTicks), base, top)
    ensures s.room.status != MatchFinished ==> Ack(Next(s, RoomTicks)) == top
  {
    if s.room.status == MatchFinished {
      FinishedTickKeeps(s, base, top);
    } else {
      NamesAreKept(s.room);
      SlotConsumes(s.room, s.side, s.log, top);
      ConsumedIsKept(s, base, top, Step(s.room));
    }
  }

  lemma FinishedTickKeeps(s: System, base: nat, top: nat)
    requires Invariant(s, base, top) && s.room.status == MatchFinished
    ensures Invariant(Next(s, RoomTicks), base, top)
  {
    assert s.consumed + [] == s.consumed;
  }

  lemma SlotConsumes(room: State, side: Side, log: seq<ActionCommand>, top: nat)
    requires room.status != MatchFinished && Numbered(log) && RoomHolds(SlotOf(room, side), log, top)
    ensures var after := SlotOf(Step(room), side);
            after.pending == [] && after.player.lastAckedActionSequence == top
  {
    var slot := SlotOf(room, side);
    TickAcknowledges(room, side);
    assert LastSequence(slot.player.lastAckedActionSequence, slot.pending) == top;
  }

  lemma ConsumedIsKept(s: System, base: nat, top: nat, room: State)
    requires Invariant(s, base, top)
    requires SlotOf(room, s.side).pending == [] && SlotOf(room, s.side).player.lastAckedActionSequence == top
    requires room.a.player.id == s.room.a.player.id && room.b.player.id == s.room.b.player.id
    ensures Invariant(s.(room := room, shots := s.shots + {SnapshotOf(room)},
                         consumed := s.consumed + SlotOf(s.room, s.side).pending), base, top)
  {
    assert s.log[..Ack(s)] + s.log[Ack(s)..top] == s.log[..top];
    forall d | d in s.sent ensures Stretch(d, s.log, top) {
      StretchesGrow(d, s.log, [], Ack(s), top);
      assert s.log + [] == s.log;
    }
  }

  lemma NamesAreKept(room: State)
    ensures Step(room).a.player.id == room.a.player.id && Step(room).b.player.id == room.b.player.id
  {
    if room.status == MatchActive {
      TickSlotFrame(room.rules, room.tick + 1, room.a);
      TickSlotFrame(room.rules, room.tick + 1, room.b);
      var damageA := ActiveSlot(room, true);
      var damageB := ActiveSlot(room, false);
    }
  }

  lemma InvariantIsKept(s: System, action: Action, base: nat, top: nat) returns (newBase: nat, newTop: nat)
    requires Invariant(s, base, top) && Possible(s, action)
    ensures Invariant(Next(s, action), newBase, newTop)
  {
    newBase, newTop := base, top;
    match action
    case ClientTicks(frame) => ClientTickKeeps(s, frame, base, top);
    case ClientStarts(shot) => newBase := SnapshotKeeps(s, s.client.(started := true), shot, base, top);
    case ClientReceives(shot) => newBase := SnapshotKeeps(s, s.client, shot, base, top);
    case ClientEnds(shot) => newBase := SnapshotKeeps(s, s.client, shot.(status := MatchFinished), base, top);
    case RoomReceives(datagram) => newTop := RoomReceivesKeeps(s, datagram, base, top);
    case RoomReceivesFromOther(id, input) => OtherKeeps(s, id, input, base, top);
    case RoomTicks => RoomTickKeeps(s, base, top);
  }

  lemma {:induction false} InvariantOverExecutions(start: System, actions: seq<Action>, end: System)
    returns (base: nat, top: nat)
    requires Initial(start) && Execution(start, actions, end)
    ensures Invariant(end, base, top)
    decreases |actions|
  {
    if actions == [] {
      base, top := 0, 0;
    } else {
      var n := |actions| - 1;
      var mid :| Execution(start, actions[..n], mid) && Possible(mid, actions[n]) && end == Next(mid, actions[n]);
      base, top := InvariantOverExecutions(start, actions[..n], mid);
      base, top := InvariantIsKept(mid, actions[n], base, top);
    }
  }

  /**
   Exactly once and in order: in every execution, the commands the room has consumed are the commands the client
   has enqueued, up to the acknowledgement; and the client still holds every command beyond it.
   */
  lemma ExactlyOnceInOrder(start: System, actions: seq<Action>, end: System)
    requires Initial(start) && Execution(start, actions, end)
    ensures Ack(end) <= |end.log| && end.consumed == end.log[..Ack(end)]
    ensures forall i :: Ack(end) <= i < |end.log| ==> end.log[i] in AllOnWire(end.client.queue.pending)
    ensures forall i :: 0 <= i < |end.log| ==> end.log[i].sequence == i + 1
  {
    var base, top := InvariantOverExecutions(start, actions, end);
    forall i | Ack(end) <= i < |end.log|
      ensures end.log[i] in AllOnWire(end.client.queue.pending)
    {
      assert end.log[i] == end.log[base..][i - base];
    }
  }

  /** Over all executions: an accepted datagram leaves every command it carries acknowledged or pending. */
  lemma NothingHonestIsTurnedAway(start: System, actions: seq<Action>, s: System, datagram: Input, i: nat)
    requires Initial(start) && Execution(start, actions, s)
    requires datagram in s.sent && AcceptsTick(SlotOf(s.room, s.side), datagram.tick) && i < |datagram.actions|
    ensures var t := Next(s, RoomReceives(datagram));
            datagram.actions[i].sequence <= Ack(t) || datagram.actions[i] in SlotOf(t.room, t.side).pending
  {
    var base, top := InvariantOverExecutions(start, actions, s);
    var t, at := Next(s, RoomReceives(datagram)), PlaceInLog(s, base, top, datagram, i);
    top := AcceptedReaches(s, datagram, base, top, at, i);
    StillPending(t, base, top, at);
  }

  lemma AcceptedReaches(s: System, datagram: Input, base: nat, top: nat, at: nat, i: nat) returns (newTop: nat)
    requires Invariant(s, base, top) && datagram in s.sent && AcceptsTick(SlotOf(s.room, s.side), datagram.tick)
    requires i < |datagram.actions| && at < |s.log| && datagram.actions[i] == s.log[at]
    ensures var t := Next(s, RoomReceives(datagram));
            Invariant(t, base, newTop) && at < |t.log| && t.log[at] == s.log[at] && t.log[at].sequence <= newTop
  {
    newTop := RoomReceivesKeeps(s, datagram, base, top);
  }

  ghost function PlaceInLog(s: System, base: nat, top: nat, datagram: Input, i: nat): (at: nat)
    requires Invariant(s, base, top) && datagram in s.sent && i < |datagram.actions|
    ensures at < |s.log| && datagram.actions[i] == s.log[at]
  {
    var lo: nat :| exists hi: nat :: Carries(datagram, s.log, lo, hi) && lo <= Ack(s);
    lo + i
  }

  lemma StillPending(s: System, base: nat, top: nat, at: nat)
    requires Invariant(s, base, top) && at < |s.log| && s.log[at].sequence <= top
    ensures s.log[at].sequence <= Ack(s) || s.log[at] in SlotOf(s.room, s.side).pending
  {
    if at >= Ack(s) {
      assert SlotOf(s.room, s.side).pending[at - Ack(s)] == s.log[at];
    }
  }

  /** One accepted datagram followed by one tick acknowledges everything the datagram carries. */
  lemma OneDatagramSuffices(start: System, actions: seq<Action>, s: System, datagram: Input)
    requires Initial(start) && Execution(start, actions, s)
    requires datagram in s.sent && AcceptsTick(SlotOf(s.room, s.side), datagram.tick)
    requires s.room.status != MatchFinished
    ensures var after := Next(Next(s, RoomReceives(datagram)), RoomTicks);
            forall i :: 0 <= i < |datagram.actions| ==> datagram.actions[i].sequence <= Ack(after)
  {
    var base, top := InvariantOverExecutions(start, actions, s);
    top := RoomReceivesKeeps(s, datagram, base, top);
    ReceiptEndsNothing(s, datagram);
    RoomTickKeeps(Next(s, RoomReceives(datagram)), base, top);
  }

  lemma ReceiptEndsNothing(s: System, datagram: Input)
    ensures Next(s, RoomReceives(datagram)).room.status == s.room.status
  {
    RoomLifecycle.SubmitPreservesAllButQueues(s.room, s.client.localPlayerID, datagram);
  }

  /** A fresh snapshot that acknowledges the whole log empties the client's queue. */
  lemma QueueDrains(start: System, actions: seq<Action>, s: System, shot: Snapshot)
    requires Initial(start) && Execution(start, actions, s)
    requires shot in s.shots && !Stale(s.client, shot) && AckIn(shot, s.side) == |s.log|
    ensures Next(s, ClientReceives(shot)).client.queue.pending == []
  {
    var base, top := InvariantOverExecutions(start, actions, s);
    base := SnapshotKeeps(s, s.client, shot, base, top);
    var after := Next(s, ClientReceives(shot));
    assert |AllOnWire(after.client.queue.pending)| == |after.client.queue.pending|;
  }
}
