/**
 Client-side prediction of the local player's position, and what it has to do with the server's movement rule.
 */
module Prediction {
  import opened RoomModel
  import opened RoomSlots
  import RoomLifecycle

  const MOVEMENT_PER_TICK := 10
  const ARENA_MIN_X := -500
  const ARENA_MAX_X := 500
  const ARENA_MIN_Y := -300
  const ARENA_MAX_Y := 300

  datatype Position = Position(x: int, y: int)
  datatype PendingInput = PendingInput(tick: U32, moveX: I8, moveY: I8)
  datatype Predicted = Predicted(position: Position, pending: seq<PendingInput>)

  const NOTHING_PREDICTED := Predicted(Position(0, 0), [])

  function ApplyMovement(p: Position, moveX: int, moveY: int): Position {
    Position(Clamp(p.x + moveX * MOVEMENT_PER_TICK, ARENA_MIN_X, ARENA_MAX_X),
             Clamp(p.y + moveY * MOVEMENT_PER_TICK, ARENA_MIN_Y, ARENA_MAX_Y))
  }

  function Replay(p: Position, inputs: seq<PendingInput>): Position {
    if inputs == [] then p
    else
      var last := |inputs| - 1;
      ApplyMovement(Replay(p, inputs[..last]), inputs[last].moveX, inputs[last].moveY)
  }

  /** The client clamps wider axes than the server's `ClampAxis`, to the same range. */
  function ClampWide(axis: I32): I8 {
    if axis < -1 then -1 else if axis > 1 then 1 else axis
  }

  function Applied(p: Predicted, tick: U32, moveX: I32, moveY: I32): Predicted {
    var x, y := ClampWide(moveX), ClampWide(moveY);
    Predicted(ApplyMovement(p.position, x, y), p.pending + [PendingInput(tick, x, y)])
  }

  /** How many inputs at the front of the buffer an acknowledgement covers. */
  function AckedCount(inputs: seq<PendingInput>, acked: U32): (n: nat)
    ensures n <= |inputs|
  {
    if inputs == [] || inputs[0].tick > acked then 0 else 1 + AckedCount(inputs[1..], acked)
  }

  function Reconciled(p: Predicted, authoritative: Position, acked: U32): Predicted {
    var left := p.pending[AckedCount(p.pending, acked)..];
    Predicted(Replay(authoritative, left), left)
  }

  class LocalPrediction {
    var predicted: Position
    var pending: seq<PendingInput>

    ghost function Value(): Predicted
      reads this
    {
      Predicted(predicted, pending)
    }

    constructor ()
      ensures Value() == NOTHING_PREDICTED
    {
      predicted, pending := Position(0, 0), [];
    }

    method ApplyInput(tick: U32, moveX: I32, moveY: I32)
      modifies this
      ensures Value() == Applied(old(Value()), tick, moveX, moveY)
    {
      var clampedX, clampedY := ClampWide(moveX), ClampWide(moveY);
      pending := pending + [PendingInput(tick, clampedX, clampedY)];
      predicted := ApplyMovement(predicted, clampedX, clampedY);
    }

    method Reconcile(authoritative: Position, lastAckedInputTick: U32)
      modifies this
      ensures Value() == Reconciled(old(Value()), authoritative, lastAckedInputTick)
    {
      ghost var before := pending;
      ghost var popped := 0;
      while pending != [] && pending[0].tick <= lastAckedInputTick
        invariant 0 <= popped <= |before| && pending == before[popped..]
        invariant AckedCount(before, lastAckedInputTick) == popped + AckedCount(pending, lastAckedInputTick)
        decreases |pending|
      {
        pending := pending[1..];
        popped := popped + 1;
      }
      predicted := authoritative;
      var inputs := pending;
      for n := 0 to |inputs|
        invariant pending == inputs && predicted == Replay(authoritative, inputs[..n])
      {
        assert inputs[..n + 1][..n] == inputs[..n];
        predicted := ApplyMovement(predicted, inputs[n].moveX, inputs[n].moveY);
      }
      assert inputs[..|inputs|] == inputs;
    }
  }

  // ---------------------------------------------------------------- the same rule as the server's

  /** A player the server lets move. */
  predicate Movable(p: PlayerState) {
    p.hp > 0 && p.actionState != Dashing && p.actionState != Hit && p.actionState != KO
  }

  function PositionOf(p: PlayerState): Position {
    Position(p.positionX, p.positionY)
  }

  /** One tick of the server's movement phase is one predicted step, in every arena. */
  lemma ServerMovesTheSame(arenaID: string, slot: Slot)
    requires Movable(slot.player)
    ensures PositionOf(MoveSlot(MatchRules(arenaID), slot).player)
         == ApplyMovement(PositionOf(slot.player), slot.input.moveX, slot.input.moveY)
  {
  }

  /** On its next tick the room moves this player by the given input and by nothing else. */
  predicate MovesBy(s: State, side: Side, input: PendingInput) {
    var slot := SlotOf(s, side);
    && s.status == MatchActive && Movable(AdvanceSlot(s.rules, slot).player)
    && slot.input.moveX == input.moveX && slot.input.moveY == input.moveY
    && TickSlot(s.rules, s.tick + 1, slot).player.actionState != Dashing
  }

  lemma TickFollowsThePrediction(arenaID: string, tick: nat, slot: Slot)
    requires Movable(AdvanceSlot(MatchRules(arenaID), slot).player)
    requires TickSlot(MatchRules(arenaID), tick, slot).player.actionState != Dashing
    ensures PositionOf(TickSlot(MatchRules(arenaID), tick, slot).player)
         == ApplyMovement(PositionOf(slot.player), slot.input.moveX, slot.input.moveY)
  {
    ServerMovesTheSame(arenaID, AdvanceSlot(MatchRules(arenaID), slot));
    var kind := TickSlotShape(MatchRules(arenaID), tick, slot);
    MovedFrame(MatchRules(arenaID), slot);
  }

  lemma BlowsMoveNobody(slot: Slot, tick: nat, damage: int)
    ensures PositionOf(Struck(slot, tick, damage).player) == PositionOf(slot.player)
  {
  }

  lemma StepFollowsThePrediction(s: State, side: Side, input: PendingInput)
    requires s.rules == MatchRules(s.rules.arena.id) && MovesBy(s, side, input)
    ensures PositionOf(SlotOf(Step(s), side).player)
         == ApplyMovement(PositionOf(SlotOf(s, side).player), input.moveX, input.moveY)
  {
    TickFollowsThePrediction(s.rules.arena.id, s.tick + 1, SlotOf(s, side));
    var damage := ActiveSlot(s, side);
    BlowsMoveNobody(TickSlot(s.rules, s.tick + 1, SlotOf(s, side)), s.tick + 1, damage);
  }

  /**
   Over a run of the room, each tick moves the player by the next of the inputs. Anything may be delivered to either
   player in between.
   */
  ghost predicate ServesInOrder(s: State, side: Side, events: seq<Event>, inputs: seq<PendingInput>)
    decreases |events|
  {
    if events == [] then inputs == []
    else
      var before, last := events[..|events| - 1], events[|events| - 1];
      if last == Tick then
        && inputs != [] && ServesInOrder(s, side, before, inputs[..|inputs| - 1])
        && MovesBy(Run(s, before), side, inputs[|inputs| - 1])
      else ServesInOrder(s, side, before, inputs)
  }

  /** A room that runs the inputs, one tick each, ends up where the client's replay of them does. */
  lemma {:induction false} ServingIsReplaying(s: State, side: Side, events: seq<Event>, inputs: seq<PendingInput>)
    requires RoomLifecycle.Consistent(s) && s.rules == MatchRules(s.rules.arena.id)
    requires ServesInOrder(s, side, events, inputs)
    ensures PositionOf(SlotOf(Run(s, events), side).player) == Replay(PositionOf(SlotOf(s, side).player), inputs)
    decreases |events|
  {
    if events != [] {
      var before, n := events[..|events| - 1], |inputs| - 1;
      RoomLifecycle.RunsAreConsistent(s, before);
      match events[|events| - 1] {
        case Deliver(id, input) =>
          ServingIsReplaying(s, side, before, inputs);
          RoomLifecycle.SubmitPreservesAllButQueues(Run(s, before), id, input);
        case Tick =>
          ServingIsReplaying(s, side, before, inputs[..n]);
          StepFollowsThePrediction(Run(s, before), side, inputs[n]);
      }
    }
  }

  // ---------------------------------------------------------------- over every run of the client

  datatype ClientEvent =
    | Input(tick: U32, moveX: I32, moveY: I32)
    | Snapshot(authoritative: Position, acked: U32)

  function Handle(p: Predicted, e: ClientEvent): Predicted {
    match e
    case Input(tick, x, y) => Applied(p, tick, x, y)
    case Snapshot(position, acked) => Reconciled(p, position, acked)
  }

  function RunClient(events: seq<ClientEvent>): Predicted {
    if events == [] then NOTHING_PREDICTED
    else Handle(RunClient(events[..|events| - 1]), events[|events| - 1])
  }

  /** The last position the server has told the client. */
  function LastKnown(events: seq<ClientEvent>): Position {
    if events == [] then Position(0, 0)
    else if events[|events| - 1].Snapshot? then events[|events| - 1].authoritative
    else LastKnown(events[..|events| - 1])
  }

  /** The prediction is always the server's rule run from the last known position over the unacknowledged inputs. */
  lemma {:induction false} PredictionIsReplay(events: seq<ClientEvent>)
    ensures RunClient(events).position == Replay(LastKnown(events), RunClient(events).pending)
    decreases |events|
  {
    if events != [] {
      var before := events[..|events| - 1];
      PredictionIsReplay(before);
      var p := RunClient(before);
      match events[|events| - 1] {
        case Input(tick, x, y) =>
          assert RunClient(events).pending[..|p.pending|] == p.pending;
        case Snapshot(_, _) =>
      }
    }
  }

  lemma {:induction false} ReplayAppend(p: Position, xs: seq<PendingInput>, ys: seq<PendingInput>)
    ensures Replay(p, xs + ys) == Replay(Replay(p, xs), ys)
    decreases |ys|
  {
    if ys == [] {
      assert xs + ys == xs;
    } else {
      var n := |ys| - 1;
      assert (xs + ys)[..|xs + ys| - 1] == xs + ys[..n];
      ReplayAppend(p, xs, ys[..n]);
    }
  }

  /** On each axis, `p` and `q` are at most as far apart as `u` and `v`. */
  predicate NoFurther(p: Position, q: Position, u: Position, v: Position) {
    Abs(p.x - q.x) <= Abs(u.x - v.x) && Abs(p.y - q.y) <= Abs(u.y - v.y)
  }

  lemma StepNeverDiverges(p: Position, q: Position, u: Position, v: Position, moveX: int, moveY: int)
    requires NoFurther(p, q, u, v)
    ensures NoFurther(ApplyMovement(p, moveX, moveY), ApplyMovement(q, moveX, moveY), u, v)
  {
  }

  /** Running both from two positions never moves them further apart on either axis. */
  lemma {:induction false} ReplayNeverDiverges(p: Position, q: Position, inputs: seq<PendingInput>)
    ensures NoFurther(Replay(p, inputs), Replay(q, inputs), p, q)
    decreases |inputs|
  {
    if inputs != [] {
      var n := |inputs| - 1;
      ReplayNeverDiverges(p, q, inputs[..n]);
      StepNeverDiverges(Replay(p, inputs[..n]), Replay(q, inputs[..n]), p, q, inputs[n].moveX, inputs[n].moveY);
    }
  }

  /**
   The jump a snapshot causes is, on each axis, at most the distance between the server's position and the client's
   own prediction for the acknowledged tick.
   */
  lemma CorrectionIsBounded(events: seq<ClientEvent>, authoritative: Position, acked: U32)
    ensures var p := RunClient(events);
            var foreseen := Replay(LastKnown(events), p.pending[..AckedCount(p.pending, acked)]);
            NoFurther(Reconciled(p, authoritative, acked).position, p.position, authoritative, foreseen)
  {
    var p := RunClient(events);
    var n := AckedCount(p.pending, acked);
    PredictionIsReplay(events);
    ReplayFrom(LastKnown(events), p.pending, n);
    ReplayNeverDiverges(authoritative, Replay(LastKnown(events), p.pending[..n]), p.pending[n..]);
  }

  lemma ReplayFrom(p: Position, inputs: seq<PendingInput>, n: nat)
    requires n <= |inputs|
    ensures Replay(p, inputs) == Replay(Replay(p, inputs[..n]), inputs[n..])
  {
    ReplayAppend(p, inputs[..n], inputs[n..]);
    assert inputs == inputs[..n] + inputs[n..];
  }

  lemma NoDistance(served: Position, p: Position, q: Position)
    requires NoFurther(q, p, served, served)
    ensures p == q
  {
  }

  /**
   If the room, from the state the client last heard of, has run exactly the inputs its snapshot acknowledges, one tick
   each, then the snapshot corrects nothing.
   */
  lemma FaithfulServerCorrectsNothing(client: seq<ClientEvent>, s: State, side: Side, events: seq<Event>)
    requires RoomLifecycle.Consistent(s) && s.rules == MatchRules(s.rules.arena.id)
    requires PositionOf(SlotOf(s, side).player) == LastKnown(client)
    requires var p, acked := RunClient(client), SlotOf(Run(s, events), side).player.lastAckedInputTick;
             ServesInOrder(s, side, events, p.pending[..AckedCount(p.pending, acked)])
    ensures var p, player := RunClient(client), SlotOf(Run(s, events), side).player;
            Reconciled(p, PositionOf(player), player.lastAckedInputTick).position == p.position
  {
    var p, player := RunClient(client), SlotOf(Run(s, events), side).player;
    var authoritative, acked := PositionOf(player), player.lastAckedInputTick;
    ServingIsReplaying(s, side, events, p.pending[..AckedCount(p.pending, acked)]);
    CorrectionIsBounded(client, authoritative, acked);
    NoDistance(authoritative, p.position, Reconciled(p, authoritative, acked).position);
  }

  ghost predicate AscendingTicks(inputs: seq<PendingInput>) {
    forall i, j :: 0 <= i < j < |inputs| ==> inputs[i].tick < inputs[j].tick
  }

  /** Popping from the front removes exactly the acknowledged inputs, as the ticks ascend. */
  lemma {:induction false} AckedArePopped(inputs: seq<PendingInput>, acked: U32)
    requires AscendingTicks(inputs)
    ensures forall i :: 0 <= i < |inputs| ==> (inputs[i].tick <= acked <==> i < AckedCount(inputs, acked))
  {
    if inputs != [] && inputs[0].tick <= acked {
      AckedArePopped(inputs[1..], acked);
      forall i | 0 <= i < |inputs|
        ensures inputs[i].tick <= acked <==> i < AckedCount(inputs, acked)
      {
        if i > 0 {
          assert inputs[i] == inputs[1..][i - 1];
        }
      }
    }
  }
}
