/** The client's side of a match: what it sends on a tick, and what a snapshot does to it. */
module MatchController {
  import opened RoomModel
  import opened ActionQueue
  import Interpolation
  import Prediction

  const LIGHT_ATTACK_REPEAT_INTERVAL_TICKS := 15

  datatype InputFrame = InputFrame(moveX: I8, moveY: I8, pressed: seq<Action>, held: seq<Action>)

  /** `world` is `None` until the first snapshot has been applied. */
  datatype Client = Client(localPlayerID: string, started: bool, ended: bool, world: Option<Snapshot>,
                           inputTick: U32, queue: Queue, prediction: Prediction.Predicted,
                           nextLightAttackTick: U32, opponent: Interpolation.Buffer, arenaID: string)

  const DELAY_TICKS := 3
  const CAPACITY := 32

  function NewClient(localPlayerID: string): Client {
    Client(localPlayerID, false, false, None, 0, EMPTY_QUEUE, Prediction.NOTHING_PREDICTED, 0,
           Interpolation.NewBuffer(DELAY_TICKS, CAPACITY), "")
  }

  predicate Playing(c: Client) {
    c.started && !c.ended && c.world.Some? && c.world.value.status == MatchActive
  }

  function PressedEnqueued(q: Queue, pressed: seq<Action>): Queue {
    if pressed == [] then q
    else
      var front, last := PressedEnqueued(q, pressed[..|pressed| - 1]), pressed[|pressed| - 1];
      if last == PressLightAttack then front else Enqueued(front, last)
  }

  function ProtocolAction(action: Action): ActionType {
    match action
    case PressDash => Dash
    case PressLightAttack => LightAttack
    case _ => Unspecified
  }

  function OnWire(command: Command): ActionCommand {
    ActionCommand(command.sequence, ProtocolAction(command.action))
  }

  function AllOnWire(commands: seq<Command>): seq<ActionCommand> {
    seq(|commands|, i requires 0 <= i < |commands| => OnWire(commands[i]))
  }

  predicate WantsLightAttack(frame: InputFrame) {
    PressLightAttack in frame.pressed || PressLightAttack in frame.held
  }

  function Ticked(c: Client, frame: InputFrame): Client {
    if !Playing(c) then c
    else
      var tick := (c.inputTick + 1) % U32_LIMIT;
      var queue := PressedEnqueued(c.queue, frame.pressed);
      var attacks := WantsLightAttack(frame) && tick >= c.nextLightAttackTick && CanEnqueue(queue, PressLightAttack);
      c.(inputTick := tick,
         queue := if attacks then Enqueued(queue, PressLightAttack) else queue,
         nextLightAttackTick := if attacks then (tick + LIGHT_ATTACK_REPEAT_INTERVAL_TICKS) % U32_LIMIT
                                else c.nextLightAttackTick,
         prediction := Prediction.Applied(c.prediction, tick, frame.moveX, frame.moveY))
  }

  /** What a playing client sends on a tick: its movement and everything that still waits. */
  function Outgoing(c: Client, frame: InputFrame): Input {
    Input(c.inputTick, frame.moveX, frame.moveY, AllOnWire(c.queue.pending))
  }

  predicate Stale(c: Client, shot: Snapshot) {
    c.started && c.world.Some? && shot.serverTick < c.world.value.serverTick
  }

  /** One player of a snapshot: the local one is acknowledged and reconciled, any other one is interpolated. */
  function PlayerApplied(c: Client, serverTick: nat, player: PlayerState): Client {
    if player.id == c.localPlayerID then
      c.(queue := c.queue.(pending := Unacknowledged(c.queue.pending, player.lastAckedActionSequence)),
         prediction := Prediction.Reconciled(c.prediction, Prediction.PositionOf(player), player.lastAckedInputTick))
    else c.(opponent := Interpolation.Pushed(c.opponent, serverTick, player.positionX, player.positionY))
  }

  function PlayersApplied(c: Client, shot: Snapshot): Client {
    PlayerApplied(PlayerApplied(c, shot.serverTick, shot.playerA), shot.serverTick, shot.playerB)
  }

  function SnapshotApplied(c: Client, shot: Snapshot): Client {
    if Stale(c, shot) then c
    else
      var applied := PlayersApplied(c, shot);
      var arenaID := if c.arenaID == "" then shot.arenaID else c.arenaID;
      applied.(arenaID := arenaID, world := Some(shot.(arenaID := arenaID)))
  }

  class MatchController {
    const localPlayerID: string
    const pendingActions: PendingActionQueue
    const localPrediction: Prediction.LocalPrediction
    const opponentInterpolation: Interpolation.InterpolationBuffer
    var started: bool
    var ended: bool
    var world: Option<Snapshot>
    var inputTick: U32
    var nextLightAttackTick: U32
    var arenaID: string

    ghost function Value(): Client
      reads this, pendingActions, localPrediction, opponentInterpolation
    {
      Client(localPlayerID, started, ended, world, inputTick, pendingActions.Value(), localPrediction.Value(),
             nextLightAttackTick, opponentInterpolation.Value(), arenaID)
    }

    constructor (localPlayerID: string)
      ensures Value() == NewClient(localPlayerID) && fresh(pendingActions) && fresh(localPrediction)
      ensures fresh(opponentInterpolation)
    {
      this.localPlayerID := localPlayerID;
      pendingActions := new PendingActionQueue();
      localPrediction := new Prediction.LocalPrediction();
      opponentInterpolation := new Interpolation.InterpolationBuffer(DELAY_TICKS, CAPACITY);
      started, ended, world, inputTick, nextLightAttackTick, arenaID := false, false, None, 0, 0, "";
    }

    method FixedTick(frame: InputFrame) returns (outgoing: Option<Input>)
      modifies this, pendingActions, localPrediction
      ensures Value() == Ticked(old(Value()), frame)
      ensures outgoing == if Playing(old(Value())) then Some(Outgoing(Value(), frame)) else None
    {
      if !started || ended || world.None? || world.value.status != MatchActive {
        return None;
      }
      inputTick := (inputTick + 1) % U32_LIMIT;
      EnqueuePressed(frame.pressed);
      if (PressLightAttack in frame.pressed || PressLightAttack in frame.held) && inputTick >= nextLightAttackTick {
        var accepted := pendingActions.Enqueue(PressLightAttack);
        if accepted {
          nextLightAttackTick := (inputTick + LIGHT_ATTACK_REPEAT_INTERVAL_TICKS) % U32_LIMIT;
        }
      }
      localPrediction.ApplyInput(inputTick, frame.moveX, frame.moveY);
      var commands := CommandsOnWire();
      return Some(Input(inputTick, frame.moveX, frame.moveY, commands));
    }

    method EnqueuePressed(pressed: seq<Action>)
      modifies pendingActions
      ensures pendingActions.Value() == PressedEnqueued(old(pendingActions.Value()), pressed)
    {
      for n := 0 to |pressed|
        invariant pendingActions.Value() == PressedEnqueued(old(pendingActions.Value()), pressed[..n])
      {
        assert pressed[..n + 1][..n] == pressed[..n];
        if pressed[n] != PressLightAttack {
          var _ := pendingActions.Enqueue(pressed[n]);
        }
      }
      assert pressed[..|pressed|] == pressed;
    }

    method CommandsOnWire() returns (commands: seq<ActionCommand>)
      ensures commands == AllOnWire(pendingActions.pending)
    {
      commands := [];
      for n := 0 to |pendingActions.pending|
        invariant commands == AllOnWire(pendingActions.pending[..n])
      {
        commands := commands + [OnWire(pendingActions.pending[n])];
      }
      assert pendingActions.pending[..|pendingActions.pending|] == pendingActions.pending;
    }

    method ApplySnapshot(shot: Snapshot)
      modifies this, pendingActions, localPrediction, opponentInterpolation
      ensures Value() == SnapshotApplied(old(Value()), shot)
    {
      if started && world.Some? && shot.serverTick < world.value.serverTick {
        return;
      }
      ApplyPlayers(shot);
      if arenaID == "" && shot.arenaID != "" {
        arenaID := shot.arenaID;
      }
      world := Some(shot.(arenaID := arenaID));
    }

    method ApplyPlayers(shot: Snapshot)
      modifies pendingActions, localPrediction, opponentInterpolation
      ensures Value() == PlayersApplied(old(Value()), shot)
    {
      ApplyPlayer(shot.serverTick, shot.playerA);
      ApplyPlayer(shot.serverTick, shot.playerB);
    }

    method ApplyPlayer(serverTick: nat, player: PlayerState)
      modifies pendingActions, localPrediction, opponentInterpolation
      ensures Value() == PlayerApplied(old(Value()), serverTick, player)
    {
      if player.id == localPlayerID {
        pendingActions.Acknowledge(player.lastAckedActionSequence);
        localPrediction.Reconcile(Prediction.PositionOf(player), player.lastAckedInputTick);
      } else {
        opponentInterpolation.Push(serverTick, player.positionX, player.positionY);
      }
    }
  }

  // ---------------------------------------------------------------- what snapshots never undo

  function AllApplied(c: Client, shots: seq<Snapshot>): Client {
    if shots == [] then c else SnapshotApplied(AllApplied(c, shots[..|shots| - 1]), shots[|shots| - 1])
  }

  /** The arena of a match is the first one named, whatever later snapshots say; it is what the world shows. */
  lemma {:induction false} ArenaIsImmutable(c: Client, shots: seq<Snapshot>)
    ensures var later := AllApplied(c, shots);
            && (c.arenaID != "" ==> later.arenaID == c.arenaID)
            && (c.arenaID != "" && (c.world.Some? ==> c.world.value.arenaID == c.arenaID) && later.world.Some? ==>
                  later.world.value.arenaID == c.arenaID)
    decreases |shots|
  {
    if shots != [] {
      ArenaIsImmutable(c, shots[..|shots| - 1]);
    }
  }

  /** A started client's world never goes back to an older tick, in whatever order snapshots arrive. */
  lemma {:induction false} WorldNeverGoesBack(c: Client, shots: seq<Snapshot>)
    requires c.started && c.world.Some?
    ensures var later := AllApplied(c, shots);
            && later.started && later.world.Some? && c.world.value.serverTick <= later.world.value.serverTick
            && forall i :: 0 <= i < |shots| ==> shots[i].serverTick <= later.world.value.serverTick
    decreases |shots|
  {
    if shots != [] {
      WorldNeverGoesBack(c, shots[..|shots| - 1]);
    }
  }
}
