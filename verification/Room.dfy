/**
 The room as the server runs it: fields indexed by player, updated in place, phase after phase over both
 players. Each method is tied to the slot-wise functions of `RoomModel`; `Room.Step` shows that the
 phase-by-phase tick refines `RoomModel.Step`.
 */
module Room {
  import opened RoomModel
  import opened CommandOrder
  import RoomSlots

  datatype RoomError = NoError | InvalidPlayers | InvalidRuleset | UnknownPlayer

  // ---------------------------------------------------------------- the room

  class Room {
    const rules: Ruleset
    var players: seq<PlayerState>
    var inputs: seq<Input>
    var pendingActions: seq<seq<ActionCommand>>
    var attackFacing: seq<Facing>
    var nextDashTick: seq<nat>
    var nextAttackTick: seq<nat>
    var lastInputTick: seq<U32>
    var tick: nat
    var activeTicks: nat
    var status: MatchStatus
    var winnerID: string
    var finishReason: FinishReason

    ghost predicate Valid()
      reads this
    {
      && |players| == |inputs| == |pendingActions| == |attackFacing| == 2
      && |nextDashTick| == |nextAttackTick| == |lastInputTick| == 2
      && StrictlyAscending(pendingActions[0]) && StrictlyAscending(pendingActions[1])
    }

    ghost function SlotAt(i: nat): Slot
      reads this
      requires Valid() && i < 2
    {
      Slot(players[i], inputs[i], pendingActions[i], attackFacing[i], nextDashTick[i], nextAttackTick[i],
           lastInputTick[i])
    }

    ghost function Value(): State
      reads this
      requires Valid()
    {
      State(rules, SlotAt(0), SlotAt(1), tick, activeTicks, status, winnerID, finishReason)
    }

    constructor (playerA: string, playerB: string, rules: Ruleset)
      ensures Valid() && Value() == NewState(playerA, playerB, rules)
    {
      this.rules := rules;
      players := [PlayerState(playerA, rules.arena.spawnAX, rules.arena.spawnAY, rules.initialHP, 0, Facing(1, 0),
                              0, Idle, 0, 0),
                  PlayerState(playerB, rules.arena.spawnBX, rules.arena.spawnBY, rules.initialHP, 0, Facing(-1, 0),
                              0, Idle, 0, 0)];
      inputs := [NO_INPUT, NO_INPUT];
      pendingActions := [[], []];
      attackFacing := [Facing(0, 0), Facing(0, 0)];
      nextDashTick, nextAttackTick, lastInputTick := [0, 0], [0, 0], [0, 0];
      tick, activeTicks, status, winnerID, finishReason := 0, 0, MatchCountdown, "", ReasonNone;
    }

    static method NewWithRuleset(playerA: string, playerB: string, rules: Ruleset)
      returns (room: Room?, error: RoomError)
      ensures error == InvalidPlayers <==> playerA == "" || playerB == "" || playerA == playerB
      ensures error == InvalidRuleset <==> error != InvalidPlayers && !Accepted(rules)
      ensures error == NoError <==> room != null
      ensures room != null ==> fresh(room) && room.Valid() && room.Value() == NewState(playerA, playerB, rules)
      ensures error != UnknownPlayer
    {
      if playerA == "" || playerB == "" || playerA == playerB {
        return null, InvalidPlayers;
      }
      if !Accepted(rules) {
        return null, InvalidRuleset;
      }
      room := new Room(playerA, playerB, rules);
      error := NoError;
    }

    // ---- input

    method PlayerIndex(playerID: string) returns (index: int, found: bool)
      requires Valid()
      ensures found <==> SideOf(Value(), playerID).Some?
      ensures found ==> 0 <= index < 2 && SideOf(Value(), playerID) == Some(index == 0)
    {
      for i := 0 to 2
        invariant forall j :: 0 <= j < i ==> players[j].id != playerID
      {
        if players[i].id == playerID {
          return i, true;
        }
      }
      return 0, false;
    }

    method SubmitInput(playerID: string, input: Input) returns (error: RoomError)
      requires Valid()
      modifies `inputs, `lastInputTick, `pendingActions
      ensures Valid() && Value() == Submit(old(Value()), playerID, input)
      ensures error == (if SideOf(old(Value()), playerID).None? then UnknownPlayer else NoError)
    {
      var index, found := PlayerIndex(playerID);
      if !found {
        return UnknownPlayer;
      }
      if input.tick == 0 || input.tick > (lastInputTick[index] + MAX_INPUT_TICK_ADVANCE) % U32_LIMIT {
        return NoError;
      }
      var commands := input.actions;
      if input.tick > lastInputTick[index] {
        inputs := inputs[index := Input(input.tick, ClampAxis(input.moveX), ClampAxis(input.moveY), [])];
        lastInputTick := lastInputTick[index := input.tick];
      }
      if |commands| > MAX_PENDING_ACTIONS {
        commands := commands[..MAX_PENDING_ACTIONS];
      }
      QueueCommands(index, commands);
      return NoError;
    }

    method QueueCommands(index: nat, commands: seq<ActionCommand>)
      requires Valid() && index < 2
      modifies `pendingActions
      ensures Valid() && SlotAt(index) == QueueActions(old(SlotAt(index)), commands)
      ensures SlotAt(1 - index) == old(SlotAt(1 - index))
    {
      for n := 0 to |commands|
        invariant Valid() && SlotAt(1 - index) == old(SlotAt(1 - index))
        invariant QueueActions(SlotAt(index), commands[n..]) == QueueActions(old(SlotAt(index)), commands)
      {
        ghost var rest := commands[n..];
        assert rest != [] && rest[0] == commands[n] && rest[1..] == commands[n + 1..];
        ghost var slot := SlotAt(index);
        QueueActionAt(index, commands[n]);
        assert QueueActions(slot, rest) == QueueActions(QueueAction(slot, rest[0]), rest[1..]);
      }
    }

    method QueueActionAt(index: nat, command: ActionCommand)
      requires Valid() && index < 2
      modifies `pendingActions
      ensures Valid() && SlotAt(index) == QueueAction(old(SlotAt(index)), command)
      ensures SlotAt(1 - index) == old(SlotAt(1 - index))
    {
      var ack := players[index].lastAckedActionSequence;
      if command.sequence <= ack || command.sequence - ack > MAX_ACTION_SEQUENCE_AHEAD {
        return;
      }
      var mine := pendingActions[index];
      for i := 0 to |mine|
        invariant forall j :: 0 <= j < i ==> mine[j].sequence != command.sequence
      {
        if mine[i].sequence == command.sequence {
          assert HasSequence(mine, command.sequence);
          return;
        }
      }
      if |mine| >= MAX_PENDING_ACTIONS {
        return;
      }
      var sorted := SortBySequence(mine + [command]);
      SortBySequenceSorts(mine + [command]);
      InsertKeepsOrder(mine, command);
      InsertKeepsContents(mine, command);
      SortedArrangementIsUnique(InsertBySequence(mine, command), sorted);
      pendingActions := pendingActions[index := sorted];
    }

    // ---- one tick

    method Step() returns (snapshot: Snapshot)
      requires Valid()
      modifies this
      ensures Valid() && Value() == RoomModel.Step(old(Value()))
      ensures snapshot == SnapshotOf(Value())
    {
      if status == MatchFinished {
        snapshot := TakeSnapshot();
        return;
      }
      ghost var before := Value();
      tick := tick + 1;
      if status == MatchCountdown {
        StepCountdown(before);
      } else {
        activeTicks := activeTicks + 1;
        StepActive(before);
      }
      snapshot := TakeSnapshot();
    }

    /** The countdown branch of `Step`, after the clock has moved. */
    method StepCountdown(ghost before: State)
      requires Valid() && status == MatchCountdown && Value() == before.(tick := before.tick + 1)
      modifies this
      ensures Valid() && Value() == CountdownStep(before)
    {
      AcknowledgeRejectedActions();
      if tick >= rules.countdownTicks {
        status := MatchActive;
        OpenMatch();
      }
    }

    /** The active branch of `Step`, after the clocks have moved. */
    method StepActive(ghost before: State)
      requires Valid() && status == MatchActive
      requires Value() == before.(tick := before.tick + 1, activeTicks := before.activeTicks + 1)
      modifies this
      ensures Valid() && Value() == ActiveStep(before)
    {
      Fight(before);
      FinishMatch();
    }

    method Fight(ghost before: State)
      requires Valid() && status == MatchActive
      requires Value() == before.(tick := before.tick + 1, activeTicks := before.activeTicks + 1)
      modifies `players, `attackFacing, `nextDashTick, `nextAttackTick, `pendingActions
      ensures Valid() && Value() == Fought(before)
    {
      TickPlayers();
      ghost var a, b := SlotAt(0), SlotAt(1);
      ApplyActiveAttacks();
      RoomSlots.FoughtBy(before, a, b);
    }

    method FinishMatch()
      requires Valid() && status == MatchActive
      modifies `status, `finishReason, `winnerID
      ensures Valid() && Value() == Finish(old(Value()))
    {
      FinishFromKO();
      if status != MatchFinished && activeTicks >= rules.matchDurationTicks {
        FinishFromTimeLimit();
      }
    }

    method TickPlayers()
      requires Valid()
      modifies `players, `attackFacing, `nextDashTick, `nextAttackTick, `pendingActions
      ensures Valid()
      ensures SlotAt(0) == TickSlot(rules, tick, old(SlotAt(0)))
      ensures SlotAt(1) == TickSlot(rules, tick, old(SlotAt(1)))
    {
      AdvanceActionStates();
      ApplyMovement();
      ProcessActions();
    }

    method TakeSnapshot() returns (snapshot: Snapshot)
      requires Valid()
      ensures snapshot == SnapshotOf(Value())
    {
      var countdown, remaining := 0, 0;
      if status == MatchCountdown && tick < rules.countdownTicks {
        countdown := rules.countdownTicks - tick;
      }
      if status == MatchActive && activeTicks < rules.matchDurationTicks {
        remaining := rules.matchDurationTicks - activeTicks;
      }
      snapshot := Snapshot(rules.arena.id, tick, players[0], players[1], status, winnerID, finishReason, countdown,
                           remaining);
    }

    method AcknowledgeRejectedActions()
      requires Valid()
      modifies `players, `pendingActions
      ensures Valid()
      ensures SlotAt(0) == RejectSlot(old(SlotAt(0)))
      ensures SlotAt(1) == RejectSlot(old(SlotAt(1)))
    {
      for index := 0 to 2
        invariant Valid()
        invariant forall j :: 0 <= j < 2 ==>
          SlotAt(j) == if j < index then RejectSlot(old(SlotAt(j))) else old(SlotAt(j))
      {
        var commands := pendingActions[index];
        for n := 0 to |commands|
          modifies `players
          invariant Valid()
          invariant forall j :: 0 <= j < 2 && j != index ==>
            SlotAt(j) == if j < index then RejectSlot(old(SlotAt(j))) else old(SlotAt(j))
          invariant SlotAt(index) == if n == 0 then old(SlotAt(index))
                                     else Acknowledged(old(SlotAt(index)), commands[n - 1].sequence)
        {
          players := players[index := players[index].(lastAckedActionSequence := commands[n].sequence)];
        }
        pendingActions := pendingActions[index := []];
      }
    }

    method OpenMatch()
      requires Valid()
      modifies `inputs, `nextAttackTick, `nextDashTick
      ensures Valid()
      ensures SlotAt(0) == OpenMatchSlot(old(SlotAt(0)), tick)
      ensures SlotAt(1) == OpenMatchSlot(old(SlotAt(1)), tick)
    {
      for index := 0 to 2
        invariant Valid()
        invariant forall j :: 0 <= j < 2 ==>
          SlotAt(j) == if j < index then OpenMatchSlot(old(SlotAt(j)), tick) else old(SlotAt(j))
      {
        inputs := inputs[index := Input(inputs[index].tick, 0, 0, [])];
        nextAttackTick := nextAttackTick[index := tick + 1];
        nextDashTick := nextDashTick[index := tick + 1];
      }
    }

    method SetLocomotionState(index: nat)
      requires Valid() && index < 2
      modifies `players
      ensures Valid() && SlotAt(index) == Locomotion(old(SlotAt(index)))
      ensures SlotAt(1 - index) == old(SlotAt(1 - index))
    {
      var state := Idle;
      if inputs[index].moveX != 0 || inputs[index].moveY != 0 {
        state := Move;
      }
      players := players[index := players[index].(actionState := state, actionStartedServerTick := 0,
                                                  actionTicksRemaining := 0)];
    }

    method AdvanceActionStates()
      requires Valid()
      modifies `players
      ensures Valid()
      ensures SlotAt(0) == AdvanceSlot(rules, old(SlotAt(0)))
      ensures SlotAt(1) == AdvanceSlot(rules, old(SlotAt(1)))
    {
      for index := 0 to 2
        invariant Valid()
        invariant forall j :: 0 <= j < 2 ==>
          SlotAt(j) == if j < index then AdvanceSlot(rules, old(SlotAt(j))) else old(SlotAt(j))
      {
        AdvanceActionState(index);
      }
    }

    method AdvanceActionState(index: nat)
      requires Valid() && index < 2
      modifies `players
      ensures Valid() && SlotAt(index) == AdvanceSlot(rules, old(SlotAt(index)))
      ensures SlotAt(1 - index) == old(SlotAt(1 - index))
    {
      var state := players[index].actionState;
      if state == KO || state == Idle || state == Move {
        return;
      }
      if players[index].actionTicksRemaining > 0 {
        players := players[index := players[index].(actionTicksRemaining := players[index].actionTicksRemaining - 1)];
      }
      if players[index].actionTicksRemaining > 0 {
        return;
      }
      if state == Windup {
        players := players[index := players[index].(actionState := Active,
                                                    actionTicksRemaining := rules.lightAttack.activeTicks)];
      } else if state == Active && rules.lightAttack.recoveryTicks > 0 {
        players := players[index := players[index].(actionState := Recovery,
                                                    actionTicksRemaining := rules.lightAttack.recoveryTicks)];
      } else {
        SetLocomotionState(index);
      }
    }

    method ApplyMovement()
      requires Valid()
      modifies `players
      ensures Valid()
      ensures SlotAt(0) == MoveSlot(rules, old(SlotAt(0)))
      ensures SlotAt(1) == MoveSlot(rules, old(SlotAt(1)))
    {
      for index := 0 to 2
        invariant Valid()
        invariant forall j :: 0 <= j < 2 ==>
          SlotAt(j) == if j < index then MoveSlot(rules, old(SlotAt(j))) else old(SlotAt(j))
      {
        ApplyMovementTo(index);
      }
    }

    method ApplyMovementTo(index: nat)
      requires Valid() && index < 2
      modifies `players
      ensures Valid() && SlotAt(index) == MoveSlot(rules, old(SlotAt(index)))
      ensures SlotAt(1 - index) == old(SlotAt(1 - index))
    {
      var input := inputs[index];
      players := players[index := players[index].(lastAckedInputTick := input.tick)];
      var state := players[index].actionState;
      if players[index].hp <= 0 || state == Dashing || state == Hit || state == KO {
        return;
      }
      if state == Idle || state == Move {
        players := players[index := players[index].(facing := UpdatedFacing(players[index].facing, input))];
      }
      players := players[index := players[index].(
        positionX := Clamp(players[index].positionX + input.moveX * rules.movementPerTick, rules.arena.minX,
                           rules.arena.maxX),
        positionY := Clamp(players[index].positionY + input.moveY * rules.movementPerTick, rules.arena.minY,
                           rules.arena.maxY))];
      if state == Idle || state == Move {
        SetLocomotionState(index);
      }
    }

    method ProcessActions()
      requires Valid()
      modifies `players, `attackFacing, `nextDashTick, `nextAttackTick, `pendingActions
      ensures Valid()
      ensures SlotAt(0) == ProcessSlot(rules, tick, old(SlotAt(0)))
      ensures SlotAt(1) == ProcessSlot(rules, tick, old(SlotAt(1)))
    {
      for index := 0 to 2
        invariant Valid()
        invariant forall j :: 0 <= j < 2 ==>
          SlotAt(j) == if j < index then ProcessSlot(rules, tick, old(SlotAt(j))) else old(SlotAt(j))
      {
        ProcessActionsOf(index);
      }
    }

    method ProcessActionsOf(index: nat)
      requires Valid() && index < 2
      modifies `players, `attackFacing, `nextDashTick, `nextAttackTick, `pendingActions
      ensures Valid() && SlotAt(index) == ProcessSlot(rules, tick, old(SlotAt(index)))
      ensures SlotAt(1 - index) == old(SlotAt(1 - index))
    {
      var commands := pendingActions[index];
      for n := 0 to |commands|
        modifies `players, `attackFacing, `nextDashTick, `nextAttackTick
        invariant Valid() && SlotAt(1 - index) == old(SlotAt(1 - index))
        invariant ProcessCommands(rules, tick, SlotAt(index), commands[n..])
               == ProcessCommands(rules, tick, old(SlotAt(index)), commands)
      {
        players := players[index := players[index].(lastAckedActionSequence := commands[n].sequence)];
        match commands[n].kind {
          case Dash => TryDashAt(index);
          case LightAttack => TryLightAttackAt(index);
          case Unspecified =>
        }
        assert commands[n..][1..] == commands[n + 1..];
      }
      pendingActions := pendingActions[index := []];
    }

    method TryDashAt(index: nat)
      requires Valid() && index < 2
      modifies `players, `nextDashTick
      ensures Valid() && SlotAt(index) == TryDash(rules, tick, old(SlotAt(index)))
      ensures SlotAt(1 - index) == old(SlotAt(1 - index))
    {
      var p := players[index];
      if !(p.hp > 0 && (p.actionState == Idle || p.actionState == Move)) || tick < nextDashTick[index] {
        return;
      }
      var distance := rules.dash.dashDistance;
      p := p.(positionX := Clamp(p.positionX + p.facing.x * distance, rules.arena.minX, rules.arena.maxX),
              positionY := Clamp(p.positionY + p.facing.y * distance, rules.arena.minY, rules.arena.maxY));
      players := players[index := p.(actionState := Dashing, actionStartedServerTick := tick,
                                     actionTicksRemaining := 1)];
      nextDashTick := nextDashTick[index := tick + rules.dash.cooldownTicks];
    }

    method TryLightAttackAt(index: nat)
      requires Valid() && index < 2
      modifies `players, `attackFacing, `nextAttackTick
      ensures Valid() && SlotAt(index) == TryLightAttack(rules, tick, old(SlotAt(index)))
      ensures SlotAt(1 - index) == old(SlotAt(1 - index))
    {
      var p := players[index];
      if !(p.hp > 0 && (p.actionState == Idle || p.actionState == Move)) || tick < nextAttackTick[index] {
        return;
      }
      attackFacing := attackFacing[index := p.facing];
      players := players[index := p.(actionState := Windup, actionStartedServerTick := tick,
                                     actionTicksRemaining := rules.lightAttack.windupTicks)];
      nextAttackTick := nextAttackTick[index := tick + rules.lightAttack.cooldownTicks];
      if players[index].actionTicksRemaining == 0 {
        players := players[index := players[index].(actionState := Active,
                                                    actionTicksRemaining := rules.lightAttack.activeTicks)];
      }
    }

    /** Both blows are measured before either lands. */
    method ApplyActiveAttacks()
      requires Valid()
      modifies `players
      ensures Valid()
      ensures (SlotAt(0), SlotAt(1)) == ResolveAttacks(rules, tick, old(SlotAt(0)), old(SlotAt(1)))
    {
      var damage := [0, 0];
      for attacker := 0 to 2
        invariant |damage| == 2
        invariant damage[1] == if attacker > 0 then Damage(rules, SlotAt(0), SlotAt(1)) else 0
        invariant damage[0] == if attacker > 1 then Damage(rules, SlotAt(1), SlotAt(0)) else 0
      {
        var target := 1 - attacker;
        if players[attacker].actionState == Active
           && HitboxIntersects(players[attacker], players[target], attackFacing[attacker], rules) {
          damage := damage[target := damage[target] + rules.lightAttack.damage];
        }
      }
      for index := 0 to 2
        invariant Valid()
        invariant forall j :: 0 <= j < 2 ==>
          SlotAt(j) == if j < index then Struck(old(SlotAt(j)), tick, damage[j]) else old(SlotAt(j))
      {
        if damage[index] != 0 {
          var p := players[index].(hp := if players[index].hp - damage[index] > 0
                                         then players[index].hp - damage[index] else 0,
                                   actionStartedServerTick := tick);
          if p.hp == 0 {
            p := p.(actionState := KO, actionTicksRemaining := 0);
          } else {
            p := p.(actionState := Hit, actionTicksRemaining := 1);
          }
          players := players[index := p];
        }
      }
    }

    method FinishFromKO()
      requires Valid()
      modifies `status, `finishReason, `winnerID
      ensures var s := old(Value()); var a, b := s.a.player, s.b.player;
              Value() == if a.hp > 0 && b.hp > 0 then s
                         else s.(status := MatchFinished, finishReason := ReasonKO,
                                 winnerID := Better(s, Alive(a), Alive(b)))
    {
      var playerAAlive, playerBAlive := players[0].hp > 0, players[1].hp > 0;
      if playerAAlive && playerBAlive {
        return;
      }
      status := MatchFinished;
      finishReason := ReasonKO;
      if playerAAlive {
        winnerID := players[0].id;
      } else if playerBAlive {
        winnerID := players[1].id;
      }
    }

    method FinishFromTimeLimit()
      requires Valid()
      modifies `status, `finishReason, `winnerID
      ensures var s := old(Value());
              Value() == s.(status := MatchFinished, finishReason := ReasonTimeLimit,
                            winnerID := Better(s, s.a.player.hp, s.b.player.hp))
    {
      status := MatchFinished;
      finishReason := ReasonTimeLimit;
      if players[0].hp > players[1].hp {
        winnerID := players[0].id;
      } else if players[1].hp > players[0].hp {
        winnerID := players[1].id;
      }
    }
  }
}
