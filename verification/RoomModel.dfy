/**
 The values of the authoritative duel simulation and one simulation tick as a function on them.

 Everything the room keeps for one player is grouped in a `Slot`; a `State` is the ruleset, the two slots and
 the clock. The class `Room.Room` keeps the same data the way the server does, in fields indexed by player and
 updated phase by phase, and is proved to follow these functions.

 Data that arrives from the wire keeps its machine width (`U32`, `I8`); clocks and positions are unbounded
 integers, and `RoomWidths` says for which rulesets they fit their 32 bits.
 */
module RoomModel {

  const U32_LIMIT := 0x1_0000_0000

  type U32 = x: int | 0 <= x < U32_LIMIT
  type I32 = x: int | -0x8000_0000 <= x < 0x8000_0000
  type I8 = x: int | -0x80 <= x < 0x80

  const MAX_PENDING_ACTIONS := 8
  const MAX_ACTION_SEQUENCE_AHEAD := 64
  const MAX_INPUT_TICK_ADVANCE := 120

  datatype Option<+T> = None | Some(value: T)

  datatype Arena = Arena(id: string, minX: I32, maxX: I32, minY: I32, maxY: I32,
                         spawnAX: I32, spawnAY: I32, spawnBX: I32, spawnBY: I32)

  datatype ActionDefinition = ActionDefinition(cooldownTicks: U32, windupTicks: U32, activeTicks: U32,
                                               recoveryTicks: U32, damage: I32, dashDistance: I32)

  datatype Ruleset = Ruleset(tickRate: U32, countdownTicks: U32, matchDurationTicks: U32, initialHP: I32,
                             movementPerTick: I32, attackDepth: I32, attackHalfWidth: I32, playerHalfExtent: I32,
                             arena: Arena, dash: ActionDefinition, lightAttack: ActionDefinition)

  const DEFAULT_RULESET: Ruleset :=
    Ruleset(30, 90, 2700, 100, 10, 80, 45, 20,
            Arena("neon_rooftop", -500, 500, -300, 300, -250, 0, 250, 0),
            ActionDefinition(30, 0, 0, 0, 0, 120),
            ActionDefinition(15, 3, 1, 6, 20, 0))

  /** The rules of every match: the default ones, in an arena chosen by the match ID. */
  function MatchRules(arenaID: string): Ruleset {
    DEFAULT_RULESET.(arena := DEFAULT_RULESET.arena.(id := arenaID))
  }

  /** The rulesets `NewWithRuleset` accepts. */
  predicate Accepted(r: Ruleset) {
    && r.tickRate != 0 && r.countdownTicks != 0 && r.matchDurationTicks != 0
    && r.initialHP > 0 && r.movementPerTick >= 0
    && r.lightAttack.activeTicks != 0 && r.lightAttack.damage >= 0
    && r.arena.id != "" && r.arena.minX < r.arena.maxX && r.arena.minY < r.arena.maxY
  }

  datatype MatchStatus = MatchActive | MatchFinished | MatchCountdown
  datatype FinishReason = ReasonNone | ReasonKO | ReasonTimeLimit
  datatype ActionType = Unspecified | Dash | LightAttack
  datatype ActionState = Idle | Move | Dashing | Windup | Active | Recovery | Hit | KO

  datatype ActionCommand = ActionCommand(sequence: U32, kind: ActionType)
  datatype Input = Input(tick: U32, moveX: I8, moveY: I8, actions: seq<ActionCommand>)
  datatype Facing = Facing(x: I8, y: I8)

  datatype PlayerState = PlayerState(id: string, positionX: int, positionY: int, hp: int,
                                     lastAckedInputTick: U32, facing: Facing, lastAckedActionSequence: U32,
                                     actionState: ActionState, actionStartedServerTick: nat,
                                     actionTicksRemaining: nat)

  datatype Slot = Slot(player: PlayerState, input: Input, pending: seq<ActionCommand>, attackFacing: Facing,
                       nextDashTick: nat, nextAttackTick: nat, lastInputTick: U32)

  datatype State = State(rules: Ruleset, a: Slot, b: Slot, tick: nat, activeTicks: nat, status: MatchStatus,
                         winnerID: string, finishReason: FinishReason)

  datatype Snapshot = Snapshot(arenaID: string, serverTick: nat, playerA: PlayerState, playerB: PlayerState,
                               status: MatchStatus, winnerID: string, finishReason: FinishReason,
                               countdownTicksRemaining: nat, matchTicksRemaining: nat)

  /** Which of the two players: `true` is the player with index 0. */
  type Side = bool

  function SlotOf(s: State, side: Side): Slot {
    if side then s.a else s.b
  }

  function WithSlot(s: State, side: Side, slot: Slot): State {
    if side then s.(a := slot) else s.(b := slot)
  }

  // ---------------------------------------------------------------- construction

  const NO_INPUT := Input(0, 0, 0, [])

  function NewSlot(id: string, x: int, y: int, hp: int, facing: Facing): Slot {
    Slot(PlayerState(id, x, y, hp, 0, facing, 0, Idle, 0, 0), NO_INPUT, [], Facing(0, 0), 0, 0, 0)
  }

  function NewState(playerA: string, playerB: string, r: Ruleset): State {
    State(r,
          NewSlot(playerA, r.arena.spawnAX, r.arena.spawnAY, r.initialHP, Facing(1, 0)),
          NewSlot(playerB, r.arena.spawnBX, r.arena.spawnBY, r.initialHP, Facing(-1, 0)),
          0, 0, MatchCountdown, "", ReasonNone)
  }

  // ---------------------------------------------------------------- accepting input

  function ClampAxis(axis: I8): I8 {
    if axis < -1 then -1 else if axis > 1 then 1 else axis
  }

  function Clamp(position: int, minimum: int, maximum: int): int {
    var raised := if position < minimum then minimum else position;
    if raised > maximum then maximum else raised
  }

  predicate HasSequence(commands: seq<ActionCommand>, sequence: U32) {
    exists i :: 0 <= i < |commands| && commands[i].sequence == sequence
  }

  predicate StrictlyAscending(commands: seq<ActionCommand>) {
    forall i, j :: 0 <= i < j < |commands| ==> commands[i].sequence < commands[j].sequence
  }

  function InsertBySequence(commands: seq<ActionCommand>, command: ActionCommand): seq<ActionCommand> {
    if commands == [] then [command]
    else if commands[0].sequence < command.sequence then
      [commands[0]] + InsertBySequence(commands[1..], command)
    else [command] + commands
  }

  /** A command is fresh when it lies in the window after the acknowledgement. */
  predicate InWindow(ack: U32, sequence: U32) {
    ack < sequence && sequence - ack <= MAX_ACTION_SEQUENCE_AHEAD
  }

  function QueueAction(slot: Slot, command: ActionCommand): Slot {
    if !InWindow(slot.player.lastAckedActionSequence, command.sequence) then slot
    else if HasSequence(slot.pending, command.sequence) then slot
    else if |slot.pending| >= MAX_PENDING_ACTIONS then slot
    else slot.(pending := InsertBySequence(slot.pending, command))
  }

  function QueueActions(slot: Slot, commands: seq<ActionCommand>): Slot
    decreases |commands|
  {
    if commands == [] then slot
    else QueueActions(QueueAction(slot, commands[0]), commands[1..])
  }

  /** The newest input tick a slot accepts, in the wrapping arithmetic of the server. */
  function TickHorizon(slot: Slot): U32 {
    (slot.lastInputTick + MAX_INPUT_TICK_ADVANCE) % U32_LIMIT
  }

  predicate AcceptsTick(slot: Slot, tick: U32) {
    tick != 0 && tick <= TickHorizon(slot)
  }

  function RecordMovement(slot: Slot, input: Input): Slot {
    if input.tick > slot.lastInputTick then
      slot.(input := Input(input.tick, ClampAxis(input.moveX), ClampAxis(input.moveY), []),
            lastInputTick := input.tick)
    else slot
  }

  function Truncated(commands: seq<ActionCommand>): seq<ActionCommand> {
    if |commands| > MAX_PENDING_ACTIONS then commands[..MAX_PENDING_ACTIONS] else commands
  }

  function SubmitSlot(slot: Slot, input: Input): Slot {
    if !AcceptsTick(slot, input.tick) then slot
    else QueueActions(RecordMovement(slot, input), Truncated(input.actions))
  }

  function SubmitAll(slot: Slot, inputs: seq<Input>): Slot {
    if inputs == [] then slot
    else SubmitSlot(SubmitAll(slot, inputs[..|inputs| - 1]), inputs[|inputs| - 1])
  }

  /** The side a player ID names; the first match wins, as in the server's lookup loop. */
  function SideOf(s: State, id: string): Option<Side> {
    if s.a.player.id == id then Some(true) else if s.b.player.id == id then Some(false) else None
  }

  function Submit(s: State, id: string, input: Input): State {
    match SideOf(s, id)
    case None => s
    case Some(side) => WithSlot(s, side, SubmitSlot(SlotOf(s, side), input))
  }

  // ---------------------------------------------------------------- one tick of one slot

  predicate Locomoting(state: ActionState) {
    state == Idle || state == Move
  }

  predicate Attacking(state: ActionState) {
    state == Windup || state == Active || state == Recovery
  }

  function Locomotion(slot: Slot): Slot {
    var state := if slot.input.moveX != 0 || slot.input.moveY != 0 then Move else Idle;
    slot.(player := slot.player.(actionState := state, actionStartedServerTick := 0, actionTicksRemaining := 0))
  }

  function AdvanceSlot(r: Ruleset, slot: Slot): Slot {
    var p := slot.player;
    if p.actionState == KO || Locomoting(p.actionState) then slot
    else
      var remaining: nat := if p.actionTicksRemaining > 0 then p.actionTicksRemaining - 1 else 0;
      if remaining > 0 then slot.(player := p.(actionTicksRemaining := remaining))
      else if p.actionState == Windup then
        slot.(player := p.(actionState := Active, actionTicksRemaining := r.lightAttack.activeTicks))
      else if p.actionState == Active && r.lightAttack.recoveryTicks > 0 then
        slot.(player := p.(actionState := Recovery, actionTicksRemaining := r.lightAttack.recoveryTicks))
      else Locomotion(slot)
  }

  function Abs(x: int): nat {
    if x < 0 then -x else x
  }

  function UpdatedFacing(facing: Facing, input: Input): Facing {
    if input.moveX == 0 && input.moveY == 0 then facing
    else if Abs(input.moveX) >= Abs(input.moveY) then Facing(input.moveX, 0)
    else Facing(0, input.moveY)
  }

  function MoveSlot(r: Ruleset, slot: Slot): Slot {
    var p := slot.player.(lastAckedInputTick := slot.input.tick);
    if p.hp <= 0 || p.actionState == Dashing || p.actionState == Hit || p.actionState == KO then
      slot.(player := p)
    else
      var facing := if Locomoting(p.actionState) then UpdatedFacing(p.facing, slot.input) else p.facing;
      var x := Clamp(p.positionX + slot.input.moveX * r.movementPerTick, r.arena.minX, r.arena.maxX);
      var y := Clamp(p.positionY + slot.input.moveY * r.movementPerTick, r.arena.minY, r.arena.maxY);
      var moved := slot.(player := p.(facing := facing, positionX := x, positionY := y));
      if Locomoting(p.actionState) then Locomotion(moved) else moved
  }

  predicate CanStartAction(slot: Slot) {
    slot.player.hp > 0 && Locomoting(slot.player.actionState)
  }

  function TryDash(r: Ruleset, tick: nat, slot: Slot): Slot {
    if !CanStartAction(slot) || tick < slot.nextDashTick then slot
    else
      var p := slot.player;
      var x := Clamp(p.positionX + p.facing.x * r.dash.dashDistance, r.arena.minX, r.arena.maxX);
      var y := Clamp(p.positionY + p.facing.y * r.dash.dashDistance, r.arena.minY, r.arena.maxY);
      slot.(player := p.(positionX := x, positionY := y, actionState := Dashing,
                         actionStartedServerTick := tick, actionTicksRemaining := 1),
            nextDashTick := tick + r.dash.cooldownTicks)
  }

  function TryLightAttack(r: Ruleset, tick: nat, slot: Slot): Slot {
    if !CanStartAction(slot) || tick < slot.nextAttackTick then slot
    else
      var p := slot.player;
      var started :=
        if r.lightAttack.windupTicks == 0
        then p.(actionState := Active, actionStartedServerTick := tick,
                actionTicksRemaining := r.lightAttack.activeTicks)
        else p.(actionState := Windup, actionStartedServerTick := tick,
                actionTicksRemaining := r.lightAttack.windupTicks);
      slot.(player := started, attackFacing := p.facing, nextAttackTick := tick + r.lightAttack.cooldownTicks)
  }

  function Perform(r: Ruleset, tick: nat, slot: Slot, kind: ActionType): Slot {
    match kind
    case Dash => TryDash(r, tick, slot)
    case LightAttack => TryLightAttack(r, tick, slot)
    case Unspecified => slot
  }

  function Acknowledged(slot: Slot, sequence: U32): Slot {
    slot.(player := slot.player.(lastAckedActionSequence := sequence))
  }

  function ProcessCommands(r: Ruleset, tick: nat, slot: Slot, commands: seq<ActionCommand>): Slot
    decreases |commands|
  {
    if commands == [] then slot
    else
      var acknowledged := Acknowledged(slot, commands[0].sequence);
      ProcessCommands(r, tick, Perform(r, tick, acknowledged, commands[0].kind), commands[1..])
  }

  function ProcessSlot(r: Ruleset, tick: nat, slot: Slot): Slot {
    ProcessCommands(r, tick, slot, slot.pending).(pending := [])
  }

  /** Everything a tick does to one player before attacks are resolved. */
  function TickSlot(r: Ruleset, tick: nat, slot: Slot): Slot {
    ProcessSlot(r, tick, MoveSlot(r, AdvanceSlot(r, slot)))
  }

  // ---------------------------------------------------------------- resolving attacks

  predicate RangesOverlap(firstMin: int, firstMax: int, secondMin: int, secondMax: int) {
    firstMin <= secondMax && secondMin <= firstMax
  }

  predicate HitboxIntersects(attacker: PlayerState, target: PlayerState, facing: Facing, r: Ruleset) {
    var minX, maxX := target.positionX - r.playerHalfExtent, target.positionX + r.playerHalfExtent;
    var minY, maxY := target.positionY - r.playerHalfExtent, target.positionY + r.playerHalfExtent;
    var x, y := attacker.positionX, attacker.positionY;
    if facing.x > 0 then
      RangesOverlap(x, x + r.attackDepth, minX, maxX)
      && RangesOverlap(y - r.attackHalfWidth, y + r.attackHalfWidth, minY, maxY)
    else if facing.x < 0 then
      RangesOverlap(x - r.attackDepth, x, minX, maxX)
      && RangesOverlap(y - r.attackHalfWidth, y + r.attackHalfWidth, minY, maxY)
    else if facing.y > 0 then
      RangesOverlap(x - r.attackHalfWidth, x + r.attackHalfWidth, minX, maxX)
      && RangesOverlap(y, y + r.attackDepth, minY, maxY)
    else
      RangesOverlap(x - r.attackHalfWidth, x + r.attackHalfWidth, minX, maxX)
      && RangesOverlap(y - r.attackDepth, y, minY, maxY)
  }

  predicate Strikes(r: Ruleset, attacker: Slot, target: Slot) {
    attacker.player.actionState == Active
    && HitboxIntersects(attacker.player, target.player, attacker.attackFacing, r)
  }

  function Damage(r: Ruleset, attacker: Slot, target: Slot): int {
    if Strikes(r, attacker, target) then r.lightAttack.damage else 0
  }

  function Struck(slot: Slot, tick: nat, damage: int): Slot {
    if damage == 0 then slot
    else
      var hp := if slot.player.hp - damage > 0 then slot.player.hp - damage else 0;
      var p := slot.player.(hp := hp, actionStartedServerTick := tick);
      slot.(player := if hp == 0 then p.(actionState := KO, actionTicksRemaining := 0)
                      else p.(actionState := Hit, actionTicksRemaining := 1))
  }

  // ---------------------------------------------------------------- the whole tick

  function OpenMatchSlot(slot: Slot, tick: nat): Slot {
    slot.(input := Input(slot.input.tick, 0, 0, []), nextAttackTick := tick + 1, nextDashTick := tick + 1)
  }

  function RejectSlot(slot: Slot): Slot {
    if slot.pending == [] then slot
    else Acknowledged(slot, slot.pending[|slot.pending| - 1].sequence).(pending := [])
  }

  function CountdownStep(s: State): State {
    var tick := s.tick + 1;
    var a, b := RejectSlot(s.a), RejectSlot(s.b);
    if tick >= s.rules.countdownTicks
    then s.(tick := tick, status := MatchActive, a := OpenMatchSlot(a, tick), b := OpenMatchSlot(b, tick))
    else s.(tick := tick, a := a, b := b)
  }

  function ResolveAttacks(r: Ruleset, tick: nat, a: Slot, b: Slot): (Slot, Slot) {
    (Struck(a, tick, Damage(r, b, a)), Struck(b, tick, Damage(r, a, b)))
  }

  /** Whoever has the strictly better score; nobody new on a tie. */
  function Better(s: State, scoreA: int, scoreB: int): string {
    if scoreA > scoreB then s.a.player.id else if scoreB > scoreA then s.b.player.id else s.winnerID
  }

  function Alive(p: PlayerState): int {
    if p.hp > 0 then 1 else 0
  }

  function Finish(s: State): State {
    var a, b := s.a.player, s.b.player;
    if a.hp <= 0 || b.hp <= 0 then
      s.(status := MatchFinished, finishReason := ReasonKO, winnerID := Better(s, Alive(a), Alive(b)))
    else if s.activeTicks >= s.rules.matchDurationTicks then
      s.(status := MatchFinished, finishReason := ReasonTimeLimit, winnerID := Better(s, a.hp, b.hp))
    else s
  }

  /** The state after the blows of a tick have landed, before anyone is declared the winner. */
  function Fought(s: State): State {
    var tick := s.tick + 1;
    var (a, b) := ResolveAttacks(s.rules, tick, TickSlot(s.rules, tick, s.a), TickSlot(s.rules, tick, s.b));
    s.(tick := tick, activeTicks := s.activeTicks + 1, a := a, b := b)
  }

  function ActiveStep(s: State): State {
    Finish(Fought(s))
  }

  function Step(s: State): State {
    match s.status
    case MatchFinished => s
    case MatchCountdown => CountdownStep(s)
    case MatchActive => ActiveStep(s)
  }

  function SnapshotOf(s: State): Snapshot {
    Snapshot(s.rules.arena.id, s.tick, s.a.player, s.b.player, s.status, s.winnerID, s.finishReason,
             if s.status == MatchCountdown && s.tick < s.rules.countdownTicks
             then s.rules.countdownTicks - s.tick else 0,
             if s.status == MatchActive && s.activeTicks < s.rules.matchDurationTicks
             then s.rules.matchDurationTicks - s.activeTicks else 0)
  }

  // ---------------------------------------------------------------- runs

  /** What the room's owner can do to it: hand it an input, or let one tick pass. */
  datatype Event = Deliver(id: string, input: Input) | Tick

  function Apply(s: State, e: Event): State {
    match e
    case Deliver(id, input) => Submit(s, id, input)
    case Tick => Step(s)
  }

  function Run(s: State, events: seq<Event>): State {
    if events == [] then s
    else Apply(Run(s, events[..|events| - 1]), events[|events| - 1])
  }

  lemma RunOn(s: State, before: seq<Event>, e: Event)
    ensures Run(s, before + [e]) == Apply(Run(s, before), e)
  {
    assert (before + [e])[..|before|] == before;
  }

  lemma {:induction false} RunAppend(s: State, xs: seq<Event>, ys: seq<Event>)
    ensures Run(s, xs + ys) == Run(Run(s, xs), ys)
    decreases |ys|
  {
    if ys == [] {
      assert xs + ys == xs;
    } else {
      var n := |ys| - 1;
      assert (xs + ys)[..|xs + ys| - 1] == xs + ys[..n];
      RunAppend(s, xs, ys[..n]);
    }
  }

  /** The states some run of a freshly built room leads to. */
  ghost predicate Reachable(s: State) {
    exists a: string, b: string, r: Ruleset, events: seq<Event> ::
      ReachedBy(s, a, b, r, events)
  }

  ghost predicate ReachedBy(s: State, a: string, b: string, r: Ruleset, events: seq<Event>) {
    a != "" && b != "" && a != b && Accepted(r) && s == Run(NewState(a, b, r), events)
  }
}
