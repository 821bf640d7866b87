/**
 The tick as the server computes it: clocks and positions are 32 bits wide and wrap around, those of `RoomModel` are
 unbounded. Wrapping touches where players are and when they may act again; what it leaves alone is proved here.
 */
module RoomWrapped {
  import opened RoomModel
  import opened RoomSlots
  import opened RoomLifecycle
  import opened RoomTimeline

  function LastTick(r: Ruleset): nat {
    r.countdownTicks + r.matchDurationTicks
  }

  const I32_MIN := -0x8000_0000
  const I32_MAX := 0x7FFF_FFFF

  function WrapU32(x: int): U32 {
    x % U32_LIMIT
  }

  function WrapI32(x: int): I32 {
    (x - I32_MIN) % U32_LIMIT + I32_MIN
  }

  // ---------------------------------------------------------------- the tick in 32 bits

  function MoveSlot32(r: Ruleset, slot: Slot): Slot {
    var p := slot.player.(lastAckedInputTick := slot.input.tick);
    if p.hp <= 0 || p.actionState == Dashing || p.actionState == Hit || p.actionState == KO then
      slot.(player := p)
    else
      var facing := if Locomoting(p.actionState) then UpdatedFacing(p.facing, slot.input) else p.facing;
      var x := Clamp(WrapI32(p.positionX + slot.input.moveX * r.movementPerTick), r.arena.minX, r.arena.maxX);
      var y := Clamp(WrapI32(p.positionY + slot.input.moveY * r.movementPerTick), r.arena.minY, r.arena.maxY);
      var moved := slot.(player := p.(facing := facing, positionX := x, positionY := y));
      if Locomoting(p.actionState) then Locomotion(moved) else moved
  }

  function TryDash32(r: Ruleset, tick: nat, slot: Slot): Slot {
    if !CanStartAction(slot) || tick < slot.nextDashTick then slot
    else
      var p := slot.player;
      var x := Clamp(WrapI32(p.positionX + p.facing.x * r.dash.dashDistance), r.arena.minX, r.arena.maxX);
      var y := Clamp(WrapI32(p.positionY + p.facing.y * r.dash.dashDistance), r.arena.minY, r.arena.maxY);
      slot.(player := p.(positionX := x, positionY := y, actionState := Dashing,
                         actionStartedServerTick := tick, actionTicksRemaining := 1),
            nextDashTick := WrapU32(tick + r.dash.cooldownTicks))
  }

  function TryLightAttack32(r: Ruleset, tick: nat, slot: Slot): Slot {
    if !CanStartAction(slot) || tick < slot.nextAttackTick then slot
    else TryLightAttack(r, tick, slot).(nextAttackTick := WrapU32(tick + r.lightAttack.cooldownTicks))
  }

  function Perform32(r: Ruleset, tick: nat, slot: Slot, kind: ActionType): Slot {
    match kind
    case Dash => TryDash32(r, tick, slot)
    case LightAttack => TryLightAttack32(r, tick, slot)
    case Unspecified => slot
  }

  function ProcessCommands32(r: Ruleset, tick: nat, slot: Slot, commands: seq<ActionCommand>): Slot
    decreases |commands|
  {
    if commands == [] then slot
    else
      var acknowledged := Acknowledged(slot, commands[0].sequence);
      ProcessCommands32(r, tick, Perform32(r, tick, acknowledged, commands[0].kind), commands[1..])
  }

  function TickSlot32(r: Ruleset, tick: nat, slot: Slot): Slot {
    var moved := MoveSlot32(r, AdvanceSlot(r, slot));
    ProcessCommands32(r, tick, moved, moved.pending).(pending := [])
  }

  /** The three interval tests of a hitbox along one axis: upwards of the attacker, downwards, and to both sides. */
  predicate Above32(position: int, depth: int, target: int, extent: int) {
    RangesOverlap(position, WrapI32(position + depth), WrapI32(target - extent), WrapI32(target + extent))
  }

  predicate Below32(position: int, depth: int, target: int, extent: int) {
    RangesOverlap(WrapI32(position - depth), position, WrapI32(target - extent), WrapI32(target + extent))
  }

  predicate Beside32(position: int, width: int, target: int, extent: int) {
    RangesOverlap(WrapI32(position - width), WrapI32(position + width),
                  WrapI32(target - extent), WrapI32(target + extent))
  }

  predicate HitboxIntersects32(attacker: PlayerState, target: PlayerState, facing: Facing, r: Ruleset) {
    var x, y, targetX, targetY := attacker.positionX, attacker.positionY, target.positionX, target.positionY;
    if facing.x > 0 then
      Above32(x, r.attackDepth, targetX, r.playerHalfExtent)
      && Beside32(y, r.attackHalfWidth, targetY, r.playerHalfExtent)
    else if facing.x < 0 then
      Below32(x, r.attackDepth, targetX, r.playerHalfExtent)
      && Beside32(y, r.attackHalfWidth, targetY, r.playerHalfExtent)
    else if facing.y > 0 then
      Beside32(x, r.attackHalfWidth, targetX, r.playerHalfExtent)
      && Above32(y, r.attackDepth, targetY, r.playerHalfExtent)
    else
      Beside32(x, r.attackHalfWidth, targetX, r.playerHalfExtent)
      && Below32(y, r.attackDepth, targetY, r.playerHalfExtent)
  }

  predicate Strikes32(r: Ruleset, attacker: Slot, target: Slot) {
    attacker.player.actionState == Active
    && HitboxIntersects32(attacker.player, target.player, attacker.attackFacing, r)
  }

  function Damage32(r: Ruleset, attacker: Slot, target: Slot): int {
    if Strikes32(r, attacker, target) then r.lightAttack.damage else 0
  }

  /** HP and damage are never negative, so their difference needs no wrapping. */
  function ResolveAttacks32(r: Ruleset, tick: nat, a: Slot, b: Slot): (Slot, Slot) {
    (Struck(a, tick, Damage32(r, b, a)), Struck(b, tick, Damage32(r, a, b)))
  }

  function OpenMatchSlot32(slot: Slot, tick: nat): Slot {
    OpenMatchSlot(slot, tick).(nextAttackTick := WrapU32(tick + 1), nextDashTick := WrapU32(tick + 1))
  }

  function CountdownStep32(s: State): State {
    var tick := WrapU32(s.tick + 1);
    var a, b := RejectSlot(s.a), RejectSlot(s.b);
    if tick >= s.rules.countdownTicks
    then s.(tick := tick, status := MatchActive, a := OpenMatchSlot32(a, tick), b := OpenMatchSlot32(b, tick))
    else s.(tick := tick, a := a, b := b)
  }

  function Fought32(s: State): State {
    var tick := WrapU32(s.tick + 1);
    var (a, b) := ResolveAttacks32(s.rules, tick, TickSlot32(s.rules, tick, s.a), TickSlot32(s.rules, tick, s.b));
    s.(tick := tick, activeTicks := WrapU32(s.activeTicks + 1), a := a, b := b)
  }

  function Step32(s: State): State {
    match s.status
    case MatchFinished => s
    case MatchCountdown => CountdownStep32(s)
    case MatchActive => Finish(Fought32(s))
  }

  /** Accepting inputs already wraps in `RoomModel`. */
  function Apply32(s: State, e: Event): State {
    match e
    case Deliver(id, input) => Submit(s, id, input)
    case Tick => Step32(s)
  }

  function Run32(s: State, events: seq<Event>): State {
    if events == [] then s
    else Apply32(Run32(s, events[..|events| - 1]), events[|events| - 1])
  }

  lemma {:induction false} Run32Append(s: State, xs: seq<Event>, ys: seq<Event>)
    ensures Run32(s, xs + ys) == Run32(Run32(s, xs), ys)
    decreases |ys|
  {
    if ys == [] {
      assert xs + ys == xs;
    } else {
      var n := |ys| - 1;
      assert (xs + ys)[..|xs + ys| - 1] == xs + ys[..n];
      Run32Append(s, xs, ys[..n]);
    }
  }

  // ---------------------------------------------------------------- one action per tick

  lemma PerformIgnoresAcknowledgement32(r: Ruleset, tick: nat, slot: Slot, sequence: U32, kind: ActionType)
    ensures Perform32(r, tick, Acknowledged(slot, sequence), kind)
         == Acknowledged(Perform32(r, tick, slot, kind), sequence)
  {
  }

  lemma PerformOnce32(r: Ruleset, tick: nat, slot: Slot, kind: ActionType, next: ActionType)
    requires Perform32(r, tick, slot, kind) != slot
    ensures Perform32(r, tick, Perform32(r, tick, slot, kind), next) == Perform32(r, tick, slot, kind)
  {
  }

  lemma {:induction false} OneActionPerTick32(r: Ruleset, tick: nat, slot: Slot, commands: seq<ActionCommand>)
    returns (kind: ActionType)
    ensures ProcessCommands32(r, tick, slot, commands)
         == Acknowledged(Perform32(r, tick, slot, kind), LastSequence(slot.player.lastAckedActionSequence, commands))
    decreases |commands|
  {
    if commands == [] {
      kind := Unspecified;
    } else {
      var acknowledged := Acknowledged(slot, commands[0].sequence);
      var performed := Perform32(r, tick, acknowledged, commands[0].kind);
      var later := OneActionPerTick32(r, tick, performed, commands[1..]);
      PerformIgnoresAcknowledgement32(r, tick, slot, commands[0].sequence, commands[0].kind);
      if performed == acknowledged {
        kind := later;
        PerformIgnoresAcknowledgement32(r, tick, slot, commands[0].sequence, later);
      } else {
        kind := commands[0].kind;
        PerformOnce32(r, tick, acknowledged, commands[0].kind, later);
      }
    }
  }

  function Moved32(r: Ruleset, slot: Slot): Slot {
    MoveSlot32(r, AdvanceSlot(r, slot))
  }

  lemma MovedFrame32(r: Ruleset, slot: Slot)
    ensures var m := Moved32(r, slot);
            && m.player.hp == slot.player.hp && m.player.id == slot.player.id && m == slot.(player := m.player)
            && m.player.lastAckedActionSequence == slot.player.lastAckedActionSequence
  {
  }

  lemma TickSlotShape32(r: Ruleset, tick: nat, slot: Slot) returns (kind: ActionType)
    ensures TickSlot32(r, tick, slot)
         == Acknowledged(Perform32(r, tick, Moved32(r, slot), kind),
                         LastSequence(slot.player.lastAckedActionSequence, slot.pending)).(pending := [])
  {
    MovedFrame32(r, slot);
    kind := OneActionPerTick32(r, tick, Moved32(r, slot), slot.pending);
  }

  lemma PerformFrame32(r: Ruleset, tick: nat, slot: Slot, kind: ActionType)
    ensures var t := Perform32(r, tick, slot, kind); t.player.hp == slot.player.hp && t.player.id == slot.player.id
  {
  }

  lemma TickSlotFrame32(r: Ruleset, tick: nat, slot: Slot)
    ensures var t := TickSlot32(r, tick, slot); t.player.hp == slot.player.hp && t.player.id == slot.player.id
  {
    MovedFrame32(r, slot);
    var kind := TickSlotShape32(r, tick, slot);
    PerformFrame32(r, tick, Moved32(r, slot), kind);
  }

  // ---------------------------------------------------------------- what wrapping leaves alone

  /** The slot somewhere else, and with other cooldowns. */
  function Elsewhere(slot: Slot, x: int, y: int, dashTick: nat, attackTick: nat): Slot {
    slot.(player := slot.player.(positionX := x, positionY := y), nextDashTick := dashTick,
          nextAttackTick := attackTick)
  }

  /** `t` differs from `slot` in position and cooldowns at most. */
  ghost predicate OnlyElsewhere(slot: Slot, t: Slot) {
    t == Elsewhere(slot, t.player.positionX, t.player.positionY, t.nextDashTick, t.nextAttackTick)
  }

  lemma MoveIsElsewhere(r: Ruleset, slot: Slot)
    ensures OnlyElsewhere(MoveSlot(r, slot), MoveSlot32(r, slot))
    ensures MoveSlot32(r, slot).nextDashTick == slot.nextDashTick
    ensures MoveSlot32(r, slot).nextAttackTick == slot.nextAttackTick
  {
  }

  lemma PerformIsElsewhere(r: Ruleset, tick: nat, slot: Slot, kind: ActionType)
    ensures OnlyElsewhere(Perform(r, tick, slot, kind), Perform32(r, tick, slot, kind))
    ensures tick + r.lightAttack.cooldownTicks < U32_LIMIT ==>
              Perform32(r, tick, slot, kind).nextAttackTick == Perform(r, tick, slot, kind).nextAttackTick
  {
  }

  /** The action timeline is about neither. */
  lemma TimelyElsewhere(r: Ruleset, now: nat, slot: Slot, t: Slot)
    requires Timely(r, now, slot) && OnlyElsewhere(slot, t)
    ensures Timely(r, now, t)
  {
  }

  lemma MovedIsTimely32(r: Ruleset, now: nat, slot: Slot)
    requires r.lightAttack.activeTicks != 0 && Timely(r, now, slot)
    ensures Timely(r, now + 1, Moved32(r, slot)) && OnlyElsewhere(Moved(r, slot), Moved32(r, slot))
  {
    MovedIsTimely(r, now, slot);
    MoveIsElsewhere(r, AdvanceSlot(r, slot));
    TimelyElsewhere(r, now + 1, Moved(r, slot), Moved32(r, slot));
  }

  lemma PerformIsTimely32(r: Ruleset, now: nat, slot: Slot, kind: ActionType)
    requires r.lightAttack.activeTicks != 0 && now > 0 && Timely(r, now, slot)
    ensures Timely(r, now, Perform32(r, now, slot, kind))
  {
    PerformIsTimely(r, now, slot, kind);
    PerformIsElsewhere(r, now, slot, kind);
    TimelyElsewhere(r, now, Perform(r, now, slot, kind), Perform32(r, now, slot, kind));
  }

  /** What a tick leaves of a slot that has moved and performed one action. */
  function Settled32(r: Ruleset, tick: nat, moved: Slot, kind: ActionType, ack: U32): Slot {
    Acknowledged(Perform32(r, tick, moved, kind), ack).(pending := [])
  }

  lemma TickIsSettled32(r: Ruleset, tick: nat, slot: Slot) returns (moved: Slot, kind: ActionType, ack: U32)
    ensures moved == Moved32(r, slot) && TickSlot32(r, tick, slot) == Settled32(r, tick, moved, kind, ack)
  {
    moved, ack := Moved32(r, slot), LastSequence(slot.player.lastAckedActionSequence, slot.pending);
    kind := TickSlotShape32(r, tick, slot);
  }

  lemma SettledIsTimely32(r: Ruleset, now: nat, moved: Slot, kind: ActionType, ack: U32, t: Slot)
    requires r.lightAttack.activeTicks != 0 && now > 0 && Timely(r, now, moved)
    requires t == Settled32(r, now, moved, kind, ack)
    ensures Timely(r, now, t)
  {
    PerformIsTimely32(r, now, moved, kind);
  }

  lemma TickIsTimely32(r: Ruleset, now: nat, slot: Slot, ticked: Slot)
    requires r.lightAttack.activeTicks != 0 && Timely(r, now, slot) && ticked == TickSlot32(r, now + 1, slot)
    ensures Timely(r, now + 1, ticked)
  {
    MovedIsTimely32(r, now, slot);
    var moved, kind, ack := TickIsSettled32(r, now + 1, slot);
    SettledIsTimely32(r, now + 1, moved, kind, ack, ticked);
  }

  // ---------------------------------------------------------------- whole ticks, while the clock does not wrap

  /** Both players' sides of an active tick. */
  lemma ActiveSlots32(s: State, side: Side, mine: Slot, theirs: Slot)
    requires WrapU32(s.tick + 1) == s.tick + 1
    requires mine == TickSlot32(s.rules, s.tick + 1, SlotOf(s, side))
    requires theirs == TickSlot32(s.rules, s.tick + 1, SlotOf(s, !side))
    ensures var t := Fought32(s);
            && SlotOf(t, side) == Struck(mine, s.tick + 1, Damage32(s.rules, theirs, mine))
            && SlotOf(t, !side) == Struck(theirs, s.tick + 1, Damage32(s.rules, mine, theirs))
            && t.rules == s.rules && t.tick == s.tick + 1 && t.activeTicks == WrapU32(s.activeTicks + 1)
            && t.status == s.status && t.winnerID == s.winnerID && t.finishReason == s.finishReason
  {
  }

  lemma FinishKeepsSlots(s: State)
    ensures Finish(s).a == s.a && Finish(s).b == s.b && Finish(s).rules == s.rules && Finish(s).tick == s.tick
    ensures s.status != MatchCountdown ==> Finish(s).status != MatchCountdown
  {
  }

  lemma ClockFits(s: State)
    requires Consistent(s) && LastTick(s.rules) < U32_LIMIT && s.status != MatchFinished
    ensures s.tick < LastTick(s.rules)
    ensures WrapU32(s.tick + 1) == s.tick + 1 && WrapU32(s.activeTicks + 1) == s.activeTicks + 1
  {
  }

  lemma FoughtIsConsistent32(s: State, f: State, a: Slot, b: Slot)
    requires Consistent(s) && s.status == MatchActive
    requires f.rules == s.rules && f.tick == s.tick + 1 && f.activeTicks == s.activeTicks + 1
    requires f.status == s.status && f.winnerID == s.winnerID && f.finishReason == s.finishReason
    requires f.a == a && f.b == b && a.player.id == s.a.player.id && b.player.id == s.b.player.id
    requires 0 <= a.player.hp <= s.a.player.hp && 0 <= b.player.hp <= s.b.player.hp
    ensures Consistent(Finish(f)) && SameMatch(s, Finish(f))
  {
    FinishIsRightful(f);
  }

  lemma ActiveStepIsConsistent32(s: State)
    requires Consistent(s) && LastTick(s.rules) < U32_LIMIT && s.status == MatchActive
    ensures Consistent(Step32(s)) && SameMatch(s, Step32(s))
  {
    ClockFits(s);
    var r, tick := s.rules, s.tick + 1;
    var a, b := TickSlot32(r, tick, s.a), TickSlot32(r, tick, s.b);
    TickSlotFrame32(r, tick, s.a);
    TickSlotFrame32(r, tick, s.b);
    ActiveSlots32(s, true, a, b);
    StruckHP(a, tick, Damage32(r, b, a));
    StruckHP(b, tick, Damage32(r, a, b));
    FoughtIsConsistent32(s, Fought32(s), Struck(a, tick, Damage32(r, b, a)), Struck(b, tick, Damage32(r, a, b)));
  }

  /** A blow of `dealt`, if any, is that of an attack in its active phase. */
  predicate Struckable(r: Ruleset, mine: Slot, dealt: int) {
    dealt == 0 || (dealt == r.lightAttack.damage && mine.player.actionState == Active)
  }

  /** `t` comes of an active tick: the ticked slots have exchanged their blows and the clock has moved. */
  ghost predicate Exchanged32(s: State, t: State, side: Side, mine: Slot, theirs: Slot, taken: int, dealt: int) {
    && SlotOf(t, side) == Struck(mine, s.tick + 1, taken) && SlotOf(t, !side) == Struck(theirs, s.tick + 1, dealt)
    && t.rules == s.rules && t.tick == s.tick + 1 && t.status != MatchCountdown && Struckable(s.rules, mine, dealt)
  }

  lemma DamageIsStruckable32(r: Ruleset, mine: Slot, theirs: Slot) returns (dealt: int)
    ensures dealt == Damage32(r, mine, theirs) && Struckable(r, mine, dealt)
  {
    dealt := Damage32(r, mine, theirs);
  }

  lemma FinishExchanges32(s: State, f: State, side: Side, mine: Slot, theirs: Slot, taken: int, dealt: int)
    requires SlotOf(f, side) == Struck(mine, s.tick + 1, taken) && SlotOf(f, !side) == Struck(theirs, s.tick + 1, dealt)
    requires f.rules == s.rules && f.tick == s.tick + 1 && f.status == MatchActive && Struckable(s.rules, mine, dealt)
    ensures Exchanged32(s, Finish(f), side, mine, theirs, taken, dealt)
  {
    FinishKeepsSlots(f);
  }

  lemma ActiveSide32(s: State, side: Side) returns (mine: Slot, theirs: Slot, taken: int, dealt: int)
    requires Consistent(s) && LastTick(s.rules) < U32_LIMIT && s.status == MatchActive
    ensures mine == TickSlot32(s.rules, s.tick + 1, SlotOf(s, side))
    ensures theirs == TickSlot32(s.rules, s.tick + 1, SlotOf(s, !side))
    ensures Exchanged32(s, Step32(s), side, mine, theirs, taken, dealt)
  {
    ClockFits(s);
    mine, theirs := TickSlot32(s.rules, s.tick + 1, SlotOf(s, side)), TickSlot32(s.rules, s.tick + 1, SlotOf(s, !side));
    taken := DamageIsStruckable32(s.rules, theirs, mine);
    dealt := DamageIsStruckable32(s.rules, mine, theirs);
    ActiveSlots32(s, side, mine, theirs);
    FinishExchanges32(s, Fought32(s), side, mine, theirs, taken, dealt);
  }

  lemma StruckAfterIsTimely(r: Ruleset, now: nat, slot: Slot, taken: int, after: Slot)
    requires now > 0 && Timely(r, now, slot) && after == Struck(slot, now, taken)
    ensures Timely(r, now, after)
  {
    StruckIsTimely(r, now, slot, taken);
  }

  lemma ExchangeIsTimely32(s: State, t: State, a: Slot, b: Slot, taken: int, dealt: int)
    requires Exchanged32(s, t, true, a, b, taken, dealt)
    requires Timely(s.rules, s.tick + 1, a) && Timely(s.rules, s.tick + 1, b)
    ensures TimelyState(t)
  {
    StruckAfterIsTimely(s.rules, s.tick + 1, a, taken, t.a);
    StruckAfterIsTimely(s.rules, s.tick + 1, b, dealt, t.b);
  }

  lemma TickedSlotsAreTimely32(s: State, t: State, a: Slot, b: Slot, taken: int, dealt: int)
    requires s.rules.lightAttack.activeTicks != 0 && Timely(s.rules, s.tick, s.a) && Timely(s.rules, s.tick, s.b)
    requires a == TickSlot32(s.rules, s.tick + 1, s.a) && b == TickSlot32(s.rules, s.tick + 1, s.b)
    requires Exchanged32(s, t, true, a, b, taken, dealt)
    ensures TimelyState(t)
  {
    TickIsTimely32(s.rules, s.tick, s.a, a);
    TickIsTimely32(s.rules, s.tick, s.b, b);
    ExchangeIsTimely32(s, t, a, b, taken, dealt);
  }

  lemma ActiveStepIsTimely32(s: State)
    requires Consistent(s) && TimelyState(s) && LastTick(s.rules) < U32_LIMIT && s.status == MatchActive
    ensures TimelyState(Step32(s))
  {
    var a, b, taken, dealt := ActiveSide32(s, true);
    TickedSlotsAreTimely32(s, Step32(s), a, b, taken, dealt);
  }

  lemma OpeningAgrees(s: State)
    requires Consistent(s) && LastTick(s.rules) < U32_LIMIT && s.status == MatchCountdown
    ensures CountdownStep32(s) == CountdownStep(s)
  {
  }

  /** While the clock of a match does not wrap, the lifecycle and the timeline are kept ... */
  lemma SoundIsKept32(s: State, e: Event)
    requires Consistent(s) && TimelyState(s) && LastTick(s.rules) < U32_LIMIT
    ensures Consistent(Apply32(s, e)) && TimelyState(Apply32(s, e)) && SameMatch(s, Apply32(s, e))
  {
    if e.Deliver? || s.status != MatchActive {
      if e.Tick? && s.status == MatchCountdown {
        OpeningAgrees(s);
      }
      ConsistentIsKept(s, e);
      TimelyIsKept(s, e);
    } else {
      ActiveStepIsConsistent32(s);
      ActiveStepIsTimely32(s);
    }
  }

  /** ... over every run. */
  lemma {:induction false} RunsAreSound32(s: State, events: seq<Event>)
    requires Consistent(s) && TimelyState(s) && LastTick(s.rules) < U32_LIMIT
    ensures Consistent(Run32(s, events)) && TimelyState(Run32(s, events)) && SameMatch(s, Run32(s, events))
    decreases |events|
  {
    if events != [] {
      var before := events[..|events| - 1];
      RunsAreSound32(s, before);
      SoundIsKept32(Run32(s, before), events[|events| - 1]);
    }
  }

  lemma NewRoomIsSound(a: string, b: string, r: Ruleset)
    requires a != "" && b != "" && a != b && Accepted(r)
    ensures Consistent(NewState(a, b, r)) && TimelyState(NewState(a, b, r))
  {
  }
}
