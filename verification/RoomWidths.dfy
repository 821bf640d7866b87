/**
 Which rulesets leave room at the ends of the 32-bit ranges: the exact condition under which the server's tick and the
 unbounded one agree on everything the arena and the clock of a match allow.
 */
module RoomWidths {
  import opened RoomModel
  import opened RoomSlots
  import opened RoomLifecycle
  import opened RoomTimeline
  import opened RoomMovement
  import opened RoomHitbox
  import opened RoomWrapped

  // ---------------------------------------------------------------- rulesets with room at the ends

  /** No position of the arena comes closer than `reach` to the ends of the range. */
  predicate Spare(r: Ruleset, reach: int) {
    && I32_MIN + reach <= r.arena.minX && r.arena.maxX + reach <= I32_MAX
    && I32_MIN + reach <= r.arena.minY && r.arena.maxY + reach <= I32_MAX
  }

  predicate RoomyArena(r: Ruleset) {
    && Spare(r, r.movementPerTick) && Spare(r, Abs(r.dash.dashDistance))
    && Spare(r, Abs(r.attackDepth)) && Spare(r, Abs(r.attackHalfWidth)) && Spare(r, Abs(r.playerHalfExtent))
  }

  predicate RoomyClock(r: Ruleset) {
    LastTick(r) + r.dash.cooldownTicks < U32_LIMIT && LastTick(r) + r.lightAttack.cooldownTicks < U32_LIMIT
  }

  predicate Roomy(r: Ruleset) {
    RoomyArena(r) && RoomyClock(r)
  }

  /** The rules of every match are roomy. */
  lemma DefaultRulesAreRoomy(arenaID: string)
    requires arenaID != ""
    ensures var r := MatchRules(arenaID); Accepted(r) && Roomy(r) && SpawnsInside(r) && SizesMakeSense(r)
  {
  }

  lemma Fits(x: int)
    ensures I32_MIN <= x <= I32_MAX ==> WrapI32(x) == x
    ensures I32_MAX < x < I32_MAX + U32_LIMIT ==> WrapI32(x) == x - U32_LIMIT
    ensures I32_MIN - U32_LIMIT <= x < I32_MIN ==> WrapI32(x) == x + U32_LIMIT
  {
  }

  /** A sum of a position in the arena and an offset within the reach. */
  lemma SumFits(low: int, high: int, position: int, offset: int, reach: int)
    requires I32_MIN + reach <= low <= position <= high <= I32_MAX - reach && -reach <= offset <= reach
    ensures WrapI32(position + offset) == position + offset
  {
  }

  lemma SumsFit(r: Ruleset, slot: Slot, offset: int, reach: int)
    requires At(r, slot) && Spare(r, reach) && -reach <= offset <= reach
    ensures WrapI32(slot.player.positionX + offset) == slot.player.positionX + offset
    ensures WrapI32(slot.player.positionY + offset) == slot.player.positionY + offset
  {
    SumFits(r.arena.minX, r.arena.maxX, slot.player.positionX, offset, reach);
    SumFits(r.arena.minY, r.arena.maxY, slot.player.positionY, offset, reach);
  }

  lemma MoveAgrees(r: Ruleset, slot: Slot)
    requires Spare(r, r.movementPerTick) && r.movementPerTick >= 0 && At(r, slot) && FacingLocked(slot)
    ensures MoveSlot32(r, slot) == MoveSlot(r, slot)
  {
    UnitTimes(slot.input.moveX, r.movementPerTick);
    UnitTimes(slot.input.moveY, r.movementPerTick);
    SumsFit(r, slot, slot.input.moveX * r.movementPerTick, r.movementPerTick);
    SumsFit(r, slot, slot.input.moveY * r.movementPerTick, r.movementPerTick);
  }

  lemma DashAgrees(r: Ruleset, tick: nat, slot: Slot)
    requires Spare(r, Abs(r.dash.dashDistance)) && tick <= LastTick(r) && At(r, slot) && Cardinal(slot.player.facing)
    requires LastTick(r) + r.dash.cooldownTicks < U32_LIMIT
    ensures TryDash32(r, tick, slot) == TryDash(r, tick, slot)
  {
    var distance := r.dash.dashDistance;
    UnitTimes(slot.player.facing.x, distance);
    UnitTimes(slot.player.facing.y, distance);
    SumsFit(r, slot, slot.player.facing.x * distance, Abs(distance));
    SumsFit(r, slot, slot.player.facing.y * distance, Abs(distance));
  }

  lemma PerformAgrees(r: Ruleset, tick: nat, slot: Slot, kind: ActionType)
    requires Spare(r, Abs(r.dash.dashDistance)) && RoomyClock(r) && tick <= LastTick(r)
    requires At(r, slot) && Cardinal(slot.player.facing)
    ensures Perform32(r, tick, slot, kind) == Perform(r, tick, slot, kind)
  {
    DashAgrees(r, tick, slot);
  }

  /** Along one axis, with the arena's limits and enough to spare for each offset. */
  lemma AxisAgrees(low: int, high: int, position: int, target: int, depth: int, width: int, extent: int)
    requires low <= position <= high && low <= target <= high
    requires I32_MIN + Abs(depth) <= low && high <= I32_MAX - Abs(depth)
    requires I32_MIN + Abs(width) <= low && high <= I32_MAX - Abs(width)
    requires I32_MIN + Abs(extent) <= low && high <= I32_MAX - Abs(extent)
    ensures Above32(position, depth, target, extent)
       <==> RangesOverlap(position, position + depth, target - extent, target + extent)
    ensures Below32(position, depth, target, extent)
       <==> RangesOverlap(position - depth, position, target - extent, target + extent)
    ensures Beside32(position, width, target, extent)
       <==> RangesOverlap(position - width, position + width, target - extent, target + extent)
  {
    SumFits(low, high, position, depth, Abs(depth));
    SumFits(low, high, position, -depth, Abs(depth));
    SumFits(low, high, position, width, Abs(width));
    SumFits(low, high, position, -width, Abs(width));
    SumFits(low, high, target, extent, Abs(extent));
    SumFits(low, high, target, -extent, Abs(extent));
  }

  lemma StrikesAgree(r: Ruleset, attacker: Slot, target: Slot)
    requires RoomyArena(r) && At(r, attacker) && At(r, target)
    ensures Strikes32(r, attacker, target) == Strikes(r, attacker, target)
  {
    AxisAgrees(r.arena.minX, r.arena.maxX, attacker.player.positionX, target.player.positionX,
               r.attackDepth, r.attackHalfWidth, r.playerHalfExtent);
    AxisAgrees(r.arena.minY, r.arena.maxY, attacker.player.positionY, target.player.positionY,
               r.attackDepth, r.attackHalfWidth, r.playerHalfExtent);
  }

  // ---------------------------------------------------------------- whole ticks and runs agree

  lemma {:induction false} CommandsAgree(r: Ruleset, tick: nat, slot: Slot, commands: seq<ActionCommand>)
    requires Accepted(r) && Roomy(r) && tick <= LastTick(r) && At(r, slot) && Cardinal(slot.player.facing)
    ensures ProcessCommands32(r, tick, slot, commands) == ProcessCommands(r, tick, slot, commands)
    decreases |commands|
  {
    if commands != [] {
      var acknowledged := Acknowledged(slot, commands[0].sequence);
      PerformAgrees(r, tick, acknowledged, commands[0].kind);
      PerformStaysClose(r, tick, acknowledged, commands[0].kind);
      CommandsAgree(r, tick, Perform(r, tick, acknowledged, commands[0].kind), commands[1..]);
    }
  }

  lemma AdvancedStays(r: Ruleset, slot: Slot)
    requires At(r, slot) && FacingLocked(slot)
    ensures At(r, AdvanceSlot(r, slot)) && FacingLocked(AdvanceSlot(r, slot))
  {
  }

  /** `ticked` is the slot after a tick, in 32 bits and without bound. */
  ghost predicate TickedAlike(r: Ruleset, tick: nat, slot: Slot, ticked: Slot) {
    ticked == TickSlot(r, tick, slot) && ticked == TickSlot32(r, tick, slot) && At(r, ticked)
  }

  lemma TickSlotAgrees(r: Ruleset, now: nat, slot: Slot) returns (ticked: Slot)
    requires Accepted(r) && Roomy(r) && now < LastTick(r) && At(r, slot) && Timely(r, now, slot)
    ensures TickedAlike(r, now + 1, slot, ticked)
  {
    AdvancedStays(r, slot);
    MoveAgrees(r, AdvanceSlot(r, slot));
    MovedIsTimely(r, now, slot);
    MovedStaysClose(r, slot);
    CommandsAgree(r, now + 1, Moved(r, slot), Moved(r, slot).pending);
    TickStaysClose(r, now, slot);
    ticked := TickSlot(r, now + 1, slot);
  }

  lemma FightAgrees(s: State, a: Slot, b: Slot)
    requires WrapU32(s.tick + 1) == s.tick + 1 && WrapU32(s.activeTicks + 1) == s.activeTicks + 1
    requires RoomyArena(s.rules)
    requires TickedAlike(s.rules, s.tick + 1, s.a, a) && TickedAlike(s.rules, s.tick + 1, s.b, b)
    ensures Fought32(s) == Fought(s)
  {
    StrikesAgree(s.rules, a, b);
    StrikesAgree(s.rules, b, a);
    FoughtBy(s, a, b);
  }

  lemma ActiveStepAgrees(s: State)
    requires Accepted(s.rules) && Roomy(s.rules) && s.tick < LastTick(s.rules)
    requires WrapU32(s.tick + 1) == s.tick + 1 && WrapU32(s.activeTicks + 1) == s.activeTicks + 1
    requires Timely(s.rules, s.tick, s.a) && At(s.rules, s.a) && Timely(s.rules, s.tick, s.b) && At(s.rules, s.b)
    ensures Fought32(s) == Fought(s)
  {
    var a := TickSlotAgrees(s.rules, s.tick, s.a);
    var b := TickSlotAgrees(s.rules, s.tick, s.b);
    FightAgrees(s, a, b);
  }

  lemma StepAgrees(s: State)
    requires Consistent(s) && TimelyState(s) && Roomy(s.rules) && At(s.rules, s.a) && At(s.rules, s.b)
    ensures Step32(s) == Step(s)
  {
    match s.status
    case MatchActive =>
      ClockFits(s);
      ActiveStepAgrees(s);
    case MatchCountdown => OpeningAgrees(s);
    case MatchFinished =>
  }

  lemma ReachableStepAgrees(s: State)
    requires Reachable(s) && Roomy(s.rules) && SpawnsInside(s.rules)
    ensures Step32(s) == Step(s)
  {
    ReachableIsTimely(s);
    PositionsStayInside(s, true);
    PositionsStayInside(s, false);
    StepAgrees(s);
  }

  /** With roomy rules and the spawns inside, the 32-bit server and the unbounded model never differ, in any run. */
  lemma {:induction false} NothingOverflows(a: string, b: string, r: Ruleset, events: seq<Event>)
    requires a != "" && b != "" && a != b && Accepted(r) && Roomy(r) && SpawnsInside(r)
    ensures Run32(NewState(a, b, r), events) == Run(NewState(a, b, r), events)
    decreases |events|
  {
    if events != [] {
      var before := events[..|events| - 1];
      NothingOverflows(a, b, r, before);
      var s := Run(NewState(a, b, r), before);
      assert ReachedBy(s, a, b, r, before);
      NewRoomIsConsistent(a, b, r);
      RunsAreConsistent(NewState(a, b, r), before);
      ReachableStepAgrees(s);
    }
  }

  // ---------------------------------------------------------------- exactly these rulesets

  /** A slot the arena and the rules of facing allow. */
  ghost predicate Possible(r: Ruleset, slot: Slot) {
    At(r, slot) && FacingLocked(slot)
  }

  /** Moving, acting and striking agree for every possible slot and every tick of a match. */
  ghost predicate Agrees(r: Ruleset) {
    && (forall slot :: Possible(r, slot) ==> MoveSlot32(r, slot) == MoveSlot(r, slot))
    && (forall tick: nat, slot, kind :: tick <= LastTick(r) && Possible(r, slot) ==>
          Perform32(r, tick, slot, kind) == Perform(r, tick, slot, kind))
    && (forall attacker, target :: Possible(r, attacker) && Possible(r, target) ==>
          Strikes32(r, attacker, target) == Strikes(r, attacker, target))
  }

  function Witness(x: int, y: int, facing: Facing, moveX: I8, moveY: I8, state: ActionState): Slot {
    Slot(PlayerState("", x, y, 1, 0, facing, 0, state, 0, 0), Input(0, moveX, moveY, []), [], facing, 0, 0, 0)
  }

  lemma MovesAgreeAt(r: Ruleset, x: int, y: int, move: I8)
    requires Agrees(r) && Inside(r, x, y) && -1 <= move <= 1
    ensures var slot := Witness(x, y, Facing(1, 0), move, move, Idle); MoveSlot32(r, slot) == MoveSlot(r, slot)
  {
    assert Possible(r, Witness(x, y, Facing(1, 0), move, move, Idle));
  }

  /** A step past the end of the range lands on the far side of the arena. */
  lemma StepNeedsRoom(r: Ruleset, x: int, y: int, move: I8)
    requires Accepted(r) && Agrees(r) && Inside(r, x, y) && -1 <= move <= 1
    ensures Clamp(WrapI32(x + move * r.movementPerTick), r.arena.minX, r.arena.maxX)
         == Clamp(x + move * r.movementPerTick, r.arena.minX, r.arena.maxX)
    ensures Clamp(WrapI32(y + move * r.movementPerTick), r.arena.minY, r.arena.maxY)
         == Clamp(y + move * r.movementPerTick, r.arena.minY, r.arena.maxY)
  {
    MovesAgreeAt(r, x, y, move);
    var slot := Witness(x, y, Facing(1, 0), move, move, Idle);
    assert MoveSlot32(r, slot).player.positionX == MoveSlot(r, slot).player.positionX;
    assert MoveSlot32(r, slot).player.positionY == MoveSlot(r, slot).player.positionY;
  }

  /** Along one axis: an offset past the end of the range would come out at the far side. */
  lemma AxisNeedsRoom(low: int, high: int, reach: int)
    requires I32_MIN <= low < high <= I32_MAX && 0 <= reach <= -I32_MIN
    requires Clamp(WrapI32(low - reach), low, high) == Clamp(low - reach, low, high)
    requires Clamp(WrapI32(high + reach), low, high) == Clamp(high + reach, low, high)
    ensures I32_MIN + reach <= low && high + reach <= I32_MAX
  {
    Fits(low - reach);
    Fits(high + reach);
  }

  lemma MovesNeedRoom(r: Ruleset)
    requires Accepted(r) && Agrees(r)
    ensures Spare(r, r.movementPerTick)
  {
    StepNeedsRoom(r, r.arena.minX, r.arena.minY, -1);
    StepNeedsRoom(r, r.arena.maxX, r.arena.maxY, 1);
    AxisNeedsRoom(r.arena.minX, r.arena.maxX, r.movementPerTick);
    AxisNeedsRoom(r.arena.minY, r.arena.maxY, r.movementPerTick);
  }

  /** The facing that makes a dash go up the axis, whatever the sign of its distance. */
  function Up(r: Ruleset): I8 {
    if r.dash.dashDistance < 0 then -1 else 1
  }

  lemma DashesAgreeAt(r: Ruleset, x: int, y: int, facing: Facing)
    requires Agrees(r) && Inside(r, x, y) && Cardinal(facing)
    ensures var slot := Witness(x, y, facing, 0, 0, Idle); TryDash32(r, 0, slot) == TryDash(r, 0, slot)
  {
    var slot := Witness(x, y, facing, 0, 0, Idle);
    assert Possible(r, slot);
    assert Perform32(r, 0, slot, Dash) == Perform(r, 0, slot, Dash);
  }

  lemma DashNeedsRoom(r: Ruleset, x: int, y: int, unit: I8)
    requires Accepted(r) && Agrees(r) && Inside(r, x, y) && (unit == 1 || unit == -1)
    ensures Clamp(WrapI32(x + unit * r.dash.dashDistance), r.arena.minX, r.arena.maxX)
         == Clamp(x + unit * r.dash.dashDistance, r.arena.minX, r.arena.maxX)
    ensures Clamp(WrapI32(y + unit * r.dash.dashDistance), r.arena.minY, r.arena.maxY)
         == Clamp(y + unit * r.dash.dashDistance, r.arena.minY, r.arena.maxY)
  {
    DashesAgreeAt(r, x, y, Facing(unit, 0));
    DashesAgreeAt(r, x, y, Facing(0, unit));
    var sideways, upright := Witness(x, y, Facing(unit, 0), 0, 0, Idle), Witness(x, y, Facing(0, unit), 0, 0, Idle);
    assert TryDash32(r, 0, sideways).player.positionX == TryDash(r, 0, sideways).player.positionX;
    assert TryDash32(r, 0, upright).player.positionY == TryDash(r, 0, upright).player.positionY;
  }

  lemma DashesNeedRoom(r: Ruleset)
    requires Accepted(r) && Agrees(r)
    ensures Spare(r, Abs(r.dash.dashDistance))
  {
    var up := Up(r);
    var far: int := Abs(r.dash.dashDistance);
    assert up * r.dash.dashDistance == far && (-up) * r.dash.dashDistance == -far;
    DashNeedsRoom(r, r.arena.maxX, r.arena.maxY, up);
    DashNeedsRoom(r, r.arena.minX, r.arena.minY, -up);
    AxisNeedsRoom(r.arena.minX, r.arena.maxX, far);
    AxisNeedsRoom(r.arena.minY, r.arena.maxY, far);
  }

  lemma CooldownsNeedRoom(r: Ruleset)
    requires Accepted(r) && Agrees(r)
    ensures RoomyClock(r)
  {
    var slot := Witness(r.arena.minX, r.arena.minY, Facing(1, 0), 0, 0, Idle);
    assert Possible(r, slot);
    var last := LastTick(r);
    assert Perform32(r, last, slot, Dash) == Perform(r, last, slot, Dash);
    assert Perform32(r, last, slot, LightAttack) == Perform(r, last, slot, LightAttack);
    assert WrapU32(last + r.dash.cooldownTicks) == last + r.dash.cooldownTicks;
    assert WrapU32(last + r.lightAttack.cooldownTicks) == last + r.lightAttack.cooldownTicks;
  }

  /** Two players on one spot: the unbounded test passes in every facing, so the wrapped one has to. */
  lemma StrikesAgreeAt(r: Ruleset, x: int, y: int, facing: Facing)
    requires SizesMakeSense(r) && Agrees(r) && Inside(r, x, y) && Cardinal(facing)
    ensures var p := Witness(x, y, facing, 0, 0, Active).player; HitboxIntersects32(p, p, facing, r)
  {
    var slot := Witness(x, y, facing, 0, 0, Active);
    assert Possible(r, slot);
    assert Strikes32(r, slot, slot) == Strikes(r, slot, slot);
  }

  /** If a size reaches past an end of the range, a wrapped interval around that end does not overlap. */
  lemma WrappedIntervalsMiss(position: int, depth: int, width: int, extent: int)
    requires I32_MIN <= position <= I32_MAX
    requires 0 <= depth <= I32_MAX && 0 <= width <= I32_MAX && 0 <= extent <= I32_MAX
    ensures Above32(position, depth, position, extent) ==> position + depth <= I32_MAX && position + extent <= I32_MAX
    ensures Below32(position, depth, position, extent) ==> I32_MIN <= position - depth && I32_MIN <= position - extent
    ensures Beside32(position, width, position, extent) ==> I32_MIN <= position - width && position + width <= I32_MAX
  {
    Fits(position - extent);
    Fits(position + extent);
    Fits(position + depth);
    Fits(position - depth);
    Fits(position + width);
    Fits(position - width);
  }

  lemma HighCornerNeedsRoom(r: Ruleset)
    requires Accepted(r) && SizesMakeSense(r) && Agrees(r)
    ensures r.arena.maxX + r.attackDepth <= I32_MAX && r.arena.maxY + r.attackDepth <= I32_MAX
    ensures r.arena.maxX + r.attackHalfWidth <= I32_MAX && r.arena.maxY + r.attackHalfWidth <= I32_MAX
    ensures r.arena.maxX + r.playerHalfExtent <= I32_MAX && r.arena.maxY + r.playerHalfExtent <= I32_MAX
  {
    StrikesAgreeAt(r, r.arena.maxX, r.arena.maxY, Facing(1, 0));
    StrikesAgreeAt(r, r.arena.maxX, r.arena.maxY, Facing(0, 1));
    WrappedIntervalsMiss(r.arena.maxX, r.attackDepth, r.attackHalfWidth, r.playerHalfExtent);
    WrappedIntervalsMiss(r.arena.maxY, r.attackDepth, r.attackHalfWidth, r.playerHalfExtent);
  }

  lemma LowCornerNeedsRoom(r: Ruleset)
    requires Accepted(r) && SizesMakeSense(r) && Agrees(r)
    ensures I32_MIN + r.attackDepth <= r.arena.minX && I32_MIN + r.attackDepth <= r.arena.minY
    ensures I32_MIN + r.attackHalfWidth <= r.arena.minX && I32_MIN + r.attackHalfWidth <= r.arena.minY
    ensures I32_MIN + r.playerHalfExtent <= r.arena.minX && I32_MIN + r.playerHalfExtent <= r.arena.minY
  {
    StrikesAgreeAt(r, r.arena.minX, r.arena.minY, Facing(-1, 0));
    StrikesAgreeAt(r, r.arena.minX, r.arena.minY, Facing(0, -1));
    WrappedIntervalsMiss(r.arena.minX, r.attackDepth, r.attackHalfWidth, r.playerHalfExtent);
    WrappedIntervalsMiss(r.arena.minY, r.attackDepth, r.attackHalfWidth, r.playerHalfExtent);
  }

  /**
   The server's 32 bits suffice for every position in the arena and every tick of a match exactly if the ruleset is
   roomy, which one can check before building a room.
   */
  lemma AgreesIffRoomy(r: Ruleset)
    requires Accepted(r) && SizesMakeSense(r)
    ensures Agrees(r) <==> Roomy(r)
  {
    if Roomy(r) {
      RoomyAgrees(r);
    }
    if Agrees(r) {
      MovesNeedRoom(r);
      DashesNeedRoom(r);
      HighCornerNeedsRoom(r);
      LowCornerNeedsRoom(r);
      CooldownsNeedRoom(r);
    }
  }

  lemma RoomyAgrees(r: Ruleset)
    requires Accepted(r) && Roomy(r)
    ensures Agrees(r)
  {
    forall slot | Possible(r, slot) ensures MoveSlot32(r, slot) == MoveSlot(r, slot) {
      MoveAgrees(r, slot);
    }
    forall tick: nat, slot, kind | tick <= LastTick(r) && Possible(r, slot)
      ensures Perform32(r, tick, slot, kind) == Perform(r, tick, slot, kind)
    {
      PerformAgrees(r, tick, slot, kind);
    }
    forall attacker, target | Possible(r, attacker) && Possible(r, target)
      ensures Strikes32(r, attacker, target) == Strikes(r, attacker, target)
    {
      StrikesAgree(r, attacker, target);
    }
  }
}
