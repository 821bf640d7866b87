/**
 A tick by the published clock. The server counts the phases of an action down and passes over the players three times;
 here is what a tick does in terms of start ticks and absolute times, with no countdown in it, and what follows for
 attacks over whole runs: they run their course, and they take the HP of whom they touch.
 */
module RoomSchedule {
  import opened RoomModel
  import opened RoomSlots
  import opened RoomLifecycle
  import opened RoomTimeline
  import opened RoomHitbox

  /** An attack started on tick `start` is winding up before this tick, ... */
  function ActiveFrom(r: Ruleset, start: nat): nat {
    start + r.lightAttack.windupTicks
  }

  /** ... hits before this one, ... */
  function ActiveUntil(r: Ruleset, start: nat): nat {
    ActiveFrom(r, start) + r.lightAttack.activeTicks
  }

  /** ... and is over from this one on. */
  function OverFrom(r: Ruleset, start: nat): nat {
    ActiveUntil(r, start) + r.lightAttack.recoveryTicks
  }

  /** A player as the attack started on `start` goes on on tick `now`. */
  function Ongoing(r: Ruleset, start: nat, now: nat, p: PlayerState): PlayerState
    requires now < OverFrom(r, start)
  {
    if now < ActiveFrom(r, start) then
      p.(actionState := Windup, actionStartedServerTick := start, actionTicksRemaining := ActiveFrom(r, start) - now)
    else if now < ActiveUntil(r, start) then
      p.(actionState := Active, actionStartedServerTick := start, actionTicksRemaining := ActiveUntil(r, start) - now)
    else
      p.(actionState := Recovery, actionStartedServerTick := start, actionTicksRemaining := OverFrom(r, start) - now)
  }

  /** Nothing the player did on the tick before goes on on tick `now`. */
  predicate Free(r: Ruleset, p: PlayerState, now: nat) {
    p.actionState != KO && (Attacking(p.actionState) ==> OverFrom(r, p.actionStartedServerTick) <= now)
  }

  /** One step in the held direction, up to the wall. */
  function Walked(r: Ruleset, p: PlayerState, moveX: int, moveY: int): PlayerState {
    p.(positionX := Clamp(p.positionX + moveX * r.movementPerTick, r.arena.minX, r.arena.maxX),
       positionY := Clamp(p.positionY + moveY * r.movementPerTick, r.arena.minY, r.arena.maxY))
  }

  /** The held direction, the horizontal one first; the old one if none is held. */
  function Turned(facing: Facing, moveX: I8, moveY: I8): Facing {
    if moveX != 0 then Facing(moveX, 0) else if moveY != 0 then Facing(0, moveY) else facing
  }

  predicate Due(slot: Slot, kind: ActionType, now: nat) {
    (kind == Dash && slot.nextDashTick <= now) || (kind == LightAttack && slot.nextAttackTick <= now)
  }

  /** What a free player starts on tick `now`: the first command whose cooldown is over. */
  function FirstDue(slot: Slot, commands: seq<ActionCommand>, now: nat): ActionType {
    if commands == [] then Unspecified
    else if Due(slot, commands[0].kind, now) then commands[0].kind
    else FirstDue(slot, commands[1..], now)
  }

  /** A free player at the end of a tick on which it has started `kind`. */
  function Started(r: Ruleset, now: nat, p: PlayerState, kind: ActionType, moving: bool): PlayerState
    requires r.lightAttack.activeTicks != 0
  {
    match kind
    case LightAttack => Ongoing(r, now, now, p)
    case Dash =>
      p.(positionX := Clamp(p.positionX + p.facing.x * r.dash.dashDistance, r.arena.minX, r.arena.maxX),
         positionY := Clamp(p.positionY + p.facing.y * r.dash.dashDistance, r.arena.minY, r.arena.maxY),
         actionState := Dashing, actionStartedServerTick := now, actionTicksRemaining := 1)
    case Unspecified =>
      p.(actionState := if moving then Move else Idle, actionStartedServerTick := 0, actionTicksRemaining := 0)
  }

  /** What the slot does on tick `now`. */
  function Carried(r: Ruleset, now: nat, slot: Slot): Slot
    requires r.lightAttack.activeTicks != 0
  {
    var x, y := slot.input.moveX, slot.input.moveY;
    var p := slot.player.(lastAckedInputTick := slot.input.tick);
    if p.actionState == KO || p.hp <= 0 then slot.(player := p)
    else if !Free(r, p, now) then slot.(player := Walked(r, Ongoing(r, p.actionStartedServerTick, now, p), x, y))
    else
      var walked := Walked(r, p.(facing := Turned(p.facing, x, y)), x, y);
      Acting(r, now, slot, walked, FirstDue(slot, slot.pending, now), x != 0 || y != 0)
  }

  /** A free player, on the move or not, at the end of a tick on which it starts `kind`. */
  function Acting(r: Ruleset, now: nat, slot: Slot, walked: PlayerState, kind: ActionType, moving: bool): Slot
    requires r.lightAttack.activeTicks != 0
  {
    slot.(player := Started(r, now, walked, kind, moving),
          attackFacing := if kind == LightAttack then walked.facing else slot.attackFacing,
          nextDashTick := if kind == Dash then now + r.dash.cooldownTicks else slot.nextDashTick,
          nextAttackTick := if kind == LightAttack then now + r.lightAttack.cooldownTicks else slot.nextAttackTick)
  }

  /** What the slot's tick `now` comes to before blows are exchanged: all its commands are acknowledged besides. */
  function Scheduled(r: Ruleset, now: nat, slot: Slot): Slot
    requires r.lightAttack.activeTicks != 0
  {
    Acknowledged(Carried(r, now, slot),
                 LastSequence(slot.player.lastAckedActionSequence, slot.pending)).(pending := [])
  }

  /** An attack that hits on this tick, and whom it meets. */
  predicate Lands(r: Ruleset, attacker: PlayerState, target: PlayerState) {
    attacker.actionState == Active && HitboxIntersects(attacker, target, attacker.facing, r)
  }

  /** A slot after a blow of `damage` on tick `now`. */
  function Hurt(slot: Slot, now: nat, damage: int): Slot {
    var p := slot.player;
    if damage == 0 then slot
    else if p.hp <= damage then
      slot.(player := p.(hp := 0, actionState := KO, actionStartedServerTick := now, actionTicksRemaining := 0))
    else
      slot.(player := p.(hp := p.hp - damage, actionState := Hit, actionStartedServerTick := now,
                         actionTicksRemaining := 1))
  }

  // ---------------------------------------------------------------- the server's tick is the scheduled one

  /** Which action a slot's commands start, wherever it stands in the queue. */
  lemma {:induction false} CommandsStartFirstDue(r: Ruleset, now: nat, slot: Slot, commands: seq<ActionCommand>)
    ensures var kind := if CanStartAction(slot) then FirstDue(slot, commands, now) else Unspecified;
            ProcessCommands(r, now, slot, commands)
            == Acknowledged(Perform(r, now, slot, kind),
                            LastSequence(slot.player.lastAckedActionSequence, commands))
    decreases |commands|
  {
    if commands != [] {
      var acknowledged := Acknowledged(slot, commands[0].sequence);
      var performed := Perform(r, now, acknowledged, commands[0].kind);
      PerformIgnoresAcknowledgement(r, now, slot, commands[0].sequence, commands[0].kind);
      CommandsStartFirstDue(r, now, performed, commands[1..]);
      if !CanStartAction(slot) || !Due(slot, commands[0].kind, now) {
        assert performed == acknowledged;
        SameClocksSameDue(slot, acknowledged, commands[1..], now);
        var kind := if CanStartAction(slot) then FirstDue(slot, commands[1..], now) else Unspecified;
        PerformIgnoresAcknowledgement(r, now, slot, commands[0].sequence, kind);
      } else {
        assert !CanStartAction(performed);
      }
    }
  }

  lemma {:induction false} SameClocksSameDue(slot: Slot, t: Slot, commands: seq<ActionCommand>, now: nat)
    requires t.nextDashTick == slot.nextDashTick && t.nextAttackTick == slot.nextAttackTick
    ensures FirstDue(t, commands, now) == FirstDue(slot, commands, now)
    decreases |commands|
  {
    if commands != [] {
      SameClocksSameDue(slot, t, commands[1..], now);
    }
  }

  /** The slot before its commands, by the clock. */
  function Stepped(r: Ruleset, now: nat, slot: Slot): Slot
    requires r.lightAttack.activeTicks != 0
  {
    var x, y := slot.input.moveX, slot.input.moveY;
    var p := slot.player.(lastAckedInputTick := slot.input.tick);
    if p.actionState == KO || p.hp <= 0 then slot.(player := p)
    else if !Free(r, p, now) then slot.(player := Walked(r, Ongoing(r, p.actionStartedServerTick, now, p), x, y))
    else Acting(r, now, slot, Walked(r, p.(facing := Turned(p.facing, x, y)), x, y), Unspecified, x != 0 || y != 0)
  }

  /** Counting a phase down is reading the clock. */
  lemma AdvancedByTheClock(r: Ruleset, now: nat, slot: Slot)
    requires r.lightAttack.activeTicks != 0 && now > 0 && OnTimeline(r, now - 1, slot.player)
    ensures var p, q := slot.player, AdvanceSlot(r, slot).player;
            && (p.actionState == KO ==> q == p)
            && (Free(r, p, now) ==> q == p.(actionState := q.actionState, actionStartedServerTick := 0,
                                            actionTicksRemaining := 0) && Locomoting(q.actionState))
            && (p.actionState != KO && !Free(r, p, now) ==> q == Ongoing(r, p.actionStartedServerTick, now, p))
            && AdvanceSlot(r, slot) == slot.(player := q)
  {
  }

  lemma SteppedByTheClock(r: Ruleset, now: nat, slot: Slot)
    requires r.lightAttack.activeTicks != 0 && now > 0 && Timely(r, now - 1, slot) && slot.player.hp > 0
    ensures Moved(r, slot) == Stepped(r, now, slot)
  {
    AdvancedByTheClock(r, now, slot);
  }

  lemma TickIsScheduled(r: Ruleset, now: nat, slot: Slot)
    requires r.lightAttack.activeTicks != 0 && now > 0 && Timely(r, now - 1, slot) && slot.player.hp > 0
    ensures TickSlot(r, now, slot) == Scheduled(r, now, slot)
  {
    SteppedByTheClock(r, now, slot);
    var stepped := Stepped(r, now, slot);
    CommandsStartFirstDue(r, now, stepped, slot.pending);
    SameClocksSameDue(slot, stepped, slot.pending, now);
    StartsAreCarriedOut(r, now, slot);
  }

  lemma StartsAreCarriedOut(r: Ruleset, now: nat, slot: Slot)
    requires r.lightAttack.activeTicks != 0 && now > 0 && slot.player.hp > 0
    ensures var stepped := Stepped(r, now, slot);
            var kind := if CanStartAction(stepped) then FirstDue(slot, slot.pending, now) else Unspecified;
            Carried(r, now, slot) == Perform(r, now, stepped, kind)
  {
    FirstDueIsDue(slot, slot.pending, now);
    if slot.player.actionState != KO && Free(r, slot.player, now) {
      var x, y := slot.input.moveX, slot.input.moveY;
      var p := slot.player.(lastAckedInputTick := slot.input.tick);
      var walked := Walked(r, p.(facing := Turned(p.facing, x, y)), x, y);
      FreePlayerStarts(r, now, slot, walked, FirstDue(slot, slot.pending, now), x != 0 || y != 0);
    }
  }

  lemma FreePlayerStarts(r: Ruleset, now: nat, slot: Slot, walked: PlayerState, kind: ActionType, moving: bool)
    requires r.lightAttack.activeTicks != 0 && now > 0 && walked.hp > 0
    requires kind == Unspecified || Due(slot, kind, now)
    ensures Perform(r, now, Acting(r, now, slot, walked, Unspecified, moving), kind)
         == Acting(r, now, slot, walked, kind, moving)
  {
  }

  lemma {:induction false} FirstDueIsDue(slot: Slot, commands: seq<ActionCommand>, now: nat)
    ensures var kind := FirstDue(slot, commands, now); kind == Unspecified || Due(slot, kind, now)
    decreases |commands|
  {
    if commands != [] {
      FirstDueIsDue(slot, commands[1..], now);
    }
  }

  lemma BlowsAreHurt(slot: Slot, now: nat, damage: int)
    requires damage >= 0
    ensures Struck(slot, now, damage) == Hurt(slot, now, damage)
  {
  }

  function BlowOn(r: Ruleset, attacker: Slot, target: Slot): (damage: int)
    ensures r.lightAttack.damage >= 0 ==> damage >= 0
  {
    if Lands(r, attacker.player, target.player) then r.lightAttack.damage else 0
  }

  lemma BlowsLandWhereFaced(r: Ruleset, now: nat, attacker: Slot, target: Slot)
    requires Timely(r, now, attacker)
    ensures Damage(r, attacker, target) == BlowOn(r, attacker, target)
  {
  }

  /** What holds of one player as long as the match is active. */
  ghost predicate InTheFight(r: Ruleset, now: nat, slot: Slot) {
    && r.lightAttack.activeTicks > 0 && r.lightAttack.damage >= 0
    && slot.player.hp > 0 && slot.player.actionState != KO && Timely(r, now, slot)
  }

  ghost predicate Fights(s: State) {
    s.status == MatchActive && InTheFight(s.rules, s.tick, s.a) && InTheFight(s.rules, s.tick, s.b)
  }

  /** What both players' slots come to on the next tick. */
  function OnSchedule(s: State, side: Side): Slot
    requires s.rules.lightAttack.activeTicks != 0
  {
    Scheduled(s.rules, s.tick + 1, SlotOf(s, side))
  }

  lemma SlotIsScheduled(s: State, side: Side)
    requires Fights(s)
    ensures TickSlot(s.rules, s.tick + 1, SlotOf(s, side)) == OnSchedule(s, side)
    ensures Timely(s.rules, s.tick + 1, OnSchedule(s, side))
  {
    TickIsScheduled(s.rules, s.tick + 1, SlotOf(s, side));
    TickIsTimely(s.rules, s.tick, SlotOf(s, side));
  }

  lemma FightIsScheduled(s: State, side: Side)
    requires Fights(s)
    ensures SlotOf(Step(s), side)
         == Hurt(OnSchedule(s, side), s.tick + 1, BlowOn(s.rules, OnSchedule(s, !side), OnSchedule(s, side)))
    ensures Step(s).tick == s.tick + 1 && Step(s).rules == s.rules
  {
    SlotIsScheduled(s, side);
    SlotIsScheduled(s, !side);
    var mine, theirs := OnSchedule(s, side), OnSchedule(s, !side);
    BlowsLandWhereFaced(s.rules, s.tick + 1, theirs, mine);
    BlowsAreHurt(mine, s.tick + 1, BlowOn(s.rules, theirs, mine));
    ActiveSlots(s, side, mine, theirs);
  }

  /** `t` is what a tick makes of a slot in the fight. */
  ghost predicate Becomes(r: Ruleset, now: nat, slot: Slot, t: Slot, damage: int) {
    now > 0 && InTheFight(r, now - 1, slot) && damage >= 0 && t == Hurt(Scheduled(r, now, slot), now, damage)
  }

  lemma SlotIsInTheFight(s: State, side: Side)
    requires Fights(s)
    ensures InTheFight(s.rules, s.tick, SlotOf(s, side))
  {
  }

  lemma NextSlot(s: State, side: Side, slot: Slot, t: Slot) returns (damage: int)
    requires Fights(s) && slot == SlotOf(s, side) && t == SlotOf(Step(s), side)
    ensures Becomes(s.rules, s.tick + 1, slot, t, damage)
  {
    SlotIsInTheFight(s, side);
    damage := BlowOn(s.rules, OnSchedule(s, !side), OnSchedule(s, side));
    FightIsScheduled(s, side);
  }

  // ---------------------------------------------------------------- who is down

  ghost predicate DownIfDead(slot: Slot) {
    slot.player.actionState == KO <==> slot.player.hp == 0
  }

  lemma BlowPutsDown(r: Ruleset, now: nat, slot: Slot, t: Slot, damage: int)
    requires Becomes(r, now, slot, t, damage)
    ensures DownIfDead(t)
  {
    FirstDueIsDue(slot, slot.pending, now);
  }

  /** The two invariants of a room, and who is down in it. */
  ghost predicate InShape(s: State) {
    Consistent(s) && TimelyState(s) && DownIfDead(s.a) && DownIfDead(s.b)
  }

  lemma FightIsOn(s: State)
    requires InShape(s) && s.status == MatchActive
    ensures Fights(s)
  {
  }

  lemma FightPutsDown(s: State)
    requires Fights(s)
    ensures DownIfDead(Step(s).a) && DownIfDead(Step(s).b)
  {
    var onA := NextSlot(s, true, s.a, Step(s).a);
    var onB := NextSlot(s, false, s.b, Step(s).b);
    BlowPutsDown(s.rules, s.tick + 1, s.a, Step(s).a, onA);
    BlowPutsDown(s.rules, s.tick + 1, s.b, Step(s).b, onB);
  }

  lemma CountdownPutsNobodyDown(s: State)
    requires DownIfDead(s.a) && DownIfDead(s.b) && s.status != MatchActive
    ensures DownIfDead(Step(s).a) && DownIfDead(Step(s).b)
  {
  }

  lemma ShapeIsKept(s: State, e: Event)
    requires InShape(s)
    ensures InShape(Apply(s, e))
  {
    ConsistentIsKept(s, e);
    TimelyIsKept(s, e);
    match e
    case Deliver(id, input) => SubmitPreservesAllButQueues(s, id, input);
    case Tick =>
      if s.status == MatchActive {
        FightIsOn(s);
        FightPutsDown(s);
      } else {
        CountdownPutsNobodyDown(s);
      }
  }

  lemma {:induction false} RunsStayInShape(s: State, events: seq<Event>)
    requires InShape(s)
    ensures InShape(Run(s, events))
    decreases |events|
  {
    if events != [] {
      var before := events[..|events| - 1];
      RunsStayInShape(s, before);
      ShapeIsKept(Run(s, before), events[|events| - 1]);
    }
  }

  lemma NewRoomIsInShape(a: string, b: string, r: Ruleset)
    requires a != "" && b != "" && a != b && Accepted(r)
    ensures InShape(NewState(a, b, r))
  {
  }

  lemma ReachableIsInShape(s: State)
    requires Reachable(s)
    ensures InShape(s)
  {
    var a, b, r, events :| ReachedBy(s, a, b, r, events);
    NewRoomIsInShape(a, b, r);
    RunsStayInShape(NewState(a, b, r), events);
  }

  lemma ReachableFights(s: State)
    requires Reachable(s) && s.status == MatchActive
    ensures Fights(s) && Accepted(s.rules)
  {
    ReachableIsInShape(s);
    FightIsOn(s);
  }

  /** In every reachable state a player is down exactly if it has no HP left. */
  lemma DownIffDead(s: State, side: Side)
    requires Reachable(s)
    ensures SlotOf(s, side).player.actionState == KO <==> SlotOf(s, side).player.hp == 0
  {
    ReachableIsInShape(s);
  }

  /**
   In every reachable state of an active match, the next tick is the scheduled one for both players, with the blows
   exchanged at its end.
   */
  lemma TicksFollowTheSchedule(s: State, side: Side)
    requires Reachable(s) && s.status == MatchActive
    ensures s.rules.lightAttack.activeTicks != 0
    ensures SlotOf(Step(s), side)
         == Hurt(OnSchedule(s, side), s.tick + 1, BlowOn(s.rules, OnSchedule(s, !side), OnSchedule(s, side)))
  {
    ReachableFights(s);
    FightIsScheduled(s, side);
  }

  // ---------------------------------------------------------------- what is published on a tick

  function PlayerOf(s: State, side: Side): PlayerState {
    SlotOf(s, side).player
  }

  lemma InputIsCarriedOut(r: Ruleset, now: nat, slot: Slot, t: Slot, damage: int)
    requires Becomes(r, now, slot, t, damage)
    ensures var p, q, held := slot.player, t.player, slot.input;
            && q.lastAckedInputTick == held.tick
            && q.facing == (if Free(r, p, now) then Turned(p.facing, held.moveX, held.moveY) else p.facing)
            && (q.actionState != Dashing && q.hp == p.hp ==>
                  && q.positionX == Walked(r, p, held.moveX, held.moveY).positionX
                  && q.positionY == Walked(r, p, held.moveX, held.moveY).positionY)
  {
    FirstDueIsDue(slot, slot.pending, now);
  }

  /** What a tick without a blow starts, and which cooldown it starts with it. */
  ghost predicate Effect(r: Ruleset, now: nat, slot: Slot, t: Slot) {
    var p, q := slot.player, t.player;
    var kind := if Free(r, p, now) then FirstDue(slot, slot.pending, now) else Unspecified;
    && (kind == LightAttack <==> Attacking(q.actionState) && q.actionStartedServerTick == now)
    && (kind == Dash <==> q.actionState == Dashing)
    && (Free(r, p, now) && kind == Unspecified ==> Locomoting(q.actionState))
    && t.nextAttackTick == (if kind == LightAttack then now + r.lightAttack.cooldownTicks else slot.nextAttackTick)
    && t.nextDashTick == (if kind == Dash then now + r.dash.cooldownTicks else slot.nextDashTick)
  }

  lemma CommandTakesEffect(r: Ruleset, now: nat, slot: Slot, t: Slot, damage: int)
    requires Becomes(r, now, slot, t, damage) && t.player.hp == slot.player.hp
    ensures Effect(r, now, slot, t)
  {
    FirstDueIsDue(slot, slot.pending, now);
  }

  /**
   The player faces the held direction if it is free and keeps its facing otherwise; it acknowledges the held input; and
   it has walked one step in the held direction, up to the wall, and dashed if it has started a dash.
   */
  lemma HeldInputIsCarriedOut(s: State, side: Side)
    requires Reachable(s) && s.status == MatchActive
    ensures var p, q, held := PlayerOf(s, side), PlayerOf(Step(s), side), SlotOf(s, side).input;
            && q.lastAckedInputTick == held.tick
            && q.facing == (if Free(s.rules, p, s.tick + 1) then Turned(p.facing, held.moveX, held.moveY) else p.facing)
            && (q.actionState != Dashing && q.hp == p.hp ==>
                  && q.positionX == Walked(s.rules, p, held.moveX, held.moveY).positionX
                  && q.positionY == Walked(s.rules, p, held.moveX, held.moveY).positionY)
  {
    ReachableFights(s);
    InputOfFight(s, side);
  }

  lemma InputOfFight(s: State, side: Side)
    requires Fights(s)
    ensures var p, q, held := PlayerOf(s, side), PlayerOf(Step(s), side), SlotOf(s, side).input;
            && q.lastAckedInputTick == held.tick
            && q.facing == (if Free(s.rules, p, s.tick + 1) then Turned(p.facing, held.moveX, held.moveY) else p.facing)
            && (q.actionState != Dashing && q.hp == p.hp ==>
                  && q.positionX == Walked(s.rules, p, held.moveX, held.moveY).positionX
                  && q.positionY == Walked(s.rules, p, held.moveX, held.moveY).positionY)
  {
    var damage := NextSlot(s, side, SlotOf(s, side), SlotOf(Step(s), side));
    InputIsCarriedOut(s.rules, s.tick + 1, SlotOf(s, side), SlotOf(Step(s), side), damage);
  }

  /** A player that is not struck starts exactly the first command whose cooldown is over, if it is free to. */
  lemma CommandsTakeEffect(s: State, side: Side)
    requires Reachable(s) && s.status == MatchActive && PlayerOf(Step(s), side).hp == PlayerOf(s, side).hp
    ensures Effect(s.rules, s.tick + 1, SlotOf(s, side), SlotOf(Step(s), side))
  {
    ReachableFights(s);
    CommandOfFight(s, side);
  }

  lemma CommandOfFight(s: State, side: Side)
    requires Fights(s) && PlayerOf(Step(s), side).hp == PlayerOf(s, side).hp
    ensures Effect(s.rules, s.tick + 1, SlotOf(s, side), SlotOf(Step(s), side))
  {
    var damage := NextSlot(s, side, SlotOf(s, side), SlotOf(Step(s), side));
    CommandTakesEffect(s.rules, s.tick + 1, SlotOf(s, side), SlotOf(Step(s), side), damage);
  }

  // ---------------------------------------------------------------- attacks run their course

  /** Where the attack of `p` started on `start` is on tick `now`; once over it may have been followed by others. */
  ghost predicate OnCourse(r: Ruleset, start: nat, now: nat, p: PlayerState) {
    && (now < OverFrom(r, start) ==> p == Ongoing(r, start, now, p))
    && (now >= OverFrom(r, start) ==>
          Locomoting(p.actionState) || p.actionStartedServerTick >= OverFrom(r, start))
  }

  /** From one tick to the next without a blow: what was going on goes on, or is over and something new may begin. */
  ghost predicate Follows(r: Ruleset, now: nat, p: PlayerState, q: PlayerState) {
    if !Free(r, p, now) && p.actionState != KO then q == Ongoing(r, p.actionStartedServerTick, now, q)
    else Locomoting(q.actionState) || q.actionStartedServerTick == now
  }

  lemma SlotFollows(r: Ruleset, now: nat, slot: Slot, t: Slot, damage: int)
    requires Becomes(r, now, slot, t, damage) && t.player.hp == slot.player.hp
    ensures Follows(r, now, slot.player, t.player)
  {
    FirstDueIsDue(slot, slot.pending, now);
  }

  lemma StepFollows(s: State, side: Side)
    requires Fights(s) && PlayerOf(Step(s), side).hp == PlayerOf(s, side).hp
    ensures Follows(s.rules, s.tick + 1, PlayerOf(s, side), PlayerOf(Step(s), side))
  {
    var damage := NextSlot(s, side, SlotOf(s, side), SlotOf(Step(s), side));
    SlotFollows(s.rules, s.tick + 1, SlotOf(s, side), SlotOf(Step(s), side), damage);
  }

  lemma CourseFollows(r: Ruleset, start: nat, now: nat, p: PlayerState, q: PlayerState)
    requires r.lightAttack.activeTicks > 0 && p.actionState != KO && Follows(r, now, p, q)
    requires 0 < start < now && OnCourse(r, start, now - 1, p)
    ensures OnCourse(r, start, now, q)
  {
  }

  lemma StepHP(s: State, side: Side)
    requires Consistent(s)
    ensures PlayerOf(Step(s), side).hp <= PlayerOf(s, side).hp && Step(s).tick >= s.tick && Step(s).rules == s.rules
    ensures s.status != MatchCountdown ==>
              Step(s).status != MatchCountdown && (Step(s).status == MatchActive ==> s.status == MatchActive)
    ensures s.status == MatchActive ==> Step(s).tick == s.tick + 1
  {
    if s.status == MatchActive {
      FoughtFrame(s);
    }
  }

  /** HP never comes back, time never runs back, and a match that is still active has been so all along. */
  ghost predicate OnlyForward(s: State, t: State, side: Side) {
    && PlayerOf(t, side).hp <= PlayerOf(s, side).hp && t.tick >= s.tick && t.rules == s.rules
    && t.status != MatchCountdown && (t.status == MatchActive ==> s.status == MatchActive)
  }

  lemma EventGoesForward(s: State, e: Event, side: Side)
    requires Consistent(s) && s.status != MatchCountdown
    ensures OnlyForward(s, Apply(s, e), side)
    ensures e.Deliver? ==> PlayerOf(Apply(s, e), side) == PlayerOf(s, side) && Apply(s, e).tick == s.tick
  {
    match e
    case Deliver(id, input) => SubmitPreservesAllButQueues(s, id, input);
    case Tick => StepHP(s, side);
  }

  lemma {:induction false} RunsGoForward(s: State, events: seq<Event>, side: Side)
    requires Consistent(s) && s.status != MatchCountdown
    ensures OnlyForward(s, Run(s, events), side)
    decreases |events|
  {
    if events != [] {
      var before := events[..|events| - 1];
      RunsAreConsistent(s, before);
      RunsGoForward(s, before, side);
      EventGoesForward(Run(s, before), events[|events| - 1], side);
    }
  }

  /** The attack started on `start` is on course in `s`. */
  ghost predicate StillOnCourse(s: State, side: Side, start: nat) {
    0 < start <= s.tick && OnCourse(s.rules, start, s.tick, PlayerOf(s, side))
  }

  lemma TickKeepsCourse(s: State, side: Side, start: nat)
    requires Fights(s) && StillOnCourse(s, side, start) && PlayerOf(Step(s), side).hp == PlayerOf(s, side).hp
    ensures StillOnCourse(Step(s), side, start)
  {
    StepFollows(s, side);
    StepClock(s);
    CourseOfNext(s, Step(s), side, start);
  }

  lemma StepClock(s: State)
    requires s.status == MatchActive
    ensures Step(s).tick == s.tick + 1 && Step(s).rules == s.rules
  {
  }

  lemma CourseOfNext(s: State, t: State, side: Side, start: nat)
    requires s.rules.lightAttack.activeTicks > 0 && PlayerOf(s, side).actionState != KO
    requires StillOnCourse(s, side, start) && t.tick == s.tick + 1 && t.rules == s.rules
    requires Follows(s.rules, s.tick + 1, PlayerOf(s, side), PlayerOf(t, side))
    ensures StillOnCourse(t, side, start)
  {
    CourseFollows(s.rules, start, s.tick + 1, PlayerOf(s, side), PlayerOf(t, side));
  }

  lemma EventKeepsCourse(s: State, e: Event, side: Side, start: nat)
    requires InShape(s) && s.status == MatchActive && StillOnCourse(s, side, start)
    requires PlayerOf(Apply(s, e), side).hp == PlayerOf(s, side).hp
    ensures StillOnCourse(Apply(s, e), side, start)
  {
    match e
    case Deliver(id, input) => SubmitPreservesAllButQueues(s, id, input);
    case Tick =>
      FightIsOn(s);
      TickKeepsCourse(s, side, start);
  }

  lemma {:induction false} CourseOverRuns(s: State, events: seq<Event>, side: Side, start: nat)
    requires InShape(s) && s.status == MatchActive && StillOnCourse(s, side, start)
    requires Run(s, events).status == MatchActive && PlayerOf(Run(s, events), side).hp == PlayerOf(s, side).hp
    ensures StillOnCourse(Run(s, events), side, start)
    decreases |events|
  {
    if events != [] {
      var before, last := events[..|events| - 1], events[|events| - 1];
      RunsStayInShape(s, before);
      RunsGoForward(s, before, side);
      EventGoesForward(Run(s, before), last, side);
      CourseOverRuns(s, before, side, start);
      EventKeepsCourse(Run(s, before), last, side, start);
    }
  }

  lemma AttackIsOnCourse(s: State, side: Side)
    requires InShape(s) && Attacking(PlayerOf(s, side).actionState)
    ensures StillOnCourse(s, side, PlayerOf(s, side).actionStartedServerTick)
  {
  }

  /**
   Over any stretch of any run of an active match in which the player is not struck: an attack started on tick `start`
   is winding up, hitting and recovering on exactly the ticks it should, and over from then on.
   */
  lemma AttacksRunTheirCourse(s: State, events: seq<Event>, side: Side)
    requires Reachable(s) && s.status == MatchActive && Attacking(PlayerOf(s, side).actionState)
    requires Run(s, events).status == MatchActive && PlayerOf(Run(s, events), side).hp == PlayerOf(s, side).hp
    ensures var r, start, t := s.rules, PlayerOf(s, side).actionStartedServerTick, Run(s, events);
            var n, q := t.tick, PlayerOf(t, side);
            && (n < ActiveFrom(r, start) <==> q.actionState == Windup && q.actionStartedServerTick == start)
            && (ActiveFrom(r, start) <= n < ActiveUntil(r, start)
                <==> q.actionState == Active && q.actionStartedServerTick == start)
            && (ActiveUntil(r, start) <= n < OverFrom(r, start)
                <==> q.actionState == Recovery && q.actionStartedServerTick == start)
            && (OverFrom(r, start) <= n ==>
                  Locomoting(q.actionState) || q.actionStartedServerTick >= OverFrom(r, start))
  {
    ReachableIsInShape(s);
    AttackIsOnCourse(s, side);
    var start := PlayerOf(s, side).actionStartedServerTick;
    CourseOverRuns(s, events, side, start);
    RunsGoForward(s, events, side);
    ClockOfCourse(s.rules, start, Run(s, events).tick, PlayerOf(Run(s, events), side));
  }

  /** On course means in the phase of the tick, and in no other. */
  lemma ClockOfCourse(r: Ruleset, start: nat, n: nat, q: PlayerState)
    requires r.lightAttack.activeTicks != 0 && 0 < start <= n && OnCourse(r, start, n, q)
    ensures n < ActiveFrom(r, start) <==> q.actionState == Windup && q.actionStartedServerTick == start
    ensures ActiveFrom(r, start) <= n < ActiveUntil(r, start)
       <==> q.actionState == Active && q.actionStartedServerTick == start
    ensures ActiveUntil(r, start) <= n < OverFrom(r, start)
       <==> q.actionState == Recovery && q.actionStartedServerTick == start
  {
  }

  // ---------------------------------------------------------------- attacks take HP

  /** On tick `now` an attack of the player hits: one under way by the clock, or one that starts without a windup. */
  predicate Hits(r: Ruleset, slot: Slot, now: nat) {
    var p := slot.player;
    if Free(r, p, now) then
      && r.lightAttack.windupTicks == 0 && r.lightAttack.activeTicks > 0
      && FirstDue(slot, slot.pending, now) == LightAttack
    else
      p.actionState != KO
      && ActiveFrom(r, p.actionStartedServerTick) <= now < ActiveUntil(r, p.actionStartedServerTick)
  }

  lemma ScheduledHits(r: Ruleset, now: nat, slot: Slot)
    requires r.lightAttack.activeTicks != 0 && slot.player.hp > 0
    ensures Scheduled(r, now, slot).player.actionState == Active <==> Hits(r, slot, now)
  {
    FirstDueIsDue(slot, slot.pending, now);
  }

  /**
   On every tick of every run, a player loses HP exactly if the opponent's attack is in its active phase and touches
   it, where both stand at the end of the tick, even if the opponent is struck on that tick as well.
   */
  lemma AttacksTakeHP(s: State, attacker: Side)
    requires Reachable(s) && s.status == MatchActive && SizesMakeSense(s.rules)
    ensures var mine, theirs := PlayerOf(Step(s), attacker), PlayerOf(Step(s), !attacker);
            var hp, damage := PlayerOf(s, !attacker).hp, s.rules.lightAttack.damage;
            theirs.hp
            == if Hits(s.rules, SlotOf(s, attacker), s.tick + 1) && Touches(s.rules, mine, theirs, mine.facing)
               then (if hp > damage then hp - damage else 0) else hp
  {
    ReachableFights(s);
    BlowOfFight(s, attacker);
  }

  lemma BlowOfFight(s: State, attacker: Side)
    requires Fights(s) && SizesMakeSense(s.rules)
    ensures var mine, theirs := PlayerOf(Step(s), attacker), PlayerOf(Step(s), !attacker);
            var hp, damage := PlayerOf(s, !attacker).hp, s.rules.lightAttack.damage;
            theirs.hp
            == if Hits(s.rules, SlotOf(s, attacker), s.tick + 1) && Touches(s.rules, mine, theirs, mine.facing)
               then (if hp > damage then hp - damage else 0) else hp
  {
    var mine, theirs := Fighters(s, attacker);
    BlowTakesHP(s.rules, s.tick + 1, mine, theirs, BlowOn(s.rules, theirs, mine), BlowOn(s.rules, mine, theirs));
  }

  lemma FighterIsScheduled(r: Ruleset, now: nat, slot: Slot, t: Slot)
    requires now > 0 && InTheFight(r, now - 1, slot) && t == TickSlot(r, now, slot)
    ensures t.player.actionState == Active <==> Hits(r, slot, now)
    ensures t.player.hp == slot.player.hp && Timely(r, now, t)
  {
    TickIsScheduled(r, now, slot);
    TickIsTimely(r, now - 1, slot);
    TickSlotFrame(r, now, slot);
    ScheduledHits(r, now, slot);
  }

  lemma ExchangeIsHurt(r: Ruleset, now: nat, mine: Slot, theirs: Slot)
    requires Timely(r, now, mine) && r.lightAttack.damage >= 0
    ensures Struck(theirs, now, Damage(r, mine, theirs)) == Hurt(theirs, now, BlowOn(r, mine, theirs))
  {
    BlowsLandWhereFaced(r, now, mine, theirs);
    BlowsAreHurt(theirs, now, BlowOn(r, mine, theirs));
  }

  /** The two slots of a tick before the blows: what the attacker is doing, and what the target has left. */
  lemma Fighters(s: State, attacker: Side) returns (mine: Slot, theirs: Slot)
    requires Fights(s)
    ensures SlotOf(Step(s), attacker) == Hurt(mine, s.tick + 1, BlowOn(s.rules, theirs, mine))
    ensures SlotOf(Step(s), !attacker) == Hurt(theirs, s.tick + 1, BlowOn(s.rules, mine, theirs))
    ensures mine.player.actionState == Active <==> Hits(s.rules, SlotOf(s, attacker), s.tick + 1)
    ensures theirs.player.hp == PlayerOf(s, !attacker).hp > 0 && Cardinal(mine.player.facing)
    ensures s.rules.lightAttack.damage >= 0
  {
    var r, now := s.rules, s.tick + 1;
    mine, theirs := TickSlot(r, now, SlotOf(s, attacker)), TickSlot(r, now, SlotOf(s, !attacker));
    SlotIsInTheFight(s, attacker);
    SlotIsInTheFight(s, !attacker);
    FighterIsScheduled(r, now, SlotOf(s, attacker), mine);
    FighterIsScheduled(r, now, SlotOf(s, !attacker), theirs);
    ActiveSlots(s, attacker, mine, theirs);
    ExchangeIsHurt(r, now, theirs, mine);
    ExchangeIsHurt(r, now, mine, theirs);
  }

  lemma BlowTakesHP(r: Ruleset, now: nat, mine: Slot, theirs: Slot, taken: int, dealt: int)
    requires r.lightAttack.damage >= 0 && SizesMakeSense(r) && Cardinal(mine.player.facing) && theirs.player.hp > 0
    requires dealt == BlowOn(r, mine, theirs)
    ensures var p, q := Hurt(mine, now, taken).player, Hurt(theirs, now, dealt).player;
            var hp, damage := theirs.player.hp, r.lightAttack.damage;
            q.hp == if mine.player.actionState == Active && Touches(r, p, q, p.facing)
                    then (if hp > damage then hp - damage else 0) else hp
  {
    HurtStaysInPlace(mine, now, taken);
    HurtStaysInPlace(theirs, now, dealt);
    SameTouch(r, mine.player, theirs.player, Hurt(mine, now, taken).player, Hurt(theirs, now, dealt).player);
    HitIsTouch(r, mine.player, theirs.player);
  }

  lemma HurtStaysInPlace(slot: Slot, now: nat, damage: int)
    ensures var p, q := slot.player, Hurt(slot, now, damage).player;
            q.positionX == p.positionX && q.positionY == p.positionY && q.facing == p.facing
  {
  }

  lemma SameTouch(r: Ruleset, p: PlayerState, q: PlayerState, p': PlayerState, q': PlayerState)
    requires p'.positionX == p.positionX && p'.positionY == p.positionY && p'.facing == p.facing
    requires q'.positionX == q.positionX && q'.positionY == q.positionY
    ensures Touches(r, p', q', p'.facing) <==> Touches(r, p, q, p.facing)
  {
    if Touches(r, p', q', p'.facing) {
      var x, y :| InReach(r, p', p'.facing, x, y) && InBody(r, q', x, y);
      assert InReach(r, p, p.facing, x, y) && InBody(r, q, x, y);
    }
    if Touches(r, p, q, p.facing) {
      var x, y :| InReach(r, p, p.facing, x, y) && InBody(r, q, x, y);
      assert InReach(r, p', p'.facing, x, y) && InBody(r, q', x, y);
    }
  }

  lemma HitIsTouch(r: Ruleset, attacker: PlayerState, target: PlayerState)
    requires SizesMakeSense(r) && Cardinal(attacker.facing)
    ensures HitboxIntersects(attacker, target, attacker.facing, r) <==> Touches(r, attacker, target, attacker.facing)
  {
    if Touches(r, attacker, target, attacker.facing) {
      ContactIsAHit(r, attacker, target, attacker.facing);
    } else if HitboxIntersects(attacker, target, attacker.facing, r) {
      AHitIsContact(r, attacker, target, attacker.facing);
    }
  }
}
