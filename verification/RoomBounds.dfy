/**
 The two bounds over all runs, on the server with its 32 bits. Each holds as soon as the sums it turns on do not wrap:
 the knockout bound needs room for the attack cooldown only, the movement bound for a step, a dash and its cooldown. And
 each fails, in a run of an accepted ruleset, when they do.
 */
module RoomBounds {
  import opened RoomModel
  import opened RoomSlots
  import opened RoomLifecycle
  import opened RoomTimeline
  import opened RoomMovement
  import opened RoomHitbox
  import opened RoomKnockout
  import opened RoomWrapped
  import opened RoomWidths

  // ---------------------------------------------------------------- knockouts

  /** Attacks started on any tick of a match are over, or on cooldown, by clocks that do not wrap. */
  predicate AttacksFit(r: Ruleset) {
    LastTick(r) + r.lightAttack.cooldownTicks < U32_LIMIT
  }

  lemma ChargedElsewhere(r: Ruleset, now: nat, slot: Slot, t: Slot, lost: int, started: nat, landed: nat, due: int)
    requires Charged(r, now, slot, lost, started, landed, due)
    requires OnlyElsewhere(slot, t) && t.nextAttackTick == slot.nextAttackTick
    ensures Charged(r, now, t, lost, started, landed, due)
  {
  }

  lemma MovedIsCharged32(r: Ruleset, now: nat, slot: Slot, lost: int, started: nat, landed: nat)
    requires Accepted(r) && Timely(r, now, slot) && Charged(r, now, slot, lost, started, landed, 1)
    ensures Charged(r, now + 1, Moved32(r, slot), lost, started, landed, 0)
  {
    MovedIsCharged(r, now, slot, lost, started, landed);
    MoveIsElsewhere(r, AdvanceSlot(r, slot));
    MoveKeepsAttack(r, AdvanceSlot(r, slot));
    ChargedElsewhere(r, now + 1, Moved(r, slot), Moved32(r, slot), lost, started, landed, 0);
  }

  lemma PerformIsCharged32(r: Ruleset, now: nat, slot: Slot, lost: int, started: nat, landed: nat, kind: ActionType)
    returns (startedNow: nat)
    requires Accepted(r) && AttacksFit(r) && now <= LastTick(r) && Charged(r, now, slot, lost, started, landed, 0)
    ensures Charged(r, now, Perform32(r, now, slot, kind), lost, startedNow, landed, 0)
  {
    startedNow := PerformIsCharged(r, now, slot, lost, started, landed, kind);
    PerformIsElsewhere(r, now, slot, kind);
    ChargedElsewhere(r, now, Perform(r, now, slot, kind), Perform32(r, now, slot, kind), lost, startedNow, landed, 0);
  }

  lemma SettledIsCharged32(r: Ruleset, now: nat, moved: Slot, kind: ActionType, ack: U32, t: Slot, lost: int,
                           started: nat, landed: nat)
    returns (startedNow: nat)
    requires Accepted(r) && AttacksFit(r) && now <= LastTick(r) && Charged(r, now, moved, lost, started, landed, 0)
    requires t == Settled32(r, now, moved, kind, ack)
    ensures Charged(r, now, t, lost, startedNow, landed, 0)
  {
    startedNow := PerformIsCharged32(r, now, moved, lost, started, landed, kind);
  }

  lemma TickIsCharged32(r: Ruleset, now: nat, slot: Slot, ticked: Slot, lost: int, started: nat, landed: nat)
    returns (startedNow: nat)
    requires Accepted(r) && AttacksFit(r) && now < LastTick(r) && ticked == TickSlot32(r, now + 1, slot)
    requires Timely(r, now, slot) && Charged(r, now, slot, lost, started, landed, 1)
    ensures Charged(r, now + 1, ticked, lost, startedNow, landed, 0)
  {
    MovedIsCharged32(r, now, slot, lost, started, landed);
    var moved, kind, ack := TickIsSettled32(r, now + 1, slot);
    startedNow := SettledIsCharged32(r, now + 1, moved, kind, ack, ticked, lost, started, landed);
  }

  /** The exchange of blows at the end of a tick, for the account of one of the two. */
  lemma ExchangeIsCharged32(s: State, t: State, attacker: Side, mine: Slot, theirs: Slot, taken: int, dealt: int,
                            started: nat, landed: nat)
    returns (now: Account)
    requires Accepted(s.rules) && Exchanged32(s, t, attacker, mine, theirs, taken, dealt)
    requires OnTimeline(s.rules, s.tick + 1, mine.player) && theirs.player.hp >= 0
    requires Charged(s.rules, s.tick + 1, mine, s.rules.initialHP - theirs.player.hp, started, landed, 0)
    ensures Balanced(t, attacker, now)
  {
    var r, tick := s.rules, s.tick + 1;
    var lost := r.initialHP - theirs.player.hp;
    var more := r.initialHP - Struck(theirs, tick, dealt).player.hp;
    LossIsTheBlow(r, theirs, tick, dealt, lost, more);
    var landedNow := BlowIsCharged(r, tick, mine, lost, more, started, landed);
    StruckIsCharged(r, tick, mine, more, taken, started, landedNow);
    now := Account(started, landedNow);
    SettlesTheAccount(t, attacker, SlotOf(t, attacker), SlotOf(t, !attacker), now);
  }

  lemma TickedSlotsAreBalanced32(s: State, t: State, attacker: Side, mine: Slot, theirs: Slot, taken: int, dealt: int,
                                 account: Account)
    returns (now: Account)
    requires Accepted(s.rules) && AttacksFit(s.rules) && s.tick < LastTick(s.rules)
    requires Timely(s.rules, s.tick, SlotOf(s, attacker)) && SlotOf(s, !attacker).player.hp >= 0
    requires Charged(s.rules, s.tick, SlotOf(s, attacker), Lost(s, !attacker), account.started, account.landed, 1)
    requires mine == TickSlot32(s.rules, s.tick + 1, SlotOf(s, attacker))
    requires theirs == TickSlot32(s.rules, s.tick + 1, SlotOf(s, !attacker))
    requires Exchanged32(s, t, attacker, mine, theirs, taken, dealt)
    ensures Balanced(t, attacker, now)
  {
    var started := TickIsCharged32(s.rules, s.tick, SlotOf(s, attacker), mine, Lost(s, !attacker), account.started,
                                   account.landed);
    TickIsTimely32(s.rules, s.tick, SlotOf(s, attacker), mine);
    TickSlotFrame32(s.rules, s.tick + 1, SlotOf(s, !attacker));
    now := ExchangeIsCharged32(s, t, attacker, mine, theirs, taken, dealt, started, account.landed);
  }

  lemma ActiveStepIsBalanced32(s: State, attacker: Side, account: Account) returns (now: Account)
    requires Consistent(s) && TimelyState(s) && AttacksFit(s.rules) && s.status == MatchActive
    requires Balanced(s, attacker, account)
    ensures Balanced(Step32(s), attacker, now)
  {
    ClockFits(s);
    var mine, theirs, taken, dealt := ActiveSide32(s, attacker);
    now := TickedSlotsAreBalanced32(s, Step32(s), attacker, mine, theirs, taken, dealt, account);
  }

  lemma EventIsBalanced32(s: State, e: Event, attacker: Side, account: Account) returns (now: Account)
    requires Consistent(s) && TimelyState(s) && AttacksFit(s.rules) && Balanced(s, attacker, account)
    ensures Balanced(Apply32(s, e), attacker, now)
  {
    now := account;
    match e {
      case Deliver(id, input) => SubmitIsBalanced(s, id, input, attacker, account);
      case Tick =>
        if s.status == MatchActive {
          now := ActiveStepIsBalanced32(s, attacker, account);
        } else if s.status == MatchCountdown {
          OpeningAgrees(s);
          OpeningIsBalanced(s, attacker);
        }
    }
  }

  lemma {:induction false} RunsAreBalanced32(s: State, events: seq<Event>, attacker: Side) returns (account: Account)
    requires Consistent(s) && TimelyState(s) && AttacksFit(s.rules) && s.status == MatchCountdown
    ensures Balanced(Run32(s, events), attacker, account)
    decreases |events|
  {
    if events == [] {
      account := Account(0, 0);
    } else {
      var before := events[..|events| - 1];
      account := RunsAreBalanced32(s, before, attacker);
      RunsAreSound32(s, before);
      account := EventIsBalanced32(Run32(s, before), events[|events| - 1], attacker, account);
    }
  }

  lemma KnockoutIsCharged(s: State, attacker: Side, account: Account)
    requires Consistent(s) && Balanced(s, attacker, account) && SlotOf(s, !attacker).player.hp == 0
    ensures s.rules.initialHP <= AttackWorth(s.rules) * account.landed
    ensures account.landed > 0 ==> s.tick >= EarliestLanding(s.rules, account.landed)
  {
  }

  /**
   On the 32-bit server, for every accepted ruleset whose attack cooldown fits the clock: whatever both players send,
   nobody is knocked out before the attacks it takes can have landed.
   */
  lemma NoEarlyKnockout32(a: string, b: string, r: Ruleset, events: seq<Event>)
    requires a != "" && b != "" && a != b && Accepted(r) && r.lightAttack.damage > 0 && AttacksFit(r)
    requires KnockedOut(Run32(NewState(a, b, r), events))
    ensures AttackWorth(r) > 0
    ensures Run32(NewState(a, b, r), events).tick >= EarliestLanding(r, AttacksNeeded(r))
  {
    var start, s := NewState(a, b, r), Run32(NewState(a, b, r), events);
    NewRoomIsSound(a, b, r);
    RunsAreSound32(start, events);
    var attacker := s.b.player.hp == 0;
    var account := RunsAreBalanced32(start, events, attacker);
    KnockoutIsCharged(s, attacker, account);
    KnockoutIsPaidFor(r, s.tick, account.landed);
  }

  // ---------------------------------------------------------------- movement

  /** A step, a dash and its cooldown stay inside the ranges. */
  predicate MovesFit(r: Ruleset) {
    && Spare(r, r.movementPerTick) && Spare(r, Abs(r.dash.dashDistance))
    && LastTick(r) + r.dash.cooldownTicks < U32_LIMIT
  }

  lemma PerformStaysClose32(r: Ruleset, tick: nat, slot: Slot, kind: ActionType)
    requires Accepted(r) && MovesFit(r) && tick <= LastTick(r) && At(r, slot) && Cardinal(slot.player.facing)
    ensures var t := Perform32(r, tick, slot, kind);
            && At(r, t)
            && (|| (t.nextDashTick == slot.nextDashTick && Within(slot, t, 0))
                || (slot.nextDashTick <= tick && t.nextDashTick == tick + r.dash.cooldownTicks
                    && Within(slot, t, Reach(r))))
  {
    PerformStaysClose(r, tick, slot, kind);
    DashAgrees(r, tick, slot);
  }

  /** `t` is a step, or a step and a dash that was due, away from `slot`. */
  ghost predicate OneTickAway(r: Ruleset, now: nat, slot: Slot, t: Slot) {
    && At(r, t)
    && (|| (t.nextDashTick == slot.nextDashTick && Within(slot, t, r.movementPerTick))
        || (slot.nextDashTick <= now + 1 && t.nextDashTick == now + 1 + r.dash.cooldownTicks
            && Within(slot, t, r.movementPerTick + Reach(r))))
  }

  lemma SettledStaysClose32(r: Ruleset, now: nat, slot: Slot, moved: Slot, kind: ActionType, ack: U32, t: Slot)
    requires Accepted(r) && MovesFit(r) && now < LastTick(r) && At(r, moved) && Cardinal(moved.player.facing)
    requires Within(slot, moved, r.movementPerTick) && moved.nextDashTick == slot.nextDashTick
    requires t == Settled32(r, now + 1, moved, kind, ack)
    ensures OneTickAway(r, now, slot, t)
  {
    PerformStaysClose32(r, now + 1, moved, kind);
  }

  lemma MovedStaysClose32(r: Ruleset, now: nat, slot: Slot)
    requires Accepted(r) && MovesFit(r) && At(r, slot) && Timely(r, now, slot)
    ensures var m := Moved32(r, slot);
            && At(r, m) && Cardinal(m.player.facing) && Within(slot, m, r.movementPerTick)
            && m.nextDashTick == slot.nextDashTick
  {
    AdvancedStays(r, slot);
    MoveAgrees(r, AdvanceSlot(r, slot));
    MovedIsTimely(r, now, slot);
    MovedStaysClose(r, slot);
  }

  lemma TickStaysClose32(r: Ruleset, now: nat, slot: Slot, ticked: Slot)
    requires Accepted(r) && MovesFit(r) && now < LastTick(r) && At(r, slot) && Timely(r, now, slot)
    requires ticked == TickSlot32(r, now + 1, slot)
    ensures OneTickAway(r, now, slot, ticked)
  {
    MovedStaysClose32(r, now, slot);
    var moved, kind, ack := TickIsSettled32(r, now + 1, slot);
    SettledStaysClose32(r, now, slot, moved, kind, ack, ticked);
  }

  lemma ExchangeTravels32(s: State, t: State, side: Side, mine: Slot, theirs: Slot, taken: int, dealt: int, from: Slot,
                          start: nat, ticks: nat, dashes: nat)
    returns (dashesNow: nat)
    requires Accepted(s.rules) && MovesFit(s.rules) && s.tick < LastTick(s.rules) && start <= s.tick
    requires Timely(s.rules, s.tick, SlotOf(s, side)) && mine == TickSlot32(s.rules, s.tick + 1, SlotOf(s, side))
    requires Exchanged32(s, t, side, mine, theirs, taken, dealt)
    requires Travelled(s.rules, from, SlotOf(s, side), start, s.tick, ticks, dashes)
    ensures OnTheWay(s.rules, t, side, from, start, ticks + 1, dashesNow)
  {
    TickStaysClose32(s.rules, s.tick, SlotOf(s, side), mine);
    dashesNow := TravelsOn(s.rules, from, SlotOf(s, side), mine, start, s.tick, ticks, dashes);
    BlowsMoveNobody(s.rules, from, mine, s.tick + 1, taken, start, ticks + 1, dashesNow);
  }

  lemma ActiveStepTravels32(s: State, side: Side, from: Slot, start: nat, ticks: nat, dashes: nat)
    returns (dashesNow: nat)
    requires Consistent(s) && TimelyState(s) && MovesFit(s.rules) && s.status == MatchActive && start <= s.tick
    requires Travelled(s.rules, from, SlotOf(s, side), start, s.tick, ticks, dashes)
    ensures OnTheWay(s.rules, Step32(s), side, from, start, ticks + 1, dashesNow)
  {
    ClockFits(s);
    var mine, theirs, taken, dealt := ActiveSide32(s, side);
    dashesNow := ExchangeTravels32(s, Step32(s), side, mine, theirs, taken, dealt, from, start, ticks, dashes);
  }

  lemma BlowsMoveNobody(r: Ruleset, from: Slot, slot: Slot, now: nat, taken: int, start: nat, ticks: nat, dashes: nat)
    requires Travelled(r, from, slot, start, now, ticks, dashes)
    ensures Travelled(r, from, Struck(slot, now, taken), start, now, ticks, dashes)
  {
  }

  lemma EventTravels32(r: Ruleset, s: State, e: Event, side: Side, from: Slot, start: nat, ticks: nat, dashes: nat)
    returns (dashesNow: nat)
    requires Consistent(s) && TimelyState(s) && MovesFit(r) && OnTheWay(r, s, side, from, start, ticks, dashes)
    ensures OnTheWay(r, Apply32(s, e), side, from, start, if e == Tick then ticks + 1 else ticks, dashesNow)
  {
    if e == Tick && s.status == MatchActive {
      dashesNow := ActiveStepTravels32(s, side, from, start, ticks, dashes);
    } else {
      if e == Tick && s.status == MatchCountdown {
        OpeningAgrees(s);
      }
      dashesNow := EventTravels(r, s, e, side, from, start, ticks, dashes);
    }
  }

  lemma {:induction false} RunTravels32(s: State, events: seq<Event>, side: Side) returns (dashes: nat)
    requires Consistent(s) && TimelyState(s) && MovesFit(s.rules) && At(s.rules, SlotOf(s, side))
    ensures OnTheWay(s.rules, Run32(s, events), side, SlotOf(s, side), s.tick, Ticks(events), dashes)
    decreases |events|
  {
    if events == [] {
      SetsOut(s, side);
      dashes := 0;
    } else {
      var before, last := events[..|events| - 1], events[|events| - 1];
      dashes := RunTravels32(s, before, side);
      RunsAreSound32(s, before);
      dashes := EventTravels32(s.rules, Run32(s, before), last, side, SlotOf(s, side), s.tick, Ticks(before), dashes);
    }
  }

  /** From any state of the 32-bit server with this player inside the arena. */
  lemma MovementIsBoundedFrom(s: State, events: seq<Event>, side: Side)
    requires Consistent(s) && TimelyState(s) && MovesFit(s.rules) && At(s.rules, SlotOf(s, side))
    ensures var k := Ticks(events);
            Within(SlotOf(s, side), SlotOf(Run32(s, events), side),
                   s.rules.movementPerTick * k + Reach(s.rules) * MaxDashes(k, s.rules.dash.cooldownTicks))
  {
    var dashes := RunTravels32(s, events, side);
    DashesFit(dashes, Ticks(events), s.rules.dash.cooldownTicks);
    MoreTimes(Reach(s.rules), dashes, MaxDashes(Ticks(events), s.rules.dash.cooldownTicks));
  }

  /**
   On the 32-bit server, for every accepted ruleset with its spawns inside whose steps and dashes fit the ranges: over
   any stretch of any run with `k` ticks in it, a player moves at most `k` steps and one dash per started cooldown
   period along each axis, and is inside the arena.
   */
  lemma MovementIsBounded32(a: string, b: string, r: Ruleset, before: seq<Event>, events: seq<Event>, side: Side)
    requires a != "" && b != "" && a != b && Accepted(r) && MovesFit(r) && SpawnsInside(r)
    ensures var k, start := Ticks(events), NewState(a, b, r);
            && At(r, SlotOf(Run32(start, before), side))
            && Within(SlotOf(Run32(start, before), side), SlotOf(Run32(start, before + events), side),
                      r.movementPerTick * k + Reach(r) * MaxDashes(k, r.dash.cooldownTicks))
  {
    var start := NewState(a, b, r);
    NewRoomIsSound(a, b, r);
    RunsAreSound32(start, before);
    var dashes := RunTravels32(start, before, side);
    Run32Append(start, before, events);
    MovementIsBoundedFrom(Run32(start, before), events, side);
  }

  // ---------------------------------------------------------------- what goes wrong otherwise

  lemma RunOn32(s: State, before: seq<Event>, e: Event)
    ensures Run32(s, before + [e]) == Apply32(Run32(s, before), e)
  {
    assert (before + [e])[..|before|] == before;
  }

  /** An attack whose cooldown is one tick short of a whole turn of the clock. */
  const RELENTLESS_RULESET: Ruleset :=
    DEFAULT_RULESET.(countdownTicks := 1, initialHP := 2,
                     arena := DEFAULT_RULESET.arena.(spawnAX := 0, spawnBX := 10),
                     lightAttack := ActionDefinition(U32_LIMIT - 1, 0, 1, 0, 1, 0))

  function AttackInput(n: U32): Input {
    Input(n, 0, 0, [ActionCommand(n, LightAttack)])
  }

  /** The attacker, ready to attack on the next tick or on the one after. */
  ghost predicate Relentless(slot: Slot, tick: nat, n: U32) {
    var p := slot.player;
    && p.hp == 2 && p.positionX == 0 && p.positionY == 0 && p.facing == Facing(1, 0)
    && (p.actionState == Idle || (p.actionState == Active && p.actionTicksRemaining == 1))
    && slot.pending == [ActionCommand(n, LightAttack)] && slot.nextAttackTick <= tick
    && slot.input.moveX == 0 && slot.input.moveY == 0
  }

  /** The target, standing where the attacks land. */
  ghost predicate Standstill(slot: Slot, hp: int) {
    var p := slot.player;
    && p.hp == hp && p.positionX == 10 && p.positionY == 0
    && (p.actionState == Idle || (p.actionState == Hit && p.actionTicksRemaining == 1))
    && slot.pending == [] && slot.input.moveX == 0 && slot.input.moveY == 0
  }

  lemma AttackerTicks(tick: nat, slot: Slot, n: U32)
    requires Relentless(slot, tick, n) && 1 <= tick <= 3
    ensures var t := TickSlot32(RELENTLESS_RULESET, tick, slot);
            && t.player.hp == 2 && t.player.positionX == 0 && t.player.positionY == 0 && t.player.facing == Facing(1, 0)
            && t.player.actionState == Active && t.player.actionTicksRemaining == 1 && t.attackFacing == Facing(1, 0)
            && t.pending == [] && t.nextAttackTick == tick - 1 && t.player.lastAckedActionSequence == n
            && t.input == slot.input && t.lastInputTick == slot.lastInputTick && t.player.id == slot.player.id
  {
    var r := RELENTLESS_RULESET;
    var moved := MoveSlot32(r, AdvanceSlot(r, slot));
    assert moved.player.positionX == 0 && moved.player.positionY == 0 && moved.player.actionState == Idle;
    assert moved.pending[1..] == [];
    assert ProcessCommands32(r, tick, moved, moved.pending)
        == TryLightAttack32(r, tick, Acknowledged(moved, n));
  }

  lemma TargetTicks(tick: nat, slot: Slot, hp: int)
    requires Standstill(slot, hp) && 0 < hp
    ensures var t := TickSlot32(RELENTLESS_RULESET, tick, slot);
            t.player.hp == hp && t.player.positionX == 10 && t.player.positionY == 0 && t.player.actionState == Idle
            && t.pending == [] && t.input == slot.input && t.player.id == slot.player.id
  {
  }

  lemma BlowLands(a: Slot, b: Slot)
    requires a.player.actionState == Active && a.attackFacing == Facing(1, 0)
    requires a.player.positionX == 0 && a.player.positionY == 0
    requires b.player.actionState == Idle && b.player.positionX == 10 && b.player.positionY == 0
    ensures Damage32(RELENTLESS_RULESET, b, a) == 0 && Damage32(RELENTLESS_RULESET, a, b) == 1
  {
  }

  /** A room of these rules that is about to be ticked for the first or the second blow. */
  ghost predicate BlowIsDue(s: State, idA: string, idB: string, tick: U32, hp: int) {
    && s.rules == RELENTLESS_RULESET && s.status == MatchActive && s.tick == tick && s.activeTicks == tick - 1
    && Relentless(s.a, tick + 1, tick) && Standstill(s.b, hp) && s.a.player.id == idA && s.b.player.id == idB
    && s.a.lastInputTick == tick
  }

  /** `f` comes of the fight: only the target has been struck. */
  ghost predicate Dealt(s: State, f: State, a: Slot, b: Slot) {
    && f.a == a && f.b == Struck(b, s.tick + 1, 1) && f.rules == s.rules && f.status == s.status
    && f.tick == s.tick + 1 && f.activeTicks == s.activeTicks + 1
  }

  /** The exchange of one blow, given its strength. */
  lemma OneBlowIsDealt(s: State, f: State, a: Slot, b: Slot, taken: int, dealt: int)
    requires f.a == Struck(a, s.tick + 1, taken) && f.b == Struck(b, s.tick + 1, dealt) && taken == 0 && dealt == 1
    requires f.rules == s.rules && f.status == s.status && f.tick == s.tick + 1 && f.activeTicks == s.activeTicks + 1
    ensures Dealt(s, f, a, b)
  {
  }

  lemma BlowIsExchanged(s: State, a: Slot, b: Slot, taken: int, dealt: int)
    requires s.tick < 3 && s.activeTicks < 3 && taken == 0 && dealt == 1
    requires a == TickSlot32(s.rules, s.tick + 1, s.a) && b == TickSlot32(s.rules, s.tick + 1, s.b)
    requires taken == Damage32(s.rules, b, a) && dealt == Damage32(s.rules, a, b)
    ensures Dealt(s, Fought32(s), a, b)
  {
    ActiveSlots32(s, true, a, b);
    OneBlowIsDealt(s, Fought32(s), a, b, taken, dealt);
  }

  lemma BlowIsDecided(s: State, idA: string, idB: string, tick: U32, hp: int) returns (a: Slot, b: Slot)
    requires BlowIsDue(s, idA, idB, tick, hp) && 1 <= tick <= 2 && 1 <= hp <= 2
    ensures a == TickSlot32(RELENTLESS_RULESET, tick + 1, s.a) && b == TickSlot32(RELENTLESS_RULESET, tick + 1, s.b)
    ensures Standstill(b, hp) && b.player.id == idB
    ensures Damage32(RELENTLESS_RULESET, b, a) == 0 && Damage32(RELENTLESS_RULESET, a, b) == 1
  {
    a, b := TickSlot32(RELENTLESS_RULESET, tick + 1, s.a), TickSlot32(RELENTLESS_RULESET, tick + 1, s.b);
    AttackerTicks(tick + 1, s.a, tick);
    TargetTicks(tick + 1, s.b, hp);
    BlowLands(a, b);
  }

  lemma BlowIsDealt(s: State, idA: string, idB: string, tick: U32, hp: int) returns (a: Slot, b: Slot)
    requires BlowIsDue(s, idA, idB, tick, hp) && 1 <= tick <= 2 && 1 <= hp <= 2
    ensures a == TickSlot32(RELENTLESS_RULESET, tick + 1, s.a) && Standstill(b, hp) && b.player.id == idB
    ensures Dealt(s, Fought32(s), a, b)
  {
    a, b := BlowIsDecided(s, idA, idB, tick, hp);
    BlowIsExchanged(s, a, b, 0, 1);
  }

  lemma QueueOne(slot: Slot, n: U32)
    requires slot.pending == [] && slot.player.lastAckedActionSequence == n - 1 && 1 <= n <= 2
    requires slot.lastInputTick == n - 1
    ensures SubmitSlot(slot, AttackInput(n))
         == slot.(input := Input(n, 0, 0, []), lastInputTick := n, pending := [ActionCommand(n, LightAttack)])
  {
    var recorded, command := RecordMovement(slot, AttackInput(n)), ActionCommand(n, LightAttack);
    assert Truncated(AttackInput(n).actions) == [command] && [command][1..] == [];
    assert QueueActions(recorded, [command]) == QueueActions(QueueAction(recorded, command), []);
  }

  lemma FirstBlowIsDue(idA: string, idB: string)
    requires idA != "" && idB != "" && idA != idB
    ensures var s := Step32(NewState(idA, idB, RELENTLESS_RULESET));
            BlowIsDue(Submit(s, idA, AttackInput(1)), idA, idB, 1, 2)
  {
    QueueOne(Step32(NewState(idA, idB, RELENTLESS_RULESET)).a, 1);
  }

  lemma AfterTheBlow(s: State, a: Slot, b: Slot)
    requires s.rules == RELENTLESS_RULESET && s.status == MatchActive && s.activeTicks < s.rules.matchDurationTicks
    requires s.a == a && a.player.hp == 2 && s.b == Struck(b, s.tick, 1) && 1 <= b.player.hp <= 2
    ensures Finish(s).b == s.b && Finish(s).a == a && Finish(s).tick == s.tick && Finish(s).rules == s.rules
    ensures s.b.player.hp == b.player.hp - 1 && (b.player.hp == 2 ==> Finish(s) == s)
  {
  }

  lemma SecondBlowIsDue(s: State, idA: string, idB: string)
    requires BlowIsDue(s, idA, idB, 1, 2)
    ensures BlowIsDue(Submit(Step32(s), idA, AttackInput(2)), idA, idB, 2, 1)
  {
    var a, b := BlowIsDealt(s, idA, idB, 1, 2);
    AttackerTicks(2, s.a, 1);
    AfterTheBlow(Fought32(s), a, b);
    QueueOne(a, 2);
  }

  lemma SecondBlowKnocksOut(s: State, idA: string, idB: string)
    requires BlowIsDue(s, idA, idB, 2, 1)
    ensures KnockedOut(Step32(s)) && Step32(s).tick == 3
  {
    var a, b := BlowIsDealt(s, idA, idB, 2, 1);
    AttackerTicks(3, s.a, 2);
    AfterTheBlow(Fought32(s), a, b);
  }

  function RelentlessRun(idA: string): seq<Event> {
    [] + [Tick] + [Deliver(idA, AttackInput(1))] + [Tick] + [Deliver(idA, AttackInput(2))] + [Tick]
  }

  lemma RelentlessRunByHand(start: State, idA: string)
    ensures Run32(start, RelentlessRun(idA))
         == Step32(Submit(Step32(Submit(Step32(start), idA, AttackInput(1))), idA, AttackInput(2)))
  {
    RunOn32(start, [], Tick);
    RunOn32(start, [] + [Tick], Deliver(idA, AttackInput(1)));
    RunOn32(start, [] + [Tick] + [Deliver(idA, AttackInput(1))], Tick);
    RunOn32(start, [] + [Tick] + [Deliver(idA, AttackInput(1))] + [Tick], Deliver(idA, AttackInput(2)));
    RunOn32(start, [] + [Tick] + [Deliver(idA, AttackInput(1))] + [Tick] + [Deliver(idA, AttackInput(2))], Tick);
  }

  /**
   With a cooldown that wraps, two attacks in a row knock the opponent out on tick 3, long before the second one may
   start.
   */
  lemma CooldownsCanVanish(idA: string, idB: string)
    requires idA != "" && idB != "" && idA != idB
    ensures var r, s := RELENTLESS_RULESET, Run32(NewState(idA, idB, RELENTLESS_RULESET), RelentlessRun(idA));
            && Accepted(r) && SizesMakeSense(r) && SpawnsInside(r) && RoomyArena(r) && MovesFit(r) && !AttacksFit(r)
            && AttackWorth(r) > 0 && KnockedOut(s) && s.tick == 3 < EarliestLanding(r, AttacksNeeded(r))
  {
    var start := NewState(idA, idB, RELENTLESS_RULESET);
    RelentlessRunByHand(start, idA);
    FirstBlowIsDue(idA, idB);
    var one := Submit(Step32(start), idA, AttackInput(1));
    SecondBlowIsDue(one, idA, idB);
    SecondBlowKnocksOut(Submit(Step32(one), idA, AttackInput(2)), idA, idB);
    RelentlessRulesAreAccepted();
    TwoAttacksAreNeeded();
  }

  lemma RelentlessRulesAreAccepted()
    ensures var r := RELENTLESS_RULESET;
            Accepted(r) && SizesMakeSense(r) && SpawnsInside(r) && RoomyArena(r) && MovesFit(r) && !AttacksFit(r)
  {
  }

  lemma TwoAttacksAreNeeded()
    ensures var r := RELENTLESS_RULESET;
            AttackWorth(r) == 1 && AttacksNeeded(r) == 2 && EarliestLanding(r, 2) == 1 + U32_LIMIT
  {
  }

  /** An arena that reaches to the end of the range. */
  const ENDLESS_RULESET: Ruleset :=
    DEFAULT_RULESET.(countdownTicks := 1, arena := DEFAULT_RULESET.arena.(maxX := I32_MAX, spawnAX := I32_MAX))

  const STEP_RIGHT := Input(1, 1, 0, [])

  lemma EndlessRulesAreAccepted()
    ensures var r := ENDLESS_RULESET;
            Accepted(r) && SizesMakeSense(r) && SpawnsInside(r) && RoomyClock(r) && !Spare(r, r.movementPerTick)
  {
  }

  lemma StepWraps(tick: nat, slot: Slot)
    requires slot.player.positionX == I32_MAX && slot.input.moveX == 1 && slot.player.hp > 0 && slot.pending == []
    requires slot.player.actionState == Idle
    ensures TickSlot32(ENDLESS_RULESET, tick, slot).player.positionX == -500
  {
    Fits(I32_MAX + 10);
  }

  /** Blows and the end of the match move nobody. */
  lemma StepKeepsTickedPosition(s: State, a: Slot)
    requires s.status == MatchActive && a == TickSlot32(s.rules, WrapU32(s.tick + 1), s.a)
    ensures Step32(s).a.player.positionX == a.player.positionX
  {
  }

  function StepRightRun(idA: string): seq<Event> {
    [] + [Tick] + [Deliver(idA, STEP_RIGHT)] + [Tick]
  }

  lemma StepRightByHand(start: State, idA: string)
    ensures Run32(start, StepRightRun(idA)) == Step32(Submit(Step32(start), idA, STEP_RIGHT))
  {
    RunOn32(start, [], Tick);
    RunOn32(start, [] + [Tick], Deliver(idA, STEP_RIGHT));
    RunOn32(start, [] + [Tick] + [Deliver(idA, STEP_RIGHT)], Tick);
  }

  lemma TicksOn(before: seq<Event>, e: Event)
    ensures Ticks(before + [e]) == Ticks(before) + if e == Tick then 1 else 0
  {
    assert (before + [e])[..|before|] == before;
  }

  lemma StepRightTicksTwice(idA: string)
    ensures Ticks(StepRightRun(idA)) == 2
  {
    TicksOn([], Tick);
    TicksOn([] + [Tick], Deliver(idA, STEP_RIGHT));
    TicksOn([] + [Tick] + [Deliver(idA, STEP_RIGHT)], Tick);
  }

  lemma StepRightIsDue(idA: string, idB: string)
    requires idA != "" && idB != "" && idA != idB
    ensures var s := Submit(Step32(NewState(idA, idB, ENDLESS_RULESET)), idA, STEP_RIGHT);
            && s.rules == ENDLESS_RULESET && s.status == MatchActive && s.tick == 1
            && s.a.player.positionX == I32_MAX && s.a.input.moveX == 1 && s.a.player.hp > 0 && s.a.pending == []
            && s.a.player.actionState == Idle
  {
  }

  lemma WallToWall(from: Slot, to: Slot)
    requires from.player.positionX == I32_MAX && to.player.positionX == -500
    ensures var r := ENDLESS_RULESET;
            !Within(from, to, r.movementPerTick * 2 + Reach(r) * MaxDashes(2, r.dash.cooldownTicks))
  {
    assert MaxDashes(2, 30) == 1;
  }

  /** One step to the right at the end of the range lands at the left wall. */
  lemma StepsCanCrossTheArena(idA: string, idB: string)
    requires idA != "" && idB != "" && idA != idB
    ensures var r, start := ENDLESS_RULESET, NewState(idA, idB, ENDLESS_RULESET);
            && Accepted(r) && SizesMakeSense(r) && SpawnsInside(r) && RoomyClock(r) && !Spare(r, r.movementPerTick)
            && Ticks(StepRightRun(idA)) == 2
            && !Within(start.a, Run32(start, StepRightRun(idA)).a,
                       r.movementPerTick * 2 + Reach(r) * MaxDashes(2, r.dash.cooldownTicks))
  {
    EndlessRulesAreAccepted();
    StepRightTicksTwice(idA);
    StepRightByHand(NewState(idA, idB, ENDLESS_RULESET), idA);
    StepRightLandsLeft(idA, idB);
    WallToWall(NewState(idA, idB, ENDLESS_RULESET).a,
               Step32(Submit(Step32(NewState(idA, idB, ENDLESS_RULESET)), idA, STEP_RIGHT)).a);
  }

  lemma StepRightLandsLeft(idA: string, idB: string)
    requires idA != "" && idB != "" && idA != idB
    ensures var s := Submit(Step32(NewState(idA, idB, ENDLESS_RULESET)), idA, STEP_RIGHT);
            Step32(s).a.player.positionX == -500
  {
    StepRightIsDue(idA, idB);
    var s := Submit(Step32(NewState(idA, idB, ENDLESS_RULESET)), idA, STEP_RIGHT);
    StepWraps(2, s.a);
    StepKeepsTickedPosition(s, TickSlot32(ENDLESS_RULESET, 2, s.a));
  }
}
