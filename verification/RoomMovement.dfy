/** Where a player can be, and how far they can get. */
module RoomMovement {
  import opened RoomModel
  import opened RoomSlots
  import opened RoomLifecycle
  import opened RoomTimeline

  predicate Inside(r: Ruleset, x: int, y: int) {
    r.arena.minX <= x <= r.arena.maxX && r.arena.minY <= y <= r.arena.maxY
  }

  predicate SpawnsInside(r: Ruleset) {
    Inside(r, r.arena.spawnAX, r.arena.spawnAY) && Inside(r, r.arena.spawnBX, r.arena.spawnBY)
  }

  ghost predicate At(r: Ruleset, slot: Slot) {
    Inside(r, slot.player.positionX, slot.player.positionY)
  }

  function Distance(u: int, v: int): int {
    Abs(u - v)
  }

  /** On each axis, `to` is at most `far` away from `from`. */
  ghost predicate Within(from: Slot, to: Slot, far: int) {
    Distance(from.player.positionX, to.player.positionX) <= far
    && Distance(from.player.positionY, to.player.positionY) <= far
  }

  function Reach(r: Ruleset): nat {
    Abs(r.dash.dashDistance)
  }

  lemma UnitTimes(unit: int, size: int)
    requires -1 <= unit <= 1
    ensures 0 - Abs(size) <= unit * size <= Abs(size)
  {
  }

  lemma MovedStaysClose(r: Ruleset, slot: Slot)
    requires Accepted(r) && At(r, slot) && FacingLocked(slot)
    ensures At(r, Moved(r, slot)) && Within(slot, Moved(r, slot), r.movementPerTick)
    ensures Moved(r, slot).nextDashTick == slot.nextDashTick
  {
    UnitTimes(slot.input.moveX, r.movementPerTick);
    UnitTimes(slot.input.moveY, r.movementPerTick);
  }

  lemma PerformStaysClose(r: Ruleset, tick: nat, slot: Slot, kind: ActionType)
    requires Accepted(r) && At(r, slot) && Cardinal(slot.player.facing)
    ensures var t := Perform(r, tick, slot, kind);
            && At(r, t)
            && (|| (t.nextDashTick == slot.nextDashTick && Within(slot, t, 0))
                || (slot.nextDashTick <= tick && t.nextDashTick == tick + r.dash.cooldownTicks
                    && Within(slot, t, Reach(r))))
  {
    UnitTimes(slot.player.facing.x, r.dash.dashDistance);
    UnitTimes(slot.player.facing.y, r.dash.dashDistance);
  }

  /** One tick moves a player by a step, or by a step and a dash that was due. */
  lemma TickStaysClose(r: Ruleset, now: nat, slot: Slot)
    requires Accepted(r) && At(r, slot) && Timely(r, now, slot)
    ensures var t := TickSlot(r, now + 1, slot);
            && At(r, t)
            && (|| (t.nextDashTick == slot.nextDashTick && Within(slot, t, r.movementPerTick))
                || (slot.nextDashTick <= now + 1 && t.nextDashTick == now + 1 + r.dash.cooldownTicks
                    && Within(slot, t, r.movementPerTick + Reach(r))))
  {
    MovedIsTimely(r, now, slot);
    MovedStaysClose(r, slot);
    var kind := TickSlotShape(r, now + 1, slot);
    PerformStaysClose(r, now + 1, Moved(r, slot), kind);
  }

  /** `dashes` dashes have been made in the `ticks` ticks since tick `start`, when the player was at `from`. */
  ghost predicate Travelled(r: Ruleset, from: Slot, to: Slot, start: nat, now: nat, ticks: nat, dashes: nat) {
    && At(r, to) && Within(from, to, r.movementPerTick * ticks + Reach(r) * dashes)
    && dashes <= ticks && now <= start + ticks
    && (dashes > 0 ==> && now >= start + 1 + (dashes - 1) * r.dash.cooldownTicks
                       && to.nextDashTick >= start + 1 + dashes * r.dash.cooldownTicks)
  }

  lemma OneMore(unit: int, n: int)
    ensures unit * (n + 1) == unit * n + unit && (n + 1) * unit == n * unit + unit
  {
  }

  /** A tick that moves a player from `slot` to `t` by a step, or by a step and a dash that was due. */
  lemma TravelsOn(r: Ruleset, from: Slot, slot: Slot, t: Slot, start: nat, now: nat, ticks: nat, dashes: nat)
    returns (dashesNow: nat)
    requires Accepted(r) && start <= now && Travelled(r, from, slot, start, now, ticks, dashes) && At(r, t)
    requires || (t.nextDashTick == slot.nextDashTick && Within(slot, t, r.movementPerTick))
             || (slot.nextDashTick <= now + 1 && t.nextDashTick == now + 1 + r.dash.cooldownTicks
                 && Within(slot, t, r.movementPerTick + Reach(r)))
    ensures Travelled(r, from, t, start, now + 1, ticks + 1, dashesNow)
  {
    OneMore(r.movementPerTick, ticks);
    OneMore(Reach(r), dashes);
    OneMore(r.dash.cooldownTicks, dashes);
    OneMore(r.dash.cooldownTicks, dashes - 1);
    dashesNow := dashes;
    if !Within(slot, t, r.movementPerTick) || t.nextDashTick < slot.nextDashTick {
      dashesNow := dashes + 1;
    }
  }

  lemma TickTravels(r: Ruleset, from: Slot, slot: Slot, start: nat, now: nat, ticks: nat, dashes: nat)
    returns (dashesNow: nat)
    requires Accepted(r) && Timely(r, now, slot) && start <= now
    requires Travelled(r, from, slot, start, now, ticks, dashes)
    ensures Travelled(r, from, TickSlot(r, now + 1, slot), start, now + 1, ticks + 1, dashesNow)
  {
    TickStaysClose(r, now, slot);
    dashesNow := TravelsOn(r, from, slot, TickSlot(r, now + 1, slot), start, now, ticks, dashes);
  }

  lemma ActiveStepTravels(s: State, side: Side, from: Slot, start: nat, ticks: nat, dashes: nat)
    returns (dashesNow: nat)
    requires Consistent(s) && TimelyState(s) && s.status == MatchActive && start <= s.tick
    requires Travelled(s.rules, from, SlotOf(s, side), start, s.tick, ticks, dashes)
    ensures Travelled(s.rules, from, SlotOf(ActiveStep(s), side), start, s.tick + 1, ticks + 1, dashesNow)
  {
    dashesNow := TickTravels(s.rules, from, SlotOf(s, side), start, s.tick, ticks, dashes);
    var damage := ActiveSlot(s, side);
  }

  lemma StepTravels(s: State, side: Side, from: Slot, start: nat, ticks: nat, dashes: nat)
    returns (dashesNow: nat)
    requires Consistent(s) && TimelyState(s) && start <= s.tick
    requires Travelled(s.rules, from, SlotOf(s, side), start, s.tick, ticks, dashes)
    requires s.status == MatchCountdown ==> dashes == 0
    ensures Travelled(s.rules, from, SlotOf(Step(s), side), start, Step(s).tick, ticks + 1, dashesNow)
    ensures Step(s).status == MatchCountdown ==> dashesNow == 0
    ensures start <= Step(s).tick
  {
    match s.status {
      case MatchActive =>
        ActiveStepClock(s);
        dashesNow := ActiveStepTravels(s, side, from, start, ticks, dashes);
      case _ =>
        OneMore(s.rules.movementPerTick, ticks);
        dashesNow := dashes;
    }
  }

  lemma SubmitTravels(s: State, id: string, input: Input, side: Side, from: Slot, start: nat, ticks: nat, dashes: nat)
    requires Travelled(s.rules, from, SlotOf(s, side), start, s.tick, ticks, dashes)
    ensures var t := Submit(s, id, input);
            && Travelled(s.rules, from, SlotOf(t, side), start, t.tick, ticks, dashes)
            && t.rules == s.rules && t.tick == s.tick && t.status == s.status
  {
    SubmitPreservesAllButQueues(s, id, input);
  }

  /** A player in state `s` who was at `from` on tick `start`, `ticks` ticks ago. */
  ghost predicate OnTheWay(r: Ruleset, s: State, side: Side, from: Slot, start: nat, ticks: nat, dashes: nat) {
    && s.rules == r && start <= s.tick && (s.status == MatchCountdown ==> dashes == 0)
    && Travelled(r, from, SlotOf(s, side), start, s.tick, ticks, dashes)
  }

  lemma EventTravels(r: Ruleset, s: State, e: Event, side: Side, from: Slot, start: nat, ticks: nat, dashes: nat)
    returns (dashesNow: nat)
    requires Consistent(s) && TimelyState(s) && OnTheWay(r, s, side, from, start, ticks, dashes)
    ensures OnTheWay(r, Apply(s, e), side, from, start, if e == Tick then ticks + 1 else ticks, dashesNow)
  {
    match e {
      case Deliver(id, input) =>
        SubmitTravels(s, id, input, side, from, start, ticks, dashes);
        dashesNow := dashes;
      case Tick =>
        dashesNow := StepTravels(s, side, from, start, ticks, dashes);
        ConsistentIsKept(s, Tick);
    }
  }

  lemma SetsOut(s: State, side: Side)
    requires Accepted(s.rules) && At(s.rules, SlotOf(s, side))
    ensures OnTheWay(s.rules, s, side, SlotOf(s, side), s.tick, 0, 0)
  {
  }

  lemma {:induction false} RunTravels(s: State, events: seq<Event>, side: Side) returns (dashes: nat)
    requires Consistent(s) && TimelyState(s) && At(s.rules, SlotOf(s, side))
    ensures OnTheWay(s.rules, Run(s, events), side, SlotOf(s, side), s.tick, Ticks(events), dashes)
    decreases |events|
  {
    if events == [] {
      SetsOut(s, side);
      dashes := 0;
    } else {
      var before, last := events[..|events| - 1], events[|events| - 1];
      dashes := RunTravels(s, before, side);
      RunsAreConsistent(s, before);
      RunsAreTimely(s, before);
      dashes := EventTravels(s.rules, Run(s, before), last, side, SlotOf(s, side), s.tick, Ticks(before), dashes);
    }
  }

  /** The most dashes that fit into `ticks` ticks: one per started cooldown period. */
  function MaxDashes(ticks: nat, cooldown: nat): nat {
    if cooldown == 0 then ticks else (ticks + cooldown - 1) / cooldown
  }

  lemma DashesFit(dashes: nat, ticks: nat, cooldown: nat)
    requires dashes <= ticks && (dashes > 0 ==> (dashes - 1) * cooldown <= ticks - 1)
    ensures dashes <= MaxDashes(ticks, cooldown)
  {
    if cooldown > 0 && dashes > 0 {
      var n := (ticks + cooldown - 1) / cooldown;
      assert ticks + cooldown - 1 < n * cooldown + cooldown;
      if dashes > n {
        assert (dashes - 1) * cooldown >= n * cooldown by {
          MoreTimes(cooldown, n, dashes - 1);
        }
      }
    }
  }

  lemma MoreTimes(unit: nat, small: int, large: int)
    requires small <= large
    ensures small * unit <= large * unit && unit * small <= unit * large
  {
  }

  /**
   From any reachable state, over any run with `k` ticks in it, a player moves at most `k` steps and one dash per
   started cooldown period along each axis. Positions are unbounded here; `RoomBounds` carries this over to 32 bits.
   */
  lemma MovementIsBounded(s: State, events: seq<Event>, side: Side)
    requires Reachable(s) && SpawnsInside(s.rules)
    ensures var k := Ticks(events);
            Within(SlotOf(s, side), SlotOf(Run(s, events), side),
                   s.rules.movementPerTick * k + Reach(s.rules) * MaxDashes(k, s.rules.dash.cooldownTicks))
  {
    PositionsStayInside(s, side);
    ReachableIsTimely(s);
    var dashes := RunTravels(s, events, side);
    DashesFit(dashes, Ticks(events), s.rules.dash.cooldownTicks);
    MoreTimes(Reach(s.rules), dashes, MaxDashes(Ticks(events), s.rules.dash.cooldownTicks));
  }

  lemma ReachableIsTimely(s: State)
    requires Reachable(s)
    ensures Consistent(s) && TimelyState(s)
  {
    var a, b, r, events :| ReachedBy(s, a, b, r, events);
    NewRoomIsConsistent(a, b, r);
    RunsAreConsistent(NewState(a, b, r), events);
    RunsAreTimely(NewState(a, b, r), events);
  }

  /** Nobody who starts inside the arena ever leaves it. */
  lemma PositionsStayInside(s: State, side: Side)
    requires Reachable(s) && SpawnsInside(s.rules)
    ensures At(s.rules, SlotOf(s, side))
  {
    var a, b, r, events :| ReachedBy(s, a, b, r, events);
    NewRoomIsConsistent(a, b, r);
    RunsAreConsistent(NewState(a, b, r), events);
    var dashes := RunTravels(NewState(a, b, r), events, side);
  }

  /** The constructor does not check the spawns; that nobody is ever outside the arena hinges on exactly them. */
  lemma InsideIffSpawnedInside(a: string, b: string, r: Ruleset)
    requires a != "" && b != "" && a != b && Accepted(r)
    ensures SpawnsInside(r) <==>
            forall events, side :: At(r, SlotOf(Run(NewState(a, b, r), events), side))
  {
    var start := NewState(a, b, r);
    if SpawnsInside(r) {
      forall events, side
        ensures At(r, SlotOf(Run(start, events), side))
      {
        NewRoomIsConsistent(a, b, r);
        RunsAreConsistent(start, events);
        assert ReachedBy(Run(start, events), a, b, r, events);
        PositionsStayInside(Run(start, events), side);
      }
    } else {
      var none: seq<Event> := [];
      assert Run(start, none) == start;
      assert exists side :: !At(r, SlotOf(Run(start, none), side)) by {
        assert !At(r, SlotOf(start, true)) || !At(r, SlotOf(start, false));
      }
    }
  }

  /** A ruleset the constructor accepts can spawn a player outside. */
  lemma SpawnsAreNotChecked() returns (r: Ruleset)
    ensures Accepted(r) && !SpawnsInside(r)
  {
    r := DEFAULT_RULESET.(arena := DEFAULT_RULESET.arena.(spawnAX := 501));
  }

  /** A dash goes straight ahead for the full distance, unless the wall ahead stops it. */
  lemma DashGoesForward(r: Ruleset, tick: nat, slot: Slot)
    requires Accepted(r) && r.dash.dashDistance >= 0 && At(r, slot) && Cardinal(slot.player.facing)
    requires CanStartAction(slot) && tick >= slot.nextDashTick
    ensures var p, q, f := slot.player, TryDash(r, tick, slot).player, slot.player.facing;
            var dx, dy := q.positionX - p.positionX, q.positionY - p.positionY;
            && dx * f.y - dy * f.x == 0
            && 0 <= dx * f.x + dy * f.y <= r.dash.dashDistance
            && (dx * f.x + dy * f.y < r.dash.dashDistance ==>
                  !Inside(r, q.positionX + f.x, q.positionY + f.y))
            && At(r, TryDash(r, tick, slot))
  {
    var f := slot.player.facing;
    assert f == Facing(1, 0) || f == Facing(-1, 0) || f == Facing(0, 1) || f == Facing(0, -1);
  }
}
