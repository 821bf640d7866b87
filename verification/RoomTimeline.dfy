/** The action timeline a snapshot publishes, in closed form. */
module RoomTimeline {
  import opened RoomModel
  import opened RoomSlots
  import opened RoomLifecycle

  predicate Cardinal(f: Facing) {
    (f.x == 0 && (f.y == 1 || f.y == -1)) || (f.y == 0 && (f.x == 1 || f.x == -1))
  }

  /** An attack's phases end this many ticks after it started. */
  function PhaseEnd(r: Ruleset, state: ActionState): nat
    requires Attacking(state)
  {
    var attack := r.lightAttack;
    match state
    case Windup => attack.windupTicks
    case Active => attack.windupTicks + attack.activeTicks
    case Recovery => attack.windupTicks + attack.activeTicks + attack.recoveryTicks
  }

  /** ... and begin this many ticks after it. */
  function PhaseStart(r: Ruleset, state: ActionState): nat
    requires Attacking(state)
  {
    match state
    case Windup => 0
    case Active => r.lightAttack.windupTicks
    case Recovery => r.lightAttack.windupTicks + r.lightAttack.activeTicks
  }

  /** The published action fields at tick `now` are a function of state and start tick. */
  ghost predicate OnTimeline(r: Ruleset, now: nat, p: PlayerState) {
    match p.actionState
    case Idle => p.actionStartedServerTick == 0 && p.actionTicksRemaining == 0
    case Move => p.actionStartedServerTick == 0 && p.actionTicksRemaining == 0
    case Dashing => p.actionStartedServerTick == now > 0 && p.actionTicksRemaining == 1
    case Hit => p.actionStartedServerTick == now > 0 && p.actionTicksRemaining == 1
    case KO => 0 < p.actionStartedServerTick <= now && p.actionTicksRemaining == 0
    case _ =>
      && 0 < p.actionStartedServerTick && p.actionStartedServerTick + PhaseStart(r, p.actionState) <= now
      && p.actionTicksRemaining == p.actionStartedServerTick + PhaseEnd(r, p.actionState) - now > 0
  }

  ghost predicate FacingLocked(slot: Slot) {
    && (Attacking(slot.player.actionState) ==> slot.player.facing == slot.attackFacing)
    && Cardinal(slot.player.facing)
    && -1 <= slot.input.moveX <= 1 && -1 <= slot.input.moveY <= 1
    && -1 <= slot.attackFacing.x <= 1 && -1 <= slot.attackFacing.y <= 1
  }

  ghost predicate Timely(r: Ruleset, now: nat, slot: Slot) {
    OnTimeline(r, now, slot.player) && FacingLocked(slot)
  }

  /** Between two ticks: one-tick states have ended, no new action has started. */
  lemma MovedIsTimely(r: Ruleset, now: nat, slot: Slot)
    requires r.lightAttack.activeTicks != 0 && Timely(r, now, slot)
    ensures Timely(r, now + 1, Moved(r, slot))
    ensures var state := Moved(r, slot).player.actionState; state != Dashing && state != Hit
  {
    AdvancedIsTimely(r, now, slot);
    MoveIsTimely(r, now + 1, AdvanceSlot(r, slot));
  }

  lemma AdvancedIsTimely(r: Ruleset, now: nat, slot: Slot)
    requires r.lightAttack.activeTicks != 0 && Timely(r, now, slot)
    ensures Timely(r, now + 1, AdvanceSlot(r, slot))
    ensures var state := AdvanceSlot(r, slot).player.actionState; state != Dashing && state != Hit
  {
  }

  lemma MoveIsTimely(r: Ruleset, now: nat, slot: Slot)
    requires Timely(r, now, slot) && slot.player.actionState != Dashing && slot.player.actionState != Hit
    ensures Timely(r, now, MoveSlot(r, slot))
    ensures var state := MoveSlot(r, slot).player.actionState; state != Dashing && state != Hit
  {
  }

  lemma PerformIsTimely(r: Ruleset, now: nat, slot: Slot, kind: ActionType)
    requires r.lightAttack.activeTicks != 0 && now > 0 && Timely(r, now, slot)
    ensures Timely(r, now, Perform(r, now, slot, kind))
  {
  }

  lemma StruckIsTimely(r: Ruleset, now: nat, slot: Slot, damage: int)
    requires now > 0 && Timely(r, now, slot)
    ensures Timely(r, now, Struck(slot, now, damage))
  {
  }

  lemma TickIsTimely(r: Ruleset, now: nat, slot: Slot)
    requires r.lightAttack.activeTicks != 0 && Timely(r, now, slot)
    ensures Timely(r, now + 1, TickSlot(r, now + 1, slot))
  {
    MovedIsTimely(r, now, slot);
    var kind := TickSlotShape(r, now + 1, slot);
    PerformIsTimely(r, now + 1, Moved(r, slot), kind);
  }

  lemma ActiveIsTimely(s: State, side: Side)
    requires s.rules.lightAttack.activeTicks != 0 && Timely(s.rules, s.tick, SlotOf(s, side))
    ensures Timely(s.rules, s.tick + 1, SlotOf(ActiveStep(s), side))
  {
    var slot := SlotOf(s, side);
    TickIsTimely(s.rules, s.tick, slot);
    var damage := ActiveSlot(s, side);
    StruckIsTimely(s.rules, s.tick + 1, TickSlot(s.rules, s.tick + 1, slot), damage);
  }

  ghost predicate TimelyState(s: State) {
    Timely(s.rules, s.tick, s.a) && Timely(s.rules, s.tick, s.b)
    && (s.status == MatchCountdown ==> Locomoting(s.a.player.actionState) && Locomoting(s.b.player.actionState))
  }

  lemma TimelyIsKept(s: State, e: Event)
    requires Consistent(s) && TimelyState(s)
    ensures TimelyState(Apply(s, e))
  {
    match e
    case Deliver(id, input) => SubmitStateIsTimely(s, id, input);
    case Tick =>
      match s.status {
        case MatchActive => ActiveStepIsTimely(s);
        case MatchCountdown => CountdownStepIsTimely(s);
        case MatchFinished =>
      }
  }

  lemma SubmitStateIsTimely(s: State, id: string, input: Input)
    requires TimelyState(s)
    ensures TimelyState(Submit(s, id, input))
  {
    SubmitIsTimely(s.rules, s.tick, s.a, input);
    SubmitIsTimely(s.rules, s.tick, s.b, input);
  }

  lemma CountdownStepIsTimely(s: State)
    requires TimelyState(s) && s.status == MatchCountdown
    ensures TimelyState(CountdownStep(s))
  {
  }

  lemma ActiveStepIsTimely(s: State)
    requires Consistent(s) && TimelyState(s) && s.status == MatchActive
    ensures TimelyState(ActiveStep(s))
  {
    ActiveIsTimely(s, true);
    ActiveIsTimely(s, false);
    ActiveStepClock(s);
  }

  lemma SubmitIsTimely(r: Ruleset, now: nat, slot: Slot, input: Input)
    requires Timely(r, now, slot)
    ensures Timely(r, now, SubmitSlot(slot, input)) && SubmitSlot(slot, input).player == slot.player
  {
    QueueFrame(RecordMovement(slot, input), Truncated(input.actions));
  }

  lemma {:induction false} RunsAreTimely(s: State, events: seq<Event>)
    requires Consistent(s) && TimelyState(s)
    ensures TimelyState(Run(s, events))
    decreases |events|
  {
    if events != [] {
      RunsAreConsistent(s, events[..|events| - 1]);
      RunsAreTimely(s, events[..|events| - 1]);
      TimelyIsKept(Run(s, events[..|events| - 1]), events[|events| - 1]);
    }
  }

  /**
   In every reachable state of every ruleset, both players publish exactly the closed form; the start tick is zero
   exactly in the locomotion states; and an attack keeps the facing it was started with through all its phases.
   */
  lemma PublishedTimeline(s: State, side: Side)
    requires Reachable(s)
    ensures var slot := SlotOf(s, side);
            && OnTimeline(s.rules, s.tick, slot.player)
            && (slot.player.actionStartedServerTick == 0 <==> Locomoting(slot.player.actionState))
            && (Attacking(slot.player.actionState) ==> slot.player.facing == slot.attackFacing)
            && Cardinal(slot.player.facing)
  {
    var a, b, r, events :| ReachedBy(s, a, b, r, events);
    NewRoomIsConsistent(a, b, r);
    RunsAreTimely(NewState(a, b, r), events);
  }
}
