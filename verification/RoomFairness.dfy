/**
 Neither side of the arena and neither player index is favoured: a tick commutes with exchanging the players and
 with reflecting the arena, so players who mirror each other draw.
 */
module RoomFairness {
  import opened RoomModel
  import opened RoomSlots
  import opened RoomLifecycle
  import opened RoomTimeline
  import opened RoomOrder

  // ---------------------------------------------------------------- exchanging the players

  function Swap(s: State): State {
    s.(a := s.b, b := s.a)
  }

  lemma SwapStep(s: State)
    ensures Step(Swap(s)) == Swap(Step(s))
  {
    if s.status == MatchActive {
      SwapFought(s);
      SwapFinish(Fought(s));
    }
  }

  lemma SwapFought(s: State)
    ensures Fought(Swap(s)) == Swap(Fought(s))
  {
  }

  lemma SwapFinish(s: State)
    ensures Finish(Swap(s)) == Swap(Finish(s))
  {
  }

  /** The player index decides nothing: exchanging the players commutes with every run. */
  lemma {:induction false} SwapRun(s: State, events: seq<Event>)
    requires Consistent(s)
    ensures Run(Swap(s), events) == Swap(Run(s, events))
    decreases |events|
  {
    if events != [] {
      var before := events[..|events| - 1];
      SwapRun(s, before);
      RunsAreConsistent(s, before);
      match events[|events| - 1] {
        case Deliver(id, input) =>
          assert Submit(Swap(Run(s, before)), id, input) == Swap(Submit(Run(s, before), id, input));
        case Tick => SwapStep(Run(s, before));
      }
    }
  }

  // ---------------------------------------------------------------- reflecting the arena

  /** The opposite axis value; the one value without an opposite turns into the nearest one. */
  function Opposite(axis: I8): I8 {
    if axis == -0x80 then 0x7f else -axis
  }

  function MirrorInput(input: Input): Input {
    input.(moveX := Opposite(input.moveX))
  }

  /** The slot seen in a mirror standing at x = 0, under another name. */
  function Reflect(slot: Slot, id: string): Slot {
    slot.(player := slot.player.(id := id, positionX := -slot.player.positionX,
                                 facing := Facing(Opposite(slot.player.facing.x), slot.player.facing.y)),
          input := MirrorInput(slot.input),
          attackFacing := Facing(Opposite(slot.attackFacing.x), slot.attackFacing.y))
  }

  predicate SymmetricArena(r: Ruleset) {
    r.arena.minX + r.arena.maxX == 0
  }

  lemma ReflectMoved(r: Ruleset, slot: Slot, id: string)
    requires SymmetricArena(r) && r.arena.minX < r.arena.maxX && FacingLocked(slot)
    ensures Moved(r, Reflect(slot, id)) == Reflect(Moved(r, slot), id)
  {
    assert AdvanceSlot(r, Reflect(slot, id)) == Reflect(AdvanceSlot(r, slot), id);
    ReflectMove(r, AdvanceSlot(r, slot), id);
  }

  lemma ReflectMove(r: Ruleset, slot: Slot, id: string)
    requires SymmetricArena(r) && r.arena.minX < r.arena.maxX
    requires -1 <= slot.input.moveX <= 1 && -1 <= slot.input.moveY <= 1
    ensures MoveSlot(r, Reflect(slot, id)) == Reflect(MoveSlot(r, slot), id)
  {
    NegatedTimes(slot.input.moveX, r.movementPerTick);
  }

  lemma NegatedTimes(x: int, y: int)
    ensures (-x) * y == -(x * y)
  {
  }

  lemma ReflectPerform(r: Ruleset, tick: nat, slot: Slot, id: string, kind: ActionType)
    requires SymmetricArena(r) && r.arena.minX < r.arena.maxX && -1 <= slot.player.facing.x <= 1
    ensures Perform(r, tick, Reflect(slot, id), kind) == Reflect(Perform(r, tick, slot, kind), id)
    ensures Perform(r, tick, slot, kind).player.facing == slot.player.facing
  {
    NegatedTimes(slot.player.facing.x, r.dash.dashDistance);
  }

  lemma {:induction false} ReflectCommands(r: Ruleset, tick: nat, slot: Slot, id: string, commands: seq<ActionCommand>)
    requires SymmetricArena(r) && r.arena.minX < r.arena.maxX && -1 <= slot.player.facing.x <= 1
    ensures ProcessCommands(r, tick, Reflect(slot, id), commands)
         == Reflect(ProcessCommands(r, tick, slot, commands), id)
    decreases |commands|
  {
    if commands != [] {
      var acknowledged := Acknowledged(slot, commands[0].sequence);
      assert Acknowledged(Reflect(slot, id), commands[0].sequence) == Reflect(acknowledged, id);
      ReflectPerform(r, tick, acknowledged, id, commands[0].kind);
      ReflectCommands(r, tick, Perform(r, tick, acknowledged, commands[0].kind), id, commands[1..]);
    }
  }

  lemma ReflectTick(r: Ruleset, now: nat, slot: Slot, id: string)
    requires SymmetricArena(r) && Accepted(r) && Timely(r, now, slot)
    ensures TickSlot(r, now + 1, Reflect(slot, id)) == Reflect(TickSlot(r, now + 1, slot), id)
  {
    ReflectMoved(r, slot, id);
    MovedFrame(r, slot);
    MovedIsTimely(r, now, slot);
    ReflectCommands(r, now + 1, Moved(r, slot), id, slot.pending);
  }

  ghost predicate SmallFacing(slot: Slot) {
    -1 <= slot.attackFacing.x <= 1 && -1 <= slot.player.facing.x <= 1 && -1 <= slot.input.moveX <= 1
  }

  lemma ReflectDamage(r: Ruleset, attacker: Slot, target: Slot, attackerID: string, targetID: string)
    requires SmallFacing(attacker)
    ensures Damage(r, Reflect(attacker, attackerID), Reflect(target, targetID)) == Damage(r, attacker, target)
  {
  }

  lemma ReflectStruck(slot: Slot, tick: nat, damage: int, id: string)
    ensures Struck(Reflect(slot, id), tick, damage) == Reflect(Struck(slot, tick, damage), id)
  {
  }

  function Mirror(s: State): State {
    s.(a := Reflect(s.a, s.a.player.id), b := Reflect(s.b, s.b.player.id))
  }

  /** The ticked slot and its reflection, with what the exchange of blows needs to know about them. */
  lemma ReflectTicked(r: Ruleset, now: nat, slot: Slot, id: string)
    requires SymmetricArena(r) && Accepted(r) && Timely(r, now, slot)
    ensures TickSlot(r, now + 1, Reflect(slot, id)) == Reflect(TickSlot(r, now + 1, slot), id)
    ensures SmallFacing(TickSlot(r, now + 1, slot))
    ensures TickSlot(r, now + 1, slot).player.id == slot.player.id
  {
    ReflectTick(r, now, slot, id);
    TickSlotFrame(r, now + 1, slot);
    TickIsTimely(r, now, slot);
  }

  /** The two fights, once the ticked slots are known to be reflections of each other. */
  lemma FightReflects(s: State, a: Slot, b: Slot)
    requires a == TickSlot(s.rules, s.tick + 1, s.a) && b == TickSlot(s.rules, s.tick + 1, s.b)
    requires Reflect(a, s.a.player.id) == TickSlot(s.rules, s.tick + 1, Mirror(s).a)
    requires Reflect(b, s.b.player.id) == TickSlot(s.rules, s.tick + 1, Mirror(s).b)
    requires a.player.id == s.a.player.id && b.player.id == s.b.player.id && SmallFacing(a) && SmallFacing(b)
    ensures Fought(Mirror(s)) == Mirror(Fought(s))
  {
    var r, tick, idA, idB := s.rules, s.tick + 1, s.a.player.id, s.b.player.id;
    var (struckA, struckB) := ResolveAttacks(r, tick, a, b);
    MirrorExchange(r, tick, a, b, idA, idB);
    FoughtBy(s, a, b);
    FoughtBy(Mirror(s), Reflect(a, idA), Reflect(b, idB));
    StruckKeepsName(a, tick, Damage(r, b, a));
    StruckKeepsName(b, tick, Damage(r, a, b));
  }

  lemma StruckKeepsName(slot: Slot, tick: nat, damage: int)
    ensures Struck(slot, tick, damage).player.id == slot.player.id
  {
  }

  lemma MirrorFought(s: State)
    requires Accepted(s.rules) && SymmetricArena(s.rules) && TimelyState(s)
    ensures Fought(Mirror(s)) == Mirror(Fought(s))
  {
    ReflectTicked(s.rules, s.tick, s.a, s.a.player.id);
    ReflectTicked(s.rules, s.tick, s.b, s.b.player.id);
    FightReflects(s, TickSlot(s.rules, s.tick + 1, s.a), TickSlot(s.rules, s.tick + 1, s.b));
  }

  lemma MirrorExchange(r: Ruleset, tick: nat, a: Slot, b: Slot, idA: string, idB: string)
    requires SmallFacing(a) && SmallFacing(b)
    ensures var (struckA, struckB) := ResolveAttacks(r, tick, a, b);
            ResolveAttacks(r, tick, Reflect(a, idA), Reflect(b, idB)) == (Reflect(struckA, idA), Reflect(struckB, idB))
  {
    ReflectDamage(r, a, b, idA, idB);
    ReflectDamage(r, b, a, idB, idA);
    ReflectStruck(a, tick, Damage(r, b, a), idA);
    ReflectStruck(b, tick, Damage(r, a, b), idB);
  }

  /** Left and right decide nothing: reflecting a symmetric arena commutes with a tick. */
  lemma MirrorStep(s: State)
    requires Accepted(s.rules) && SymmetricArena(s.rules) && TimelyState(s)
    ensures Step(Mirror(s)) == Mirror(Step(s))
  {
    match s.status {
      case MatchActive =>
        MirrorFought(s);
        assert Finish(Mirror(Fought(s))) == Mirror(Finish(Fought(s)));
      case MatchCountdown => MirrorCountdown(s);
      case MatchFinished =>
    }
  }

  lemma MirrorCountdown(s: State)
    ensures CountdownStep(Mirror(s)) == Mirror(CountdownStep(s))
  {
  }

  lemma {:induction false} ReflectQueue(slot: Slot, id: string, commands: seq<ActionCommand>)
    ensures QueueActions(Reflect(slot, id), commands) == Reflect(QueueActions(slot, commands), id)
    decreases |commands|
  {
    if commands != [] {
      assert QueueAction(Reflect(slot, id), commands[0]) == Reflect(QueueAction(slot, commands[0]), id);
      ReflectQueue(QueueAction(slot, commands[0]), id, commands[1..]);
    }
  }

  lemma ReflectSubmit(slot: Slot, id: string, input: Input)
    requires SmallFacing(slot)
    ensures SubmitSlot(Reflect(slot, id), MirrorInput(input)) == Reflect(SubmitSlot(slot, input), id)
  {
    assert RecordMovement(Reflect(slot, id), MirrorInput(input)) == Reflect(RecordMovement(slot, input), id);
    ReflectQueue(RecordMovement(slot, input), id, Truncated(input.actions));
  }

  function MirrorEvents(events: seq<Event>): seq<Event> {
    seq(|events|, i requires 0 <= i < |events| =>
      match events[i]
      case Deliver(id, input) => Deliver(id, MirrorInput(input))
      case Tick => Tick)
  }

  /** Reflecting the arena and everybody's input reflects the whole run. */
  lemma {:induction false} MirrorRun(s: State, events: seq<Event>)
    requires Consistent(s) && TimelyState(s) && SymmetricArena(s.rules)
    ensures Run(Mirror(s), MirrorEvents(events)) == Mirror(Run(s, events))
    decreases |events|
  {
    if events != [] {
      var before := events[..|events| - 1];
      var mid := Run(s, before);
      assert MirrorEvents(events)[..|events| - 1] == MirrorEvents(before);
      MirrorRun(s, before);
      RunsAreConsistent(s, before);
      RunsAreTimely(s, before);
      match events[|events| - 1] {
        case Deliver(id, input) => MirrorSubmit(mid, id, input);
        case Tick => MirrorStep(mid);
      }
    }
  }

  lemma MirrorSubmit(s: State, id: string, input: Input)
    requires TimelyState(s)
    ensures Submit(Mirror(s), id, MirrorInput(input)) == Mirror(Submit(s, id, input))
  {
    SubmitFrame(s.a, input);
    SubmitFrame(s.b, input);
    ReflectSubmit(s.a, s.a.player.id, input);
    ReflectSubmit(s.b, s.b.player.id, input);
  }

  // ---------------------------------------------------------------- players who mirror each other

  ghost predicate Twins(s: State) {
    s.b == Reflect(s.a, s.b.player.id)
  }

  lemma ReflectTwice(slot: Slot, id: string)
    requires SmallFacing(slot)
    ensures Reflect(Reflect(slot, id), slot.player.id) == slot
  {
  }

  lemma TwinsExchange(r: Ruleset, tick: nat, a: Slot, id: string)
    requires SmallFacing(a)
    ensures var (struckA, struckB) := ResolveAttacks(r, tick, a, Reflect(a, id));
            struckB == Reflect(struckA, id)
  {
    var b := Reflect(a, id);
    ReflectTwice(a, id);
    ReflectDamage(r, a, b, id, a.player.id);
    ReflectStruck(a, tick, Damage(r, b, a), id);
  }

  lemma TwinsStep(s: State)
    requires Consistent(s) && TimelyState(s) && SymmetricArena(s.rules) && Twins(s)
    ensures Twins(Step(s)) && Step(s).b.player.id == s.b.player.id
  {
    match s.status {
      case MatchActive =>
        TwinsActiveStep(s);
      case MatchCountdown =>
      case MatchFinished =>
    }
  }

  lemma TwinsActiveStep(s: State)
    requires Consistent(s) && TimelyState(s) && SymmetricArena(s.rules) && Twins(s) && s.status == MatchActive
    ensures Twins(ActiveStep(s)) && ActiveStep(s).b.player.id == s.b.player.id
  {
    ReflectTicked(s.rules, s.tick, s.a, s.b.player.id);
    TwinsAfterTicking(s, TickSlot(s.rules, s.tick + 1, s.a));
  }

  lemma TwinsAfterTicking(s: State, a: Slot)
    requires a == TickSlot(s.rules, s.tick + 1, s.a)
    requires Reflect(a, s.b.player.id) == TickSlot(s.rules, s.tick + 1, s.b)
    requires SmallFacing(a) && s.status == MatchActive
    ensures Twins(ActiveStep(s)) && ActiveStep(s).b.player.id == s.b.player.id
  {
    TwinsExchange(s.rules, s.tick + 1, a, s.b.player.id);
    FoughtBy(s, a, Reflect(a, s.b.player.id));
    StruckKeepsName(Reflect(a, s.b.player.id), s.tick + 1, Damage(s.rules, a, Reflect(a, s.b.player.id)));
  }

  ghost predicate MirroredInputs(xs: seq<Input>, ys: seq<Input>) {
    |xs| == |ys| && forall i :: 0 <= i < |xs| ==> ys[i] == MirrorInput(xs[i])
  }

  lemma {:induction false} TwinInputs(a: Slot, xs: seq<Input>, ys: seq<Input>, id: string)
    requires SmallFacing(a) && MirroredInputs(xs, ys)
    ensures SubmitAll(Reflect(a, id), ys) == Reflect(SubmitAll(a, xs), id)
    ensures SmallFacing(SubmitAll(a, xs))
    decreases |xs|
  {
    if xs != [] {
      var n := |xs| - 1;
      TwinInputs(a, xs[..n], ys[..n], id);
      ReflectSubmit(SubmitAll(a, xs[..n]), id, xs[n]);
      SubmitFrame(SubmitAll(a, xs[..n]), xs[n]);
      QueueFrame(RecordMovement(SubmitAll(a, xs[..n]), xs[n]), Truncated(xs[n].actions));
    }
  }

  /** Rounds of inputs, each closed by a tick. */
  function Flatten(rounds: seq<seq<Event>>): seq<Event> {
    if rounds == [] then [] else Flatten(rounds[..|rounds| - 1]) + rounds[|rounds| - 1] + [Tick]
  }

  ghost predicate MirroredRound(round: seq<Event>, idA: string, idB: string) {
    OnlyInputs(round) && MirroredInputs(InputsFor(round, idA), InputsFor(round, idB))
  }

  lemma TwinsRound(s: State, round: seq<Event>)
    requires Consistent(s) && TimelyState(s) && SymmetricArena(s.rules) && Twins(s)
    requires MirroredRound(round, s.a.player.id, s.b.player.id)
    ensures Twins(Run(s, round + [Tick]))
  {
    var idA, idB := s.a.player.id, s.b.player.id;
    RoundSplits(s, round);
    TwinInputs(s.a, InputsFor(round, idA), InputsFor(round, idB), idB);
    RunsAreConsistent(s, round);
    RunsAreTimely(s, round);
    TwinsStep(Run(s, round));
    RunOn(s, round, Tick);
  }

  lemma TwinsNextRound(s: State, before: seq<Event>, round: seq<Event>)
    requires Consistent(s) && TimelyState(s) && SymmetricArena(s.rules) && Twins(Run(s, before))
    requires MirroredRound(round, s.a.player.id, s.b.player.id)
    ensures Twins(Run(s, before + round + [Tick]))
  {
    RunsAreConsistent(s, before);
    RunsAreTimely(s, before);
    TwinsRound(Run(s, before), round);
    RunAppend(s, before, round + [Tick]);
    assert before + round + [Tick] == before + (round + [Tick]);
  }

  lemma {:induction false} TwinsForever(s: State, rounds: seq<seq<Event>>)
    requires Consistent(s) && TimelyState(s) && SymmetricArena(s.rules) && Twins(s)
    requires forall round :: round in rounds ==> MirroredRound(round, s.a.player.id, s.b.player.id)
    ensures Twins(Run(s, Flatten(rounds)))
    decreases |rounds|
  {
    if rounds != [] {
      var n := |rounds| - 1;
      TwinsForever(s, rounds[..n]);
      assert rounds[n] in rounds;
      TwinsNextRound(s, Flatten(rounds[..n]), rounds[n]);
    }
  }

  lemma {:induction false} RoundsCountTicks(rounds: seq<seq<Event>>)
    requires forall round :: round in rounds ==> OnlyInputs(round)
    ensures Ticks(Flatten(rounds)) == |rounds|
    decreases |rounds|
  {
    if rounds != [] {
      var n := |rounds| - 1;
      var before, round := Flatten(rounds[..n]), rounds[n];
      RoundsCountTicks(rounds[..n]);
      InputsDoNotTick(before, round);
      assert (before + round + [Tick])[..|before + round|] == before + round;
    }
  }

  lemma {:induction false} InputsDoNotTick(before: seq<Event>, round: seq<Event>)
    requires OnlyInputs(round)
    ensures Ticks(before + round) == Ticks(before)
    decreases |round|
  {
    if round == [] {
      assert before + round == before;
    } else {
      var n := |round| - 1;
      assert round[n] in round;
      assert (before + round)[..|before + round| - 1] == before + round[..n];
      InputsDoNotTick(before, round[..n]);
    }
  }

  /** Mirrored spawns on a symmetric arena, as in the default rules. */
  predicate SymmetricRules(r: Ruleset) {
    SymmetricArena(r) && r.arena.spawnAX + r.arena.spawnBX == 0 && r.arena.spawnAY == r.arena.spawnBY
  }

  lemma DefaultRulesAreSymmetric(arenaID: string)
    requires arenaID != ""
    ensures Accepted(MatchRules(arenaID)) && SymmetricRules(MatchRules(arenaID))
  {
  }

  lemma NewRoomIsTwins(idA: string, idB: string, r: Ruleset)
    requires idA != "" && idB != "" && idA != idB && Accepted(r) && SymmetricRules(r)
    ensures var start := NewState(idA, idB, r); Consistent(start) && TimelyState(start) && Twins(start)
  {
  }

  lemma TwinsHaveNoWinner(s: State)
    requires Consistent(s) && Twins(s)
    ensures s.winnerID == ""
  {
  }

  /**
   If before every tick player B receives the mirror images of what player A receives, in the same order but
   interleaved in any way, then the two are mirror images after every tick, nobody ever wins, and the match is over
   once countdown and match time have passed.
   */
  lemma MirroredPlayersDraw(idA: string, idB: string, r: Ruleset, rounds: seq<seq<Event>>)
    requires idA != "" && idB != "" && idA != idB && Accepted(r) && SymmetricRules(r)
    requires forall round :: round in rounds ==> MirroredRound(round, idA, idB)
    ensures var s := Run(NewState(idA, idB, r), Flatten(rounds));
            && Twins(s) && s.winnerID == ""
            && (|rounds| >= r.countdownTicks + r.matchDurationTicks ==> s.status == MatchFinished)
  {
    var start := NewState(idA, idB, r);
    NewRoomIsTwins(idA, idB, r);
    TwinsForever(start, rounds);
    RunsAreConsistent(start, Flatten(rounds));
    TwinsHaveNoWinner(Run(start, Flatten(rounds)));
    if |rounds| >= r.countdownTicks + r.matchDurationTicks {
      RoundsCountTicks(rounds);
      EveryMatchEnds(idA, idB, r, Flatten(rounds));
    }
  }
}
