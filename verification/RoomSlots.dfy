/** What one tick can and cannot do to a single slot. */
module RoomSlots {
  import opened RoomModel

  function LastSequence(ack: U32, commands: seq<ActionCommand>): U32 {
    if commands == [] then ack else commands[|commands| - 1].sequence
  }

  lemma PerformIgnoresAcknowledgement(r: Ruleset, tick: nat, slot: Slot, sequence: U32, kind: ActionType)
    ensures Perform(r, tick, Acknowledged(slot, sequence), kind) == Acknowledged(Perform(r, tick, slot, kind), sequence)
  {
  }

  lemma PerformOnce(r: Ruleset, tick: nat, slot: Slot, kind: ActionType, next: ActionType)
    requires Perform(r, tick, slot, kind) != slot
    ensures Perform(r, tick, Perform(r, tick, slot, kind), next) == Perform(r, tick, slot, kind)
  {
  }

  /** However many commands a tick processes, at most one of them starts an action and all are acknowledged. */
  lemma {:induction false} OneActionPerTick(r: Ruleset, tick: nat, slot: Slot, commands: seq<ActionCommand>)
    returns (kind: ActionType)
    ensures ProcessCommands(r, tick, slot, commands)
         == Acknowledged(Perform(r, tick, slot, kind), LastSequence(slot.player.lastAckedActionSequence, commands))
    decreases |commands|
  {
    if commands == [] {
      kind := Unspecified;
    } else {
      var acknowledged := Acknowledged(slot, commands[0].sequence);
      var performed := Perform(r, tick, acknowledged, commands[0].kind);
      var later := OneActionPerTick(r, tick, performed, commands[1..]);
      PerformIgnoresAcknowledgement(r, tick, slot, commands[0].sequence, commands[0].kind);
      if performed == acknowledged {
        kind := later;
        PerformIgnoresAcknowledgement(r, tick, slot, commands[0].sequence, later);
      } else {
        kind := commands[0].kind;
        PerformOnce(r, tick, acknowledged, commands[0].kind, later);
      }
    }
  }

  /** The slot just before its commands are processed. */
  function Moved(r: Ruleset, slot: Slot): Slot {
    MoveSlot(r, AdvanceSlot(r, slot))
  }

  lemma MovedFrame(r: Ruleset, slot: Slot)
    ensures var m := Moved(r, slot);
            && m.player.hp == slot.player.hp && m.player.id == slot.player.id
            && m.player.lastAckedActionSequence == slot.player.lastAckedActionSequence
            && m == slot.(player := m.player)
  {
  }

  /** A whole tick of a slot, with the command list replaced by the one action it starts. */
  lemma TickSlotShape(r: Ruleset, tick: nat, slot: Slot) returns (kind: ActionType)
    ensures TickSlot(r, tick, slot)
         == Acknowledged(Perform(r, tick, Moved(r, slot), kind),
                         LastSequence(slot.player.lastAckedActionSequence, slot.pending)).(pending := [])
  {
    MovedFrame(r, slot);
    kind := OneActionPerTick(r, tick, Moved(r, slot), slot.pending);
  }

  lemma TickSlotFrame(r: Ruleset, tick: nat, slot: Slot)
    ensures var t := TickSlot(r, tick, slot);
            && t.player.hp == slot.player.hp && t.player.id == slot.player.id && t.pending == []
            && t.player.lastAckedActionSequence == LastSequence(slot.player.lastAckedActionSequence, slot.pending)
            && t.input == slot.input && t.lastInputTick == slot.lastInputTick
  {
    MovedFrame(r, slot);
    var kind := TickSlotShape(r, tick, slot);
  }

  lemma {:induction false} QueueFrame(slot: Slot, commands: seq<ActionCommand>)
    ensures QueueActions(slot, commands) == slot.(pending := QueueActions(slot, commands).pending)
    decreases |commands|
  {
    if commands != [] {
      QueueFrame(QueueAction(slot, commands[0]), commands[1..]);
    }
  }

  /** Accepting an input touches the movement input and the pending commands, nothing else. */
  lemma SubmitFrame(slot: Slot, input: Input)
    ensures var s := SubmitSlot(slot, input);
            s == slot.(input := s.input, pending := s.pending, lastInputTick := s.lastInputTick)
  {
    QueueFrame(RecordMovement(slot, input), Truncated(input.actions));
  }

  /** One player's side of an active tick. */
  lemma ActiveSlot(s: State, side: Side) returns (damage: int)
    ensures SlotOf(ActiveStep(s), side)
         == Struck(TickSlot(s.rules, s.tick + 1, SlotOf(s, side)), s.tick + 1, damage)
    ensures damage == Damage(s.rules, TickSlot(s.rules, s.tick + 1, SlotOf(s, !side)),
                             TickSlot(s.rules, s.tick + 1, SlotOf(s, side)))
  {
    damage := Damage(s.rules, TickSlot(s.rules, s.tick + 1, SlotOf(s, !side)),
                     TickSlot(s.rules, s.tick + 1, SlotOf(s, side)));
  }

  /** Both players' sides of an active tick, which also moves the clock. */
  lemma ActiveSlots(s: State, side: Side, mine: Slot, theirs: Slot)
    requires s.status == MatchActive
    requires mine == TickSlot(s.rules, s.tick + 1, SlotOf(s, side))
    requires theirs == TickSlot(s.rules, s.tick + 1, SlotOf(s, !side))
    ensures var t := ActiveStep(s);
            && SlotOf(t, side) == Struck(mine, s.tick + 1, Damage(s.rules, theirs, mine))
            && SlotOf(t, !side) == Struck(theirs, s.tick + 1, Damage(s.rules, mine, theirs))
            && t.rules == s.rules && t.tick == s.tick + 1 && t.status != MatchCountdown
  {
  }

  /** A tick is the two slots ticked on their own, then their blows exchanged. */
  lemma FoughtBy(s: State, a: Slot, b: Slot)
    requires a == TickSlot(s.rules, s.tick + 1, s.a) && b == TickSlot(s.rules, s.tick + 1, s.b)
    ensures var (struckA, struckB) := ResolveAttacks(s.rules, s.tick + 1, a, b);
            Fought(s) == State(s.rules, struckA, struckB, s.tick + 1, s.activeTicks + 1, s.status, s.winnerID,
                               s.finishReason)
  {
  }
}
