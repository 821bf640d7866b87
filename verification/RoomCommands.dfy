/** The pending commands and their acknowledgement, for arbitrary and dishonest inputs. */
module RoomCommands {
  import opened RoomModel
  import opened CommandOrder
  import opened RoomSlots
  import RoomLifecycle

  ghost predicate QueueSafe(slot: Slot) {
    && StrictlyAscending(slot.pending) && |slot.pending| <= MAX_PENDING_ACTIONS
    && forall c :: c in slot.pending ==> InWindow(slot.player.lastAckedActionSequence, c.sequence)
  }

  lemma InsertHasElements(commands: seq<ActionCommand>, command: ActionCommand)
    ensures forall c :: c in InsertBySequence(commands, command) <==> c in commands || c == command
  {
    InsertKeepsContents(commands, command);
    forall c: ActionCommand
      ensures c in InsertBySequence(commands, command) <==> c in commands || c == command
    {
      assert c in InsertBySequence(commands, command) <==> c in multiset(InsertBySequence(commands, command));
    }
  }

  lemma QueueActionIsSafe(slot: Slot, command: ActionCommand)
    requires QueueSafe(slot)
    ensures QueueSafe(QueueAction(slot, command))
  {
    if QueueAction(slot, command) != slot {
      InsertKeepsOrder(slot.pending, command);
      InsertKeepsContents(slot.pending, command);
      InsertHasElements(slot.pending, command);
    }
  }

  lemma {:induction false} QueueActionsIsSafe(slot: Slot, commands: seq<ActionCommand>)
    requires QueueSafe(slot)
    ensures QueueSafe(QueueActions(slot, commands))
    decreases |commands|
  {
    if commands != [] {
      QueueActionIsSafe(slot, commands[0]);
      QueueActionsIsSafe(QueueAction(slot, commands[0]), commands[1..]);
    }
  }

  /** The commands of one player a tick consumes. */
  function Consumed(s: State, side: Side): seq<ActionCommand> {
    if s.status == MatchFinished then [] else SlotOf(s, side).pending
  }

  /** All commands of one player consumed over a run, in order. */
  function ConsumedLog(s: State, events: seq<Event>, side: Side): seq<ActionCommand> {
    if events == [] then []
    else
      var before := events[..|events| - 1];
      ConsumedLog(s, before, side) + if events[|events| - 1] == Tick then Consumed(Run(s, before), side) else []
  }

  /** A tick of an unfinished match consumes the whole queue and acknowledges its last command. */
  lemma TickAcknowledges(s: State, side: Side)
    requires s.status != MatchFinished
    ensures var before, after := SlotOf(s, side), SlotOf(Step(s), side);
            && after.pending == []
            && after.player.lastAckedActionSequence
               == LastSequence(before.player.lastAckedActionSequence, before.pending)
  {
    if s.status == MatchActive {
      ActiveTickAcknowledges(s, side);
    }
  }

  lemma ActiveTickAcknowledges(s: State, side: Side)
    ensures var before, after := SlotOf(s, side), SlotOf(ActiveStep(s), side);
            && after.pending == []
            && after.player.lastAckedActionSequence
               == LastSequence(before.player.lastAckedActionSequence, before.pending)
  {
    TickSlotFrame(s.rules, s.tick + 1, SlotOf(s, side));
    var damage := ActiveSlot(s, side);
  }

  lemma SubmitIsSafe(s: State, id: string, input: Input, side: Side)
    requires QueueSafe(SlotOf(s, side))
    ensures QueueSafe(SlotOf(Submit(s, id, input), side))
    ensures SlotOf(Submit(s, id, input), side).player == SlotOf(s, side).player
  {
    var slot := SlotOf(s, side);
    SubmitFrame(slot, input);
    QueueActionsIsSafe(RecordMovement(slot, input), Truncated(input.actions));
  }

  /**
   Whatever is submitted, and in whatever order: the queue stays sorted, free of repetitions, bounded and inside
   the window, and the consumed sequence numbers rise strictly over the whole run, ending in the acknowledgement.
   */
  lemma {:induction false} QueueSafetyOverRuns(s: State, events: seq<Event>, side: Side)
    requires QueueSafe(SlotOf(s, side))
    ensures QueueSafe(SlotOf(Run(s, events), side))
    ensures RisesTo(SlotOf(s, side).player.lastAckedActionSequence, ConsumedLog(s, events, side),
                    SlotOf(Run(s, events), side))
    decreases |events|
  {
    if events != [] {
      var before := events[..|events| - 1];
      QueueSafetyOverRuns(s, before, side);
      var ack := SlotOf(s, side).player.lastAckedActionSequence;
      match events[|events| - 1] {
        case Deliver(id, input) => SubmitIsSafe(Run(s, before), id, input, side);
        case Tick => TickIsSafe(Run(s, before), side, ack, ConsumedLog(s, before, side));
      }
    }
  }

  /** `log` has been consumed since the acknowledgement was `ack`. */
  ghost predicate RisesTo(ack: U32, log: seq<ActionCommand>, slot: Slot) {
    && StrictlyAscending(log) && (forall i :: 0 <= i < |log| ==> ack < log[i].sequence)
    && slot.player.lastAckedActionSequence == LastSequence(ack, log)
  }

  lemma TickIsSafe(s: State, side: Side, ack: U32, log: seq<ActionCommand>)
    requires QueueSafe(SlotOf(s, side)) && RisesTo(ack, log, SlotOf(s, side))
    ensures QueueSafe(SlotOf(Step(s), side)) && RisesTo(ack, log + Consumed(s, side), SlotOf(Step(s), side))
  {
    if s.status == MatchFinished {
      assert log + [] == log;
    } else {
      TickAcknowledges(s, side);
      AppendConsumed(ack, log, SlotOf(s, side));
    }
  }

  lemma AppendConsumed(ack: U32, log: seq<ActionCommand>, slot: Slot)
    requires QueueSafe(slot) && RisesTo(ack, log, slot)
    ensures var longer := log + slot.pending;
            && StrictlyAscending(longer) && (forall i :: 0 <= i < |longer| ==> ack < longer[i].sequence)
            && LastSequence(LastSequence(ack, log), slot.pending) == LastSequence(ack, longer)
  {
    var longer, reached := log + slot.pending, slot.player.lastAckedActionSequence;
    forall i | 0 <= i < |log| ensures log[i].sequence <= reached {
    }
    forall i | 0 <= i < |slot.pending| ensures reached < slot.pending[i].sequence {
      assert slot.pending[i] in slot.pending;
    }
    forall i, j | 0 <= i < j < |longer|
      ensures longer[i].sequence < longer[j].sequence
    {
      assert longer[i] == if i < |log| then log[i] else slot.pending[i - |log|];
      assert longer[j] == if j < |log| then log[j] else slot.pending[j - |log|];
    }
    forall i | 0 <= i < |longer| ensures ack < longer[i].sequence {
      assert longer[i] == if i < |log| then log[i] else slot.pending[i - |log|];
    }
  }

  // ---------------------------------------------------------------- what an input changes

  /** A command is queued exactly if it is one of the next 64, not queued already, and there is a place for it. */
  predicate Takes(slot: Slot, command: ActionCommand) {
    && 0 < command.sequence - slot.player.lastAckedActionSequence <= 64 && |slot.pending| < 8
    && forall i :: 0 <= i < |slot.pending| ==> slot.pending[i].sequence != command.sequence
  }

  lemma QueuedIff(slot: Slot, command: ActionCommand, c: ActionCommand)
    ensures c in QueueAction(slot, command).pending <==> c in slot.pending || (c == command && Takes(slot, command))
  {
    InsertHasElements(slot.pending, command);
  }

  function FirstEight(commands: seq<ActionCommand>): seq<ActionCommand> {
    commands[..if |commands| < 8 then |commands| else 8]
  }

  /** The direction of an axis. */
  function Sign(axis: I8): I8 {
    if axis < 0 then -1 else if axis > 0 then 1 else 0
  }

  lemma {:induction false} OnlyOfferedAreQueued(slot: Slot, commands: seq<ActionCommand>, c: ActionCommand)
    ensures c in QueueActions(slot, commands).pending ==> c in slot.pending || c in commands
    decreases |commands|
  {
    if commands != [] {
      OnlyOfferedAreQueued(QueueAction(slot, commands[0]), commands[1..], c);
      QueuedIff(slot, commands[0], c);
    }
  }

  /** The tick of the input is at most 120 past the last one accepted, in 32 bits. */
  predicate InTime(slot: Slot, input: Input) {
    0 < input.tick <= (slot.lastInputTick + 120) % 0x1_0000_0000
  }

  /**
   An input changes only what its player holds and has queued, and that only if its tick is in time: the direction of a
   newer input is held from then on, and commands come from the first eight.
   */
  lemma InputsAreRecorded(s: State, id: string, input: Input, side: Side)
    requires s.a.player.id != s.b.player.id
    ensures var slot, t := SlotOf(s, side), SlotOf(Submit(s, id, input), side);
            && (id != slot.player.id || !InTime(slot, input) ==> t == slot)
            && (id == slot.player.id && InTime(slot, input) ==>
                  && t.input == (if input.tick > slot.lastInputTick
                                 then Input(input.tick, Sign(input.moveX), Sign(input.moveY), []) else slot.input)
                  && t.lastInputTick == (if input.tick > slot.lastInputTick then input.tick else slot.lastInputTick)
                  && (input.actions == [] ==> t.pending == slot.pending)
                  && t == SlotOf(Submit(s, id, input.(actions := FirstEight(input.actions))), side)
                  && (forall c :: |input.actions| == 1 ==>
                        (c in t.pending <==> c in slot.pending || (c == input.actions[0] && Takes(slot, c))))
                  && (forall c :: c in t.pending ==>
                        c in slot.pending || c in FirstEight(input.actions)))
  {
    var slot := SlotOf(s, side);
    SubmitFrame(slot, input);
    QueueFrame(RecordMovement(slot, input), Truncated(input.actions));
    TruncatedOnce(input.actions);
    if id == slot.player.id && InTime(slot, input) {
      forall c ensures c in SubmitSlot(slot, input).pending ==> c in slot.pending || c in Truncated(input.actions) {
        OnlyOfferedAreQueued(RecordMovement(slot, input), Truncated(input.actions), c);
      }
      if |input.actions| == 1 {
        forall c ensures c in SubmitSlot(slot, input).pending
                    <==> c in slot.pending || (c == input.actions[0] && Takes(slot, c))
        {
          OneCommandIsQueued(slot, input, c);
        }
      }
    }
  }

  lemma TruncatedOnce(commands: seq<ActionCommand>)
    ensures Truncated(commands) == FirstEight(commands) == Truncated(FirstEight(commands))
  {
  }

  lemma OneCommandIsQueued(slot: Slot, input: Input, c: ActionCommand)
    requires InTime(slot, input) && |input.actions| == 1
    ensures c in SubmitSlot(slot, input).pending <==> c in slot.pending || (c == input.actions[0] && Takes(slot, c))
  {
    var recorded, command := RecordMovement(slot, input), input.actions[0];
    assert input.actions == [command] && [command][1..] == [];
    assert QueueActions(recorded, [command]) == QueueActions(QueueAction(recorded, command), []);
    QueuedIff(recorded, command, c);
  }

  // ---------------------------------------------------------------- the countdown

  /** A slot as it was spawned, except for what has been received and acknowledged. */
  ghost predicate Untouched(slot: Slot, spawned: Slot) {
    && slot.player == spawned.player.(lastAckedActionSequence := slot.player.lastAckedActionSequence)
    && slot.attackFacing == spawned.attackFacing
  }

  /**
   Commands and movement received during the countdown are acknowledged but never carried out; the first tick of the
   match is the first on which anything can be started.
   */
  lemma {:induction false} CountdownIsInert(a: string, b: string, r: Ruleset, events: seq<Event>, side: Side)
    requires a != "" && b != "" && a != b && Accepted(r)
    requires Run(NewState(a, b, r), events).status == MatchCountdown
    ensures var spawned, s := NewState(a, b, r), Run(NewState(a, b, r), events);
            && Untouched(SlotOf(s, side), SlotOf(spawned, side))
            && (Step(s).status == MatchActive ==>
                  && Untouched(SlotOf(Step(s), side), SlotOf(spawned, side))
                  && SlotOf(Step(s), side).pending == []
                  && SlotOf(Step(s), side).input.moveX == 0 && SlotOf(Step(s), side).input.moveY == 0
                  && SlotOf(Step(s), side).nextDashTick == SlotOf(Step(s), side).nextAttackTick == Step(s).tick + 1)
    decreases |events|
  {
    if events != [] {
      var start, before := NewState(a, b, r), events[..|events| - 1];
      var mid := Run(start, before);
      match events[|events| - 1] {
        case Deliver(id, input) => RoomLifecycle.SubmitPreservesAllButQueues(mid, id, input);
        case Tick =>
          if mid.status == MatchActive {
            RoomLifecycle.NewRoomIsConsistent(a, b, r);
            RoomLifecycle.RunsAreConsistent(start, before);
            RoomLifecycle.FoughtFrame(mid);
          }
      }
      CountdownIsInert(a, b, r, before, side);
    }
  }
}
