/**
 Between two ticks the order in which a player's inputs arrive, and how often each arrives, does not matter.
 */
module RoomOrder {
  import opened RoomModel
  import opened CommandOrder
  import opened RoomSlots
  import opened RoomCommands

  function Batch(inputs: seq<Input>): set<Input> {
    set i | i in inputs
  }

  /** What the batch offers the slot: commands inside its window that an input still carries after truncation. */
  ghost predicate Offers(slot: Slot, batch: set<Input>, command: ActionCommand) {
    && InWindow(slot.player.lastAckedActionSequence, command.sequence)
    && exists input :: input in batch && input.tick != 0 && command in Truncated(input.actions)
  }

  /** Equal ticks carry equal movement, equal sequence numbers carry equal commands, nothing is too far ahead. */
  ghost predicate Coherent(slot: Slot, batch: set<Input>, all: seq<ActionCommand>) {
    && slot.lastInputTick + 2 * MAX_INPUT_TICK_ADVANCE < U32_LIMIT
    && (forall i :: i in batch ==> i.tick <= slot.lastInputTick + MAX_INPUT_TICK_ADVANCE)
    && (forall i, j :: i in batch && j in batch && i.tick == j.tick ==> i.moveX == j.moveX && i.moveY == j.moveY)
    && StrictlyAscending(all) && |all| <= MAX_PENDING_ACTIONS
    && (forall c :: c in slot.pending ==> c in all)
    && (forall c :: Offers(slot, batch, c) ==> c in all)
  }

  /** The movement the batch leaves behind: that of its newest input, if it is news. */
  ghost predicate NewestMovement(before: Slot, batch: set<Input>, after: Slot) {
    && (forall i :: i in batch ==> i.tick <= after.lastInputTick)
    && (|| (after.lastInputTick == before.lastInputTick && after.input == before.input)
        || (after.lastInputTick > before.lastInputTick
            && exists i :: i in batch && i.tick == after.lastInputTick
                           && after.input == Input(i.tick, ClampAxis(i.moveX), ClampAxis(i.moveY), [])))
  }

  /** Exactly the old and the offered commands are pending, and the movement is the newest. */
  ghost predicate Merged(before: Slot, batch: set<Input>, after: Slot) {
    && after == before.(input := after.input, lastInputTick := after.lastInputTick, pending := after.pending)
    && StrictlyAscending(after.pending)
    && (forall c :: c in after.pending <==> c in before.pending || Offers(before, batch, c))
    && NewestMovement(before, batch, after)
  }

  /** What is merged is determined by the set of inputs alone. */
  lemma MergedIsUnique(before: Slot, batch: set<Input>, all: seq<ActionCommand>, x: Slot, y: Slot)
    requires Coherent(before, batch, all) && Merged(before, batch, x) && Merged(before, batch, y)
    ensures x == y
  {
    ElementsDetermineOrder(x.pending, y.pending);
    assert x.lastInputTick == y.lastInputTick;
  }

  lemma SubsetIsShort(part: seq<ActionCommand>, all: seq<ActionCommand>)
    requires StrictlyAscending(part) && StrictlyAscending(all) && forall c :: c in part ==> c in all
    ensures |part| <= |all|
  {
    var ps := set c | c in part;
    var qs := set c | c in all;
    assert |part| == |ps| by { DistinctSize(part); }
    assert |all| == |qs| by { DistinctSize(all); }
    assert ps <= qs;
    SubsetSize(ps, qs);
  }

  lemma SubsetSize(ps: set<ActionCommand>, qs: set<ActionCommand>)
    requires ps <= qs
    ensures |ps| <= |qs|
  {
    assert qs == ps + (qs - ps);
  }

  lemma {:induction false} DistinctSize(commands: seq<ActionCommand>)
    requires StrictlyAscending(commands)
    ensures |commands| == |set c | c in commands|
    decreases |commands|
  {
    if commands != [] {
      var n := |commands| - 1;
      DistinctSize(commands[..n]);
      assert commands == commands[..n] + [commands[n]];
      assert commands[n] !in commands[..n];
      assert (set c | c in commands) == (set c | c in commands[..n]) + {commands[n]};
    }
  }

  /** Queueing commands that all fit adds exactly the fresh ones. */
  lemma {:induction false} QueueAddsFresh(slot: Slot, commands: seq<ActionCommand>, all: seq<ActionCommand>)
    requires StrictlyAscending(slot.pending) && StrictlyAscending(all) && |all| <= MAX_PENDING_ACTIONS
    requires forall c :: c in slot.pending ==> c in all
    requires forall c :: c in commands && InWindow(slot.player.lastAckedActionSequence, c.sequence) ==> c in all
    ensures var q := QueueActions(slot, commands);
            && StrictlyAscending(q.pending)
            && forall c :: c in q.pending <==>
                 c in slot.pending || (c in commands && InWindow(slot.player.lastAckedActionSequence, c.sequence))
    decreases |commands|
  {
    if commands != [] {
      assert commands == [commands[0]] + commands[1..];
      QueueAddsOne(slot, commands[0], all);
      QueueAddsFresh(QueueAction(slot, commands[0]), commands[1..], all);
    }
  }

  lemma QueueAddsOne(slot: Slot, command: ActionCommand, all: seq<ActionCommand>)
    requires StrictlyAscending(slot.pending) && StrictlyAscending(all) && |all| <= MAX_PENDING_ACTIONS
    requires forall c :: c in slot.pending ==> c in all
    requires InWindow(slot.player.lastAckedActionSequence, command.sequence) ==> command in all
    ensures var q := QueueAction(slot, command);
            && q == slot.(pending := q.pending) && StrictlyAscending(q.pending)
            && forall c :: c in q.pending <==>
                 c in slot.pending
                 || (c == command && InWindow(slot.player.lastAckedActionSequence, command.sequence))
  {
    if InWindow(slot.player.lastAckedActionSequence, command.sequence) {
      if HasSequence(slot.pending, command.sequence) {
        var i :| 0 <= i < |slot.pending| && slot.pending[i].sequence == command.sequence;
        SameSequenceSameCommand(all, slot.pending[i], command);
      } else {
        InsertKeepsOrder(slot.pending, command);
        InsertHasElements(slot.pending, command);
        SubsetIsShort(InsertBySequence(slot.pending, command), all);
        InsertKeepsContents(slot.pending, command);
      }
    }
  }

  lemma SameSequenceSameCommand(all: seq<ActionCommand>, c: ActionCommand, d: ActionCommand)
    requires StrictlyAscending(all) && c in all && d in all && c.sequence == d.sequence
    ensures c == d
  {
  }

  lemma {:induction false} BatchMerges(slot: Slot, inputs: seq<Input>, batch: set<Input>, all: seq<ActionCommand>)
    requires StrictlyAscending(slot.pending) && batch == Batch(inputs) && Coherent(slot, batch, all)
    ensures Merged(slot, batch, SubmitAll(slot, inputs))
    decreases |inputs|
  {
    if inputs != [] {
      var n := |inputs| - 1;
      var front, last := Batch(inputs[..n]), inputs[n];
      assert inputs == inputs[..n] + [last];
      assert batch == front + {last};
      assert forall c :: Offers(slot, front, c) ==> Offers(slot, batch, c);
      BatchMerges(slot, inputs[..n], front, all);
      OneMoreMerges(slot, front, SubmitAll(slot, inputs[..n]), last, all);
    }
  }

  lemma OneMoreMerges(slot: Slot, front: set<Input>, mid: Slot, last: Input, all: seq<ActionCommand>)
    requires Merged(slot, front, mid) && Coherent(slot, front + {last}, all)
    ensures Merged(slot, front + {last}, SubmitSlot(mid, last))
  {
    var batch := front + {last};
    forall c | c in mid.pending ensures c in all {
      assert c in slot.pending || Offers(slot, batch, c);
    }
    if last.tick != 0 {
      AcceptedMerges(slot, front, mid, last, all);
    } else {
      forall c ensures Offers(slot, batch, c) <==> Offers(slot, front, c) {
        OfferedByOneMore(slot, front, last, c);
      }
    }
  }

  lemma AcceptedMerges(slot: Slot, front: set<Input>, mid: Slot, last: Input, all: seq<ActionCommand>)
    requires Merged(slot, front, mid) && Coherent(slot, front + {last}, all) && last.tick != 0
    requires forall c :: c in mid.pending ==> c in all
    ensures AcceptsTick(mid, last.tick) && Merged(slot, front + {last}, SubmitSlot(mid, last))
  {
    var batch, recorded, commands := front + {last}, RecordMovement(mid, last), Truncated(last.actions);
    assert last in batch;
    forall c | c in commands && InWindow(slot.player.lastAckedActionSequence, c.sequence)
      ensures c in all
    {
      assert Offers(slot, batch, c);
    }
    QueueAddsFresh(recorded, commands, all);
    QueueFrame(recorded, commands);
    NewestIsKept(slot, front, mid, last);
    forall c
      ensures c in QueueActions(recorded, commands).pending <==> c in slot.pending || Offers(slot, batch, c)
    {
      OfferedByOneMore(slot, front, last, c);
    }
  }

  lemma OfferedByOneMore(slot: Slot, front: set<Input>, last: Input, c: ActionCommand)
    ensures Offers(slot, front + {last}, c) <==>
            Offers(slot, front, c)
            || (InWindow(slot.player.lastAckedActionSequence, c.sequence) && last.tick != 0
                && c in Truncated(last.actions))
  {
    var batch := front + {last};
    if Offers(slot, front, c) {
      var i :| i in front && i.tick != 0 && c in Truncated(i.actions);
      assert i in batch;
    }
    if InWindow(slot.player.lastAckedActionSequence, c.sequence) && last.tick != 0 && c in Truncated(last.actions) {
      assert last in batch;
    }
  }

  lemma NewestIsKept(slot: Slot, front: set<Input>, mid: Slot, last: Input)
    requires NewestMovement(slot, front, mid)
    ensures NewestMovement(slot, front + {last}, RecordMovement(mid, last))
  {
    var batch, after := front + {last}, RecordMovement(mid, last);
    if last.tick > mid.lastInputTick {
      assert last in batch;
    } else if mid.lastInputTick > slot.lastInputTick {
      var i :| i in front && i.tick == mid.lastInputTick
               && mid.input == Input(i.tick, ClampAxis(i.moveX), ClampAxis(i.moveY), []);
      assert i in batch;
    }
  }

  /**
   Two deliveries of the same set of inputs, in any order and with any repetitions, leave the same slot behind:
   `all` lists the commands that are pending or offered, of which there must be at most eight and one per sequence
   number.
   */
  lemma OrderAndRepetitionDoNotMatter(slot: Slot, xs: seq<Input>, ys: seq<Input>, all: seq<ActionCommand>)
    requires StrictlyAscending(slot.pending)
    requires Batch(xs) == Batch(ys) && Coherent(slot, Batch(xs), all)
    ensures SubmitAll(slot, xs) == SubmitAll(slot, ys)
  {
    BatchMerges(slot, xs, Batch(xs), all);
    BatchMerges(slot, ys, Batch(ys), all);
    MergedIsUnique(slot, Batch(xs), all, SubmitAll(slot, xs), SubmitAll(slot, ys));
  }

  // ---------------------------------------------------------------- both players

  /** The inputs one player receives in a round, in order. */
  function InputsFor(round: seq<Event>, id: string): seq<Input> {
    if round == [] then []
    else
      var front, last := InputsFor(round[..|round| - 1], id), round[|round| - 1];
      if last.Deliver? && last.id == id then front + [last.input] else front
  }

  ghost predicate OnlyInputs(round: seq<Event>) {
    forall e :: e in round ==> e.Deliver?
  }

  /** Between two ticks, the two players' inputs do not interact, however they are interleaved. */
  lemma {:induction false} RoundSplits(s: State, round: seq<Event>)
    requires OnlyInputs(round) && s.a.player.id != s.b.player.id
    ensures Run(s, round) == s.(a := SubmitAll(s.a, InputsFor(round, s.a.player.id)),
                                b := SubmitAll(s.b, InputsFor(round, s.b.player.id)))
    ensures Run(s, round).a.player == s.a.player && Run(s, round).b.player == s.b.player
    decreases |round|
  {
    if round != [] {
      var before, last := round[..|round| - 1], round[|round| - 1];
      assert last in round;
      RoundSplits(s, before);
      SubmitFrame(Run(s, before).a, last.input);
      SubmitFrame(Run(s, before).b, last.input);
    }
  }

  /**
   Whatever order the room's loop picks the queued inputs of both players in, the next tick starts from the same
   state.
   */
  lemma LoopOrderDoesNotMatter(s: State, xs: seq<Event>, ys: seq<Event>, allA: seq<ActionCommand>,
                               allB: seq<ActionCommand>)
    requires s.a.player.id != s.b.player.id && OnlyInputs(xs) && OnlyInputs(ys)
    requires StrictlyAscending(s.a.pending) && StrictlyAscending(s.b.pending)
    requires Batch(InputsFor(xs, s.a.player.id)) == Batch(InputsFor(ys, s.a.player.id))
    requires Batch(InputsFor(xs, s.b.player.id)) == Batch(InputsFor(ys, s.b.player.id))
    requires Coherent(s.a, Batch(InputsFor(xs, s.a.player.id)), allA)
    requires Coherent(s.b, Batch(InputsFor(xs, s.b.player.id)), allB)
    ensures Run(s, xs) == Run(s, ys)
  {
    RoundSplits(s, xs);
    RoundSplits(s, ys);
    OrderAndRepetitionDoNotMatter(s.a, InputsFor(xs, s.a.player.id), InputsFor(ys, s.a.player.id), allA);
    OrderAndRepetitionDoNotMatter(s.b, InputsFor(xs, s.b.player.id), InputsFor(ys, s.b.player.id), allB);
  }
}
