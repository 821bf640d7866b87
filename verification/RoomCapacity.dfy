/**
 When the eight places of the queue make the order of inputs show. Commands are turned away only for lack of a place,
 so fresh commands leave the same queue in every order exactly if there is a place for each of them, or for none.
 */
module RoomCapacity {
  import opened RoomModel
  import opened CommandOrder
  import opened RoomSlots
  import opened RoomCommands

  // ---------------------------------------------------------------- what a delivery carries

  /** All commands of the inputs, in order, as far as the room reads them. */
  function Carried(inputs: seq<Input>): seq<ActionCommand> {
    if inputs == [] then []
    else Carried(inputs[..|inputs| - 1]) + Truncated(inputs[|inputs| - 1].actions)
  }

  /** Every input passes the tick guard when its turn comes. */
  ghost predicate AllAccepted(slot: Slot, inputs: seq<Input>)
    decreases |inputs|
  {
    inputs != [] ==>
      var n := |inputs| - 1;
      AllAccepted(slot, inputs[..n]) && AcceptsTick(SubmitAll(slot, inputs[..n]), inputs[n].tick)
  }

  lemma {:induction false} QueueAppend(slot: Slot, xs: seq<ActionCommand>, ys: seq<ActionCommand>)
    ensures QueueActions(slot, xs + ys) == QueueActions(QueueActions(slot, xs), ys)
    decreases |xs|
  {
    if xs == [] {
      assert xs + ys == ys;
    } else {
      assert (xs + ys)[0] == xs[0] && (xs + ys)[1..] == xs[1..] + ys;
      QueueAppend(QueueAction(slot, xs[0]), xs[1..], ys);
    }
  }

  /** Queueing looks at the acknowledgement and the queue only. */
  lemma {:induction false} QueueIgnoresMovement(x: Slot, y: Slot, commands: seq<ActionCommand>)
    requires x.player == y.player && x.pending == y.pending
    ensures QueueActions(x, commands).pending == QueueActions(y, commands).pending
    decreases |commands|
  {
    if commands != [] {
      QueueIgnoresMovement(QueueAction(x, commands[0]), QueueAction(y, commands[0]), commands[1..]);
    }
  }

  lemma {:induction false} DeliveryIsQueueing(slot: Slot, inputs: seq<Input>)
    requires AllAccepted(slot, inputs)
    ensures SubmitAll(slot, inputs).pending == QueueActions(slot, Carried(inputs)).pending
    ensures SubmitAll(slot, inputs).player == slot.player
    decreases |inputs|
  {
    if inputs != [] {
      var n := |inputs| - 1;
      var mid, queued, commands := SubmitAll(slot, inputs[..n]), QueueActions(slot, Carried(inputs[..n])),
                                   Truncated(inputs[n].actions);
      DeliveryIsQueueing(slot, inputs[..n]);
      SubmitFrame(mid, inputs[n]);
      QueueFrame(slot, Carried(inputs[..n]));
      QueueIgnoresMovement(RecordMovement(mid, inputs[n]), queued, commands);
      QueueAppend(slot, Carried(inputs[..n]), commands);
    }
  }

  // ---------------------------------------------------------------- who gets a place

  /** Commands the slot would queue if it had room: in the window, not pending, one per sequence number. */
  ghost predicate FreshFor(slot: Slot, news: set<ActionCommand>) {
    && (forall c :: c in news ==>
          InWindow(slot.player.lastAckedActionSequence, c.sequence) && !HasSequence(slot.pending, c.sequence))
    && (forall c, d :: c in news && d in news && c.sequence == d.sequence ==> c == d)
  }

  /** `after` is `before` with the commands `placed` in its queue. */
  ghost predicate Placed(before: Slot, after: Slot, news: set<ActionCommand>, placed: set<ActionCommand>) {
    && after.player == before.player && placed <= news
    && StrictlyAscending(after.pending) && |after.pending| <= MAX_PENDING_ACTIONS
    && (forall c :: c in after.pending <==> c in before.pending || c in placed)
    && |after.pending| == |before.pending| + |placed|
  }

  lemma PendingHasSequence(commands: seq<ActionCommand>, c: ActionCommand)
    requires c in commands
    ensures HasSequence(commands, c.sequence)
  {
    var i :| 0 <= i < |commands| && commands[i] == c;
  }

  lemma NotQueuedYet(before: Slot, after: Slot, news: set<ActionCommand>, placed: set<ActionCommand>, c: ActionCommand)
    requires FreshFor(before, news) && Placed(before, after, news, placed) && c in news && c !in placed
    ensures !HasSequence(after.pending, c.sequence)
  {
    if HasSequence(after.pending, c.sequence) {
      var i :| 0 <= i < |after.pending| && after.pending[i].sequence == c.sequence;
      var d := after.pending[i];
      assert d in before.pending || d in placed;
      if d in before.pending {
        PendingHasSequence(before.pending, d);
      }
    }
  }

  lemma InsertPlaces(before: Slot, after: Slot, news: set<ActionCommand>, placed: set<ActionCommand>, c: ActionCommand)
    requires Placed(before, after, news, placed) && c in news && c !in placed && !HasSequence(after.pending, c.sequence)
    requires |after.pending| < MAX_PENDING_ACTIONS
    ensures Placed(before, after.(pending := InsertBySequence(after.pending, c)), news, placed + {c})
  {
    InsertKeepsOrder(after.pending, c);
    InsertKeepsContents(after.pending, c);
    InsertHasElements(after.pending, c);
  }

  /** A command that is not placed yet gets a place if there is one. */
  lemma PlaceOne(before: Slot, after: Slot, news: set<ActionCommand>, placed: set<ActionCommand>, c: ActionCommand)
    returns (more: set<ActionCommand>)
    requires FreshFor(before, news) && Placed(before, after, news, placed) && c in news
    ensures Placed(before, QueueAction(after, c), news, more) && placed <= more
    ensures c in more || |QueueAction(after, c).pending| == |after.pending| == MAX_PENDING_ACTIONS
  {
    more := placed;
    if c in placed {
      PendingHasSequence(after.pending, c);
    } else {
      NotQueuedYet(before, after, news, placed, c);
      if |after.pending| < MAX_PENDING_ACTIONS {
        more := placed + {c};
        InsertPlaces(before, after, news, placed, c);
      }
    }
  }

  lemma HeadAndTail(commands: seq<ActionCommand>, c: ActionCommand)
    requires commands != []
    ensures c in commands <==> c == commands[0] || c in commands[1..]
  {
    assert commands == [commands[0]] + commands[1..];
  }

  /** Commands get places first come, first served, until they are all placed or the queue is full. */
  lemma {:induction false} PlaceAll(before: Slot, after: Slot, news: set<ActionCommand>, placed: set<ActionCommand>,
                                    commands: seq<ActionCommand>)
    returns (all: set<ActionCommand>)
    requires FreshFor(before, news) && Placed(before, after, news, placed)
    requires forall c :: c in commands ==> c in news
    ensures Placed(before, QueueActions(after, commands), news, all) && placed <= all
    ensures (forall c :: c in commands ==> c in all) || |QueueActions(after, commands).pending| == MAX_PENDING_ACTIONS
    ensures commands != [] && |after.pending| < MAX_PENDING_ACTIONS ==> commands[0] in all
    decreases |commands|
  {
    if commands == [] {
      all := placed;
    } else {
      var c, rest, next := commands[0], commands[1..], QueueAction(after, commands[0]);
      forall d ensures d in commands <==> d == c || d in rest {
        HeadAndTail(commands, d);
      }
      var more := PlaceOne(before, after, news, placed, c);
      all := PlaceAll(before, next, news, more, rest);
      if c !in more {
        StaysFull(next, rest);
      }
    }
  }

  lemma {:induction false} StaysFull(slot: Slot, commands: seq<ActionCommand>)
    requires |slot.pending| >= MAX_PENDING_ACTIONS
    ensures QueueActions(slot, commands) == slot
    decreases |commands|
  {
    if commands != [] {
      StaysFull(slot, commands[1..]);
    }
  }

  // ---------------------------------------------------------------- the capacity condition

  /** The inputs are all accepted, and carry exactly these commands. */
  ghost predicate Delivers(slot: Slot, inputs: seq<Input>, news: set<ActionCommand>) {
    AllAccepted(slot, inputs) && forall c :: c in Carried(inputs) <==> c in news
  }

  /** However the commands are put into inputs, ordered and repeated, the same queue is left behind. */
  ghost predicate OrderIsInvisible(slot: Slot, news: set<ActionCommand>) {
    forall xs, ys :: Delivers(slot, xs, news) && Delivers(slot, ys, news) ==>
      SubmitAll(slot, xs).pending == SubmitAll(slot, ys).pending
  }

  /** A place for each of the commands, or for none. */
  predicate NoneOrAllFit(slot: Slot, news: set<ActionCommand>) {
    |slot.pending| == MAX_PENDING_ACTIONS || |slot.pending| + |news| <= MAX_PENDING_ACTIONS
  }

  lemma DeliveryPlaces(slot: Slot, inputs: seq<Input>, news: set<ActionCommand>) returns (placed: set<ActionCommand>)
    requires QueueSafe(slot) && FreshFor(slot, news) && Delivers(slot, inputs, news)
    ensures var t := SubmitAll(slot, inputs);
            && Placed(slot, t, news, placed) && (placed == news || |t.pending| == MAX_PENDING_ACTIONS)
    ensures Carried(inputs) != [] && |slot.pending| < MAX_PENDING_ACTIONS ==> Carried(inputs)[0] in placed
  {
    DeliveryIsQueueing(slot, inputs);
    placed := PlaceAll(slot, slot, news, {}, Carried(inputs));
    QueueFrame(slot, Carried(inputs));
  }

  lemma WholeIfAsLarge(part: set<ActionCommand>, whole: set<ActionCommand>)
    requires part <= whole && |part| >= |whole|
    ensures part == whole
  {
    assert whole == part + (whole - part);
  }

  lemma FittingOrderIsInvisible(slot: Slot, news: set<ActionCommand>, xs: seq<Input>, ys: seq<Input>)
    requires QueueSafe(slot) && FreshFor(slot, news) && NoneOrAllFit(slot, news)
    requires Delivers(slot, xs, news) && Delivers(slot, ys, news)
    ensures SubmitAll(slot, xs).pending == SubmitAll(slot, ys).pending
  {
    var ps := DeliveryPlaces(slot, xs, news);
    var qs := DeliveryPlaces(slot, ys, news);
    if |slot.pending| < MAX_PENDING_ACTIONS {
      WholeIfAsLarge(ps, news);
      WholeIfAsLarge(qs, news);
    }
    ElementsDetermineOrder(SubmitAll(slot, xs).pending, SubmitAll(slot, ys).pending);
  }

  /** One input for each command, all on the first tick. */
  function OneByOne(commands: seq<ActionCommand>): seq<Input> {
    seq(|commands|, i requires 0 <= i < |commands| => Input(1, 0, 0, [commands[i]]))
  }

  lemma {:induction false} OneByOneIsAccepted(slot: Slot, commands: seq<ActionCommand>)
    requires TickHorizon(slot) != 0
    ensures AllAccepted(slot, OneByOne(commands)) && Carried(OneByOne(commands)) == commands
    ensures var t := SubmitAll(slot, OneByOne(commands)).lastInputTick; t == slot.lastInputTick || t == 1
    decreases |commands|
  {
    if commands != [] {
      var n := |commands| - 1;
      assert OneByOne(commands)[..n] == OneByOne(commands[..n]);
      OneByOneIsAccepted(slot, commands[..n]);
      SubmitFrame(SubmitAll(slot, OneByOne(commands[..n])), OneByOne(commands)[n]);
      OneMoreTick(SubmitAll(slot, OneByOne(commands[..n])), commands[n]);
      assert commands == commands[..n] + [commands[n]];
    }
  }

  lemma OneMoreTick(slot: Slot, command: ActionCommand)
    ensures var t := SubmitSlot(slot, Input(1, 0, 0, [command])).lastInputTick; t == slot.lastInputTick || t == 1
  {
    QueueFrame(RecordMovement(slot, Input(1, 0, 0, [command])), [command]);
  }

  lemma {:induction false} Listing(news: set<ActionCommand>) returns (commands: seq<ActionCommand>)
    ensures forall c :: c in commands <==> c in news
    decreases |news|
  {
    if news == {} {
      commands := [];
    } else {
      var c :| c in news;
      var rest := Listing(news - {c});
      commands := [c] + rest;
    }
  }

  /** Whoever comes first gets a place, if there is one. */
  lemma FirstIsPlaced(slot: Slot, news: set<ActionCommand>, commands: seq<ActionCommand>)
    requires QueueSafe(slot) && FreshFor(slot, news) && TickHorizon(slot) != 0 && |slot.pending| < MAX_PENDING_ACTIONS
    requires commands != [] && forall c :: c in commands <==> c in news
    ensures Delivers(slot, OneByOne(commands), news) && commands[0] in SubmitAll(slot, OneByOne(commands)).pending
  {
    OneByOneIsAccepted(slot, commands);
    var placed := DeliveryPlaces(slot, OneByOne(commands), news);
  }

  /** With too few places somebody is left without one. */
  lemma SomebodyIsLeftOut(slot: Slot, news: set<ActionCommand>, commands: seq<ActionCommand>)
    returns (late: ActionCommand)
    requires QueueSafe(slot) && FreshFor(slot, news) && TickHorizon(slot) != 0 && !NoneOrAllFit(slot, news)
    requires forall c :: c in commands <==> c in news
    ensures Delivers(slot, OneByOne(commands), news)
    ensures late in news && late !in SubmitAll(slot, OneByOne(commands)).pending
  {
    OneByOneIsAccepted(slot, commands);
    var placed := DeliveryPlaces(slot, OneByOne(commands), news);
    assert placed != news;
    late :| late in news && late !in placed;
    if late in slot.pending {
      PendingHasSequence(slot.pending, late);
    }
  }

  /** With some places but too few, whoever is left without one could have come first. */
  lemma TooFewPlacesShow(slot: Slot, news: set<ActionCommand>)
    requires QueueSafe(slot) && FreshFor(slot, news) && !NoneOrAllFit(slot, news) && TickHorizon(slot) != 0
    ensures !OrderIsInvisible(slot, news)
  {
    var commands := Listing(news);
    var late := SomebodyIsLeftOut(slot, news, commands);
    FirstIsPlaced(slot, news, [late] + commands);
  }

  /**
   For every queue the room can have, and every set of fresh commands, of a slot that accepts inputs at all: the order
   in which they arrive is invisible exactly if each of them finds a place, or none does.
   */
  lemma OrderIsInvisibleIff(slot: Slot, news: set<ActionCommand>)
    requires QueueSafe(slot) && FreshFor(slot, news) && TickHorizon(slot) != 0
    ensures OrderIsInvisible(slot, news) <==> NoneOrAllFit(slot, news)
  {
    if NoneOrAllFit(slot, news) {
      forall xs, ys | Delivers(slot, xs, news) && Delivers(slot, ys, news)
        ensures SubmitAll(slot, xs).pending == SubmitAll(slot, ys).pending
      {
        FittingOrderIsInvisible(slot, news, xs, ys);
      }
    } else {
      TooFewPlacesShow(slot, news);
    }
  }

  lemma OnlyTheFirst(slot: Slot, c: ActionCommand, d: ActionCommand)
    requires QueueSafe(slot) && FreshFor(slot, {c, d}) && c != d && TickHorizon(slot) != 0
    requires |slot.pending| == MAX_PENDING_ACTIONS - 1
    ensures var t := SubmitAll(slot, OneByOne([c, d])); c in t.pending && d !in t.pending
  {
    OneByOneIsAccepted(slot, [c, d]);
    var placed := DeliveryPlaces(slot, OneByOne([c, d]), {c, d});
    assert d in placed ==> placed == {c, d};
    if d in slot.pending {
      PendingHasSequence(slot.pending, d);
    }
  }

  /** The smallest case: with one place left, the first of two inputs takes it. */
  lemma NinthCommandDependsOnOrder(slot: Slot, c: ActionCommand, d: ActionCommand)
    requires QueueSafe(slot) && FreshFor(slot, {c, d}) && c != d && TickHorizon(slot) != 0
    requires |slot.pending| == MAX_PENDING_ACTIONS - 1
    ensures SubmitAll(slot, OneByOne([c, d])) != SubmitAll(slot, OneByOne([d, c]))
  {
    OnlyTheFirst(slot, c, d);
    assert {d, c} == {c, d};
    OnlyTheFirst(slot, d, c);
  }
}
