/**
 The loop that owns a room. A player's session offers inputs to a bounded channel; the loop chooses freely between
 a queued input, a tick and a cancellation, and drains the channel before it ticks. None of these choices shows:
 the loop refines one that hands every accepted input to the room at once.
 */
module RoomLoop {
  import opened RoomModel
  import R = Room

  /** `room.TickRate * 4` */
  const INPUT_CAPACITY := 120

  // ---------------------------------------------------------------- what a session offers

  datatype QueuedInput = QueuedInput(playerID: string, input: Input)

  /** A decoded client message; its axes are wider than the room's. */
  datatype ClientInput = ClientInput(tick: U32, moveX: I32, moveY: I32, actions: seq<ActionCommand>)

  function ClampProtoAxis(axis: I32): I8 {
    if axis < -1 then -1 else if axis > 1 then 1 else axis
  }

  /** The session copies at most eight commands, one by one. */
  method CopyActions(commands: seq<ActionCommand>) returns (actions: seq<ActionCommand>)
    ensures actions == Truncated(commands)
  {
    actions := [];
    for n := 0 to |commands|
      invariant n <= MAX_PENDING_ACTIONS && actions == commands[..n]
    {
      if |actions| == MAX_PENDING_ACTIONS {
        break;
      }
      actions := actions + [commands[n]];
    }
  }

  function Admitted(input: ClientInput): Input {
    Input(input.tick, ClampProtoAxis(input.moveX), ClampProtoAxis(input.moveY), Truncated(input.actions))
  }

  predicate SameDirection(x: int, axis: int) {
    (x < 0 <==> axis < 0) && (x > 0 <==> axis > 0)
  }

  /**
   What the session cuts off, the room would have cut off as well: any 8-bit axes of the same direction, in particular
   the client's own if they fit, lead to the same slot.
   */
  lemma AdmissionIsTransparent(slot: Slot, input: ClientInput, x: I8, y: I8)
    requires SameDirection(x, input.moveX) && SameDirection(y, input.moveY)
    ensures SubmitSlot(slot, Admitted(input)) == SubmitSlot(slot, Input(input.tick, x, y, input.actions))
  {
    assert Truncated(Truncated(input.actions)) == Truncated(input.actions);
  }

  // ---------------------------------------------------------------- the loop on values

  /** `listening` is false once the closed channel has been seen empty; `slot` is the snapshot channel. */
  datatype LoopState = LoopState(room: State, queued: seq<QueuedInput>, closed: bool, listening: bool,
                                 slot: Option<Snapshot>, running: bool)

  function NewLoopState(room: State): LoopState {
    LoopState(room, [], false, true, None, true)
  }

  /**
   What can happen: an input is offered, the input channel is closed, the broadcaster takes a snapshot, or the loop's
   `select` picks one of its branches. `unlucky` says how the wait for a terminal publication would end if the
   match is cancelled.
   */
  datatype Moment =
    | Offer(offered: QueuedInput) | CloseInputs | TakeSnapshot
    | PickInput | PickTick(unlucky: bool) | PickDone | PickTicksClosed

  predicate Accepts(l: LoopState) {
    !l.closed && |l.queued| < INPUT_CAPACITY
  }

  function AsEvents(queued: seq<QueuedInput>): seq<Event> {
    seq(|queued|, i requires 0 <= i < |queued| => Deliver(queued[i].playerID, queued[i].input))
  }

  function Drained(l: LoopState): LoopState {
    if l.listening then l.(room := RoomModel.Run(l.room, AsEvents(l.queued)), queued := [], listening := !l.closed)
    else l
  }

  /** The slot after a publication: the new snapshot, unless a full slot and a cancellation made the loop give up. */
  function Published(slot: Option<Snapshot>, shot: Snapshot, unlucky: bool): Option<Snapshot> {
    if slot.Some? && shot.status == MatchFinished && unlucky then None else Some(shot)
  }

  function Ticked(l: LoopState, unlucky: bool): LoopState {
    var d := Drained(l);
    var room := RoomModel.Step(d.room);
    var slot := Published(d.slot, SnapshotOf(room), unlucky);
    d.(room := room, slot := slot, running := slot.Some? && room.status != MatchFinished)
  }

  function Next(l: LoopState, moment: Moment): LoopState {
    match moment
    case Offer(offered) => if Accepts(l) then l.(queued := l.queued + [offered]) else l
    case CloseInputs => l.(closed := true)
    case TakeSnapshot => l.(slot := None)
    case PickInput =>
      if !l.running || !l.listening then l
      else if l.queued != [] then
        l.(room := Submit(l.room, l.queued[0].playerID, l.queued[0].input), queued := l.queued[1..])
      else if l.closed then l.(listening := false)
      else l
    case PickTick(unlucky) => if l.running then Ticked(l, unlucky) else l
    case PickDone => l.(running := false)
    case PickTicksClosed => l.(running := false)
  }

  function After(l: LoopState, schedule: seq<Moment>): LoopState
    decreases |schedule|
  {
    if schedule == [] then l else After(Next(l, schedule[0]), schedule[1..])
  }

  // ---------------------------------------------------------------- the loop as it runs

  class Loop {
    const room: R.Room
    var queued: seq<QueuedInput>
    var closed: bool
    var listening: bool
    var slot: Option<Snapshot>
    var running: bool

    ghost function Value(): LoopState
      requires room.Valid()
      reads this, room
    {
      LoopState(room.Value(), queued, closed, listening, slot, running)
    }

    constructor (room: R.Room)
      requires room.Valid()
      ensures this.room == room && Value() == NewLoopState(room.Value())
    {
      this.room := room;
      queued, closed, listening, slot, running := [], false, true, None, true;
    }

    method Run(schedule: seq<Moment>)
      requires room.Valid()
      modifies this, room
      ensures room.Valid() && Value() == After(old(Value()), schedule)
    {
      for n := 0 to |schedule|
        invariant room.Valid() && After(Value(), schedule[n..]) == After(old(Value()), schedule)
      {
        assert schedule[n..][0] == schedule[n] && schedule[n..][1..] == schedule[n + 1..];
        Handle(schedule[n]);
      }
    }

    method Handle(moment: Moment)
      requires room.Valid()
      modifies this, room
      ensures room.Valid() && Value() == Next(old(Value()), moment)
    {
      match moment
      case Offer(offered) =>
        if !closed && |queued| < INPUT_CAPACITY {
          queued := queued + [offered];
        }
      case CloseInputs => closed := true;
      case TakeSnapshot => slot := None;
      case PickInput =>
        if running && listening {
          ReceiveInput();
        }
      case PickTick(unlucky) =>
        if running {
          Tick(unlucky);
        }
      case PickDone => running := false;
      case PickTicksClosed => running := false;
    }

    /** The input branch of the loop's `select`. */
    method ReceiveInput()
      requires room.Valid() && listening
      modifies `queued, `listening, room
      ensures room.Valid()
      ensures Value() == Next(old(Value()).(running := true), PickInput).(running := running)
    {
      if queued != [] {
        var next := queued[0];
        queued := queued[1..];
        var _ := room.SubmitInput(next.playerID, next.input);
      } else if closed {
        listening := false;
      }
    }

    method DrainInputs()
      requires room.Valid()
      modifies `queued, `listening, room
      ensures room.Valid() && Value() == Drained(old(Value()))
    {
      ghost var all, start := queued, room.Value();
      ghost var done := 0;
      while listening
        invariant done <= |all| && room.Valid()
        invariant listening ==> queued == all[done..] && room.Value() == RoomModel.Run(start, AsEvents(all[..done]))
        invariant old(listening) && !listening ==>
                    closed && queued == [] && room.Value() == RoomModel.Run(start, AsEvents(all))
        invariant !old(listening) ==> queued == all && room.Value() == start && !listening
        decreases if listening then 1 + |queued| else 0
      {
        if queued != [] {
          var next := queued[0];
          DeliverNext(start, all, done);
          queued := queued[1..];
          var _ := room.SubmitInput(next.playerID, next.input);
          done := done + 1;
        } else if closed {
          assert all[..done] == all;
          listening := false;
        } else {
          assert all[..done] == all;
          break;
        }
      }
    }

    /** The tick branch: drain, step, publish. */
    method Tick(unlucky: bool)
      requires room.Valid()
      modifies this, room
      ensures room.Valid() && Value() == Ticked(old(Value()), unlucky)
    {
      DrainInputs();
      var snapshot := room.Step();
      var published := Publish(snapshot, unlucky);
      running := published && snapshot.status != MatchFinished;
    }

    method Publish(snapshot: Snapshot, unlucky: bool) returns (published: bool)
      modifies `slot
      ensures slot == Published(old(slot), snapshot, unlucky) && published == slot.Some?
    {
      if slot.None? {
        slot := Some(snapshot);
        return true;
      }
      slot := None;
      if snapshot.status == MatchFinished {
        if unlucky {
          return false;
        }
        slot := Some(snapshot);
        return true;
      }
      slot := Some(snapshot);
      return true;
    }
  }

  lemma DeliverNext(start: State, all: seq<QueuedInput>, done: nat)
    requires done < |all|
    ensures RoomModel.Run(start, AsEvents(all[..done + 1]))
         == Submit(RoomModel.Run(start, AsEvents(all[..done])), all[done].playerID, all[done].input)
  {
    var events := AsEvents(all[..done + 1]);
    assert events[..done] == AsEvents(all[..done]);
  }

  // ---------------------------------------------------------------- the choices do not show

  /** A loop without a queue: whatever is accepted reaches the room at once. */
  datatype Direct = Direct(room: State, slot: Option<Snapshot>, running: bool)

  function DirectNext(d: Direct, moment: Moment): Direct {
    match moment
    case Offer(offered) => d.(room := Submit(d.room, offered.playerID, offered.input))
    case TakeSnapshot => d.(slot := None)
    case PickTick(unlucky) =>
      if d.running then
        var room := RoomModel.Step(d.room);
        var givenUp := d.slot.Some? && room.status == MatchFinished && unlucky;
        Direct(room, if givenUp then None else Some(SnapshotOf(room)), room.status != MatchFinished)
      else d
    case PickDone => d.(running := false)
    case PickTicksClosed => d.(running := false)
    case _ => d
  }

  function DirectAfter(d: Direct, moments: seq<Moment>): Direct
    decreases |moments|
  {
    if moments == [] then d else DirectAfter(DirectNext(d, moments[0]), moments[1..])
  }

  /** The channel is open and holds fewer than the 120 inputs it has room for. */
  predicate HasRoom(l: LoopState) {
    !l.closed && |l.queued| < 120
  }

  /** The moments that matter: offers that found room, ticks, takes and stops, but not the picked inputs. */
  function Visible(l: LoopState, schedule: seq<Moment>): seq<Moment>
    decreases |schedule|
  {
    if schedule == [] then []
    else
      var rest := Visible(Next(l, schedule[0]), schedule[1..]);
      match schedule[0]
      case Offer(_) => if HasRoom(l) then [schedule[0]] + rest else rest
      case PickInput => rest
      case CloseInputs => rest
      case _ => [schedule[0]] + rest
  }

  /** What the loop amounts to once everything queued has been submitted. */
  function Settled(l: LoopState): Direct {
    Direct(RoomModel.Run(l.room, AsEvents(l.queued)), l.slot, l.running)
  }

  ghost predicate Sane(l: LoopState) {
    !l.listening ==> l.closed && l.queued == []
  }

  lemma {:induction false} RunFromFirst(s: State, events: seq<Event>)
    requires events != []
    ensures RoomModel.Run(s, events) == RoomModel.Run(Apply(s, events[0]), events[1..])
    decreases |events|
  {
    if |events| == 1 {
      assert events[..0] == [] && events[1..] == [];
    } else {
      var before := events[..|events| - 1];
      RunFromFirst(s, before);
      assert before[1..] == events[1..][..|events| - 2];
    }
  }

  lemma OfferSettles(l: LoopState, offered: QueuedInput)
    ensures RoomModel.Run(l.room, AsEvents(l.queued + [offered]))
         == Submit(RoomModel.Run(l.room, AsEvents(l.queued)), offered.playerID, offered.input)
  {
    var all := l.queued + [offered];
    assert all[..|l.queued|] == l.queued && all[..|l.queued| + 1] == all;
    DeliverNext(l.room, all, |l.queued|);
  }

  lemma PickSettles(l: LoopState)
    requires l.queued != []
    ensures RoomModel.Run(l.room, AsEvents(l.queued))
         == RoomModel.Run(Submit(l.room, l.queued[0].playerID, l.queued[0].input), AsEvents(l.queued[1..]))
  {
    RunFromFirst(l.room, AsEvents(l.queued));
    assert AsEvents(l.queued)[1..] == AsEvents(l.queued[1..]);
  }

  lemma TickSettles(l: LoopState, unlucky: bool)
    requires Sane(l) && l.running
    ensures Settled(Ticked(l, unlucky)) == DirectNext(Settled(l), PickTick(unlucky))
    ensures Ticked(l, unlucky).queued == [] && Sane(Ticked(l, unlucky))
  {
  }

  lemma MomentSettles(l: LoopState, moment: Moment)
    requires Sane(l)
    ensures Sane(Next(l, moment))
    ensures Settled(Next(l, moment))
         == if moment.PickInput? || moment.CloseInputs? || (moment.Offer? && !HasRoom(l)) then Settled(l)
            else DirectNext(Settled(l), moment)
  {
    match moment
    case Offer(offered) => OfferSettles(l, offered);
    case PickInput => if l.running && l.listening && l.queued != [] { PickSettles(l); }
    case PickTick(unlucky) => if l.running { TickSettles(l, unlucky); }
    case _ =>
  }

  /**
   The loop refines the direct one: whichever branches `select` picks, and in whichever order, room, snapshot and
   end are those of submitting every accepted input the moment it was accepted.
   */
  lemma {:induction false} LoopIsDirect(l: LoopState, schedule: seq<Moment>)
    requires Sane(l)
    ensures Settled(After(l, schedule)) == DirectAfter(Settled(l), Visible(l, schedule)) && Sane(After(l, schedule))
    decreases |schedule|
  {
    if schedule != [] {
      MomentSettles(l, schedule[0]);
      LoopIsDirect(Next(l, schedule[0]), schedule[1..]);
      var rest := Visible(Next(l, schedule[0]), schedule[1..]);
      assert ([schedule[0]] + rest)[1..] == rest;
    }
  }

  lemma {:induction false} AfterOneMore(l: LoopState, schedule: seq<Moment>, moment: Moment)
    ensures After(l, schedule + [moment]) == Next(After(l, schedule), moment)
    decreases |schedule|
  {
    if schedule == [] {
      assert [moment][1..] == [];
    } else {
      assert (schedule + [moment])[0] == schedule[0] && (schedule + [moment])[1..] == schedule[1..] + [moment];
      AfterOneMore(Next(l, schedule[0]), schedule[1..], moment);
    }
  }

  /** After a tick nothing is left in the queue: the room itself is in the direct loop's state. */
  lemma TicksSeeEveryInput(room: State, schedule: seq<Moment>, unlucky: bool)
    requires After(NewLoopState(room), schedule).running
    ensures var start := NewLoopState(room); var whole := schedule + [PickTick(unlucky)];
            && After(start, whole).queued == []
            && After(start, whole).room == DirectAfter(Direct(room, None, true), Visible(start, whole)).room
  {
    var start := NewLoopState(room);
    AfterOneMore(start, schedule, PickTick(unlucky));
    LoopIsDirect(start, schedule);
    TickSettles(After(start, schedule), unlucky);
    LoopIsDirect(start, schedule + [PickTick(unlucky)]);
  }

  /** Two schedules with the same visible moments leave the room in the same state after each tick. */
  lemma SelectDoesNotMatter(room: State, xs: seq<Moment>, ys: seq<Moment>, unlucky: bool)
    requires After(NewLoopState(room), xs).running && After(NewLoopState(room), ys).running
    requires Visible(NewLoopState(room), xs + [PickTick(unlucky)])
          == Visible(NewLoopState(room), ys + [PickTick(unlucky)])
    ensures After(NewLoopState(room), xs + [PickTick(unlucky)]).room
         == After(NewLoopState(room), ys + [PickTick(unlucky)]).room
  {
    TicksSeeEveryInput(room, xs, unlucky);
    TicksSeeEveryInput(room, ys, unlucky);
  }

  // ---------------------------------------------------------------- runs of the room

  lemma ReachableGoesOn(s: State, e: Event)
    requires Reachable(s)
    ensures Reachable(Apply(s, e))
  {
    var a, b, r, events :| ReachedBy(s, a, b, r, events);
    assert (events + [e])[..|events|] == events;
    assert ReachedBy(Apply(s, e), a, b, r, events + [e]);
  }

  lemma {:induction false} ReachableRunsOn(s: State, events: seq<Event>)
    requires Reachable(s)
    ensures Reachable(RoomModel.Run(s, events))
    decreases |events|
  {
    if events != [] {
      ReachableRunsOn(s, events[..|events| - 1]);
      ReachableGoesOn(RoomModel.Run(s, events[..|events| - 1]), events[|events| - 1]);
    }
  }

  lemma ReachableAfterMoment(l: LoopState, moment: Moment)
    requires Reachable(l.room)
    ensures Reachable(Next(l, moment).room)
  {
    match moment
    case PickInput =>
      if l.queued != [] {
        ReachableGoesOn(l.room, Deliver(l.queued[0].playerID, l.queued[0].input));
      }
    case PickTick(unlucky) =>
      ReachableRunsOn(l.room, AsEvents(l.queued));
      ReachableGoesOn(Drained(l).room, Event.Tick);
    case _ =>
  }

  /** Whatever the loop does, its room is in a reachable state, so everything proved of those holds of it. */
  lemma {:induction false} LoopStaysReachable(l: LoopState, schedule: seq<Moment>)
    requires Reachable(l.room)
    ensures Reachable(After(l, schedule).room)
    decreases |schedule|
  {
    if schedule != [] {
      ReachableAfterMoment(l, schedule[0]);
      LoopStaysReachable(Next(l, schedule[0]), schedule[1..]);
    }
  }

  /** A loop that still runs has an unfinished room; one that has ticked a match to its end has stopped. */
  lemma {:induction false} RunsUntilFinished(l: LoopState, schedule: seq<Moment>)
    requires l.running ==> l.room.status != MatchFinished
    ensures After(l, schedule).running ==> After(l, schedule).room.status != MatchFinished
    decreases |schedule|
  {
    if schedule != [] {
      StillUnfinished(l, schedule[0]);
      RunsUntilFinished(Next(l, schedule[0]), schedule[1..]);
    }
  }

  lemma StillUnfinished(l: LoopState, moment: Moment)
    requires l.running ==> l.room.status != MatchFinished
    ensures Next(l, moment).running ==> Next(l, moment).room.status != MatchFinished
  {
  }
}
