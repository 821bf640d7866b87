/**
 How a match ends on the match server: the room's goroutine, the broadcaster and the two players' connection
 handlers, interleaved step by step. However they race, each player gets one and the same terminal event, and so
 does the result reporter.
 */
module TerminalOutcome {
  import opened RoomModel
  import opened RoomLifecycle
  import opened Mailbox

  datatype Reason = KnockOut | TimeLimit | Disconnect | Unspecified
  datatype MatchEnd = MatchEnd(winnerID: string, reason: Reason)

  /** The goroutine that owns the room; `Gated` until both players have acknowledged the start. */
  datatype Loop = Gated | Running | Stopped | Closed

  /** The broadcaster; `Holding` while it finalizes the room's outcome, `Closing` while it closes the channels. */
  datatype Broadcaster = Receiving | Holding(event: MatchEnd) | Closing | Done

  /**
   A connection handler: none yet (`Unclaimed`), never to come (`Discarded`), serving, finalizing a disconnect
   (`Leaving`), about to abort the match (`Left`), or gone.
   */
  datatype Handler = Unclaimed | Discarded | Connected | Leaving(event: MatchEnd) | Left | Gone

  datatype Caller = TheBroadcaster | TheHandler(side: Side)

  datatype Both<T> = Both(a: T, b: T)

  function At<T>(both: Both<T>, side: Side): T {
    if side then both.a else both.b
  }

  function Put<T>(both: Both<T>, side: Side, value: T): Both<T> {
    if side then both.(a := value) else both.(b := value)
  }

  /**
   The once-guard around `finalize`: its body runs in one caller, the others wait for it. `visited` says which players
   the loop of the body has sent to; it takes them in any order.
   */
  datatype Once = Unused | Busy(caller: Caller, event: MatchEnd, visited: Both<bool>) | Used(event: MatchEnd)

  /** One player's terminal channel of capacity 1: what was ever sent, whether it is full, whether it is closed. */
  datatype Ends = Ends(sent: seq<MatchEnd>, full: bool, closed: bool)

  datatype Match = Match(room: State, box: Box<Snapshot>, loop: Loop, broadcaster: Broadcaster, cancelled: bool,
                         once: Once, handlers: Both<Handler>, acknowledged: Both<bool>, barrierClosings: nat,
                         ends: Both<Ends>, reported: seq<MatchEnd>, roomFinalized: bool)

  function NewMatch(a: string, b: string, r: Ruleset): Match {
    Match(NewState(a, b, r), EmptyBox(), Gated, Receiving, false, Unused, Both(Unclaimed, Unclaimed),
          Both(false, false), 0, Both(Ends([], false, false), Ends([], false, false)), [], false)
  }

  function ReasonOf(reason: FinishReason): Reason {
    match reason
    case ReasonKO => KnockOut
    case ReasonTimeLimit => TimeLimit
    case ReasonNone => Reason.Unspecified
  }

  function RoomEnd(shot: Snapshot): MatchEnd {
    MatchEnd(shot.winnerID, ReasonOf(shot.finishReason))
  }

  function DisconnectEnd(room: State, loser: Side): MatchEnd {
    MatchEnd(SlotOf(room, !loser).player.id, Disconnect)
  }

  datatype Step =
    | HandOut | AbortUnclaimed
    | Acknowledge(side: Side) | PassGate | GiveUpGate
    | RoomInput(id: string, input: Input) | RoomTick | PublishOn | PublishGivenUp
    | LoopCancelled | LoopFinished | CloseRoom
    | Receive | ReceiveClosed
    | Leave(side: Side) | EnterFinalize(caller: Caller) | Send(side: Side) | LeaveFinalize | Return(caller: Caller)
    | AbortMatch(side: Side)
    | TakeEnd(side: Side) | CloseEnds(side: Side)

  /** The event a caller hands to `finalize`, if it is about to call it or inside the call. */
  function Pending(m: Match, caller: Caller): Option<MatchEnd> {
    match caller
    case TheBroadcaster => if m.broadcaster.Holding? then Some(m.broadcaster.event) else None
    case TheHandler(side) =>
      if At(m.handlers, side).Leaving? then Some(At(m.handlers, side).event) else None
  }

  predicate Enabled(m: Match, step: Step) {
    match step
    case HandOut => m.handlers == Both(Unclaimed, Unclaimed)
    case AbortUnclaimed => m.handlers == Both(Unclaimed, Unclaimed)
    case Acknowledge(side) => At(m.handlers, side) == Connected && !At(m.acknowledged, side)
    case PassGate => m.loop == Gated && m.barrierClosings > 0
    case GiveUpGate => m.loop == Gated && m.cancelled
    case RoomInput(_, _) => m.loop == Running && m.box.producer == Resting
    case RoomTick => m.loop == Running && m.box.producer == Resting && m.room.status != MatchFinished
    case PublishOn => m.loop == Running && Possible(m.box, Advance)
    case PublishGivenUp => m.loop == Running && Possible(m.box, GiveUp) && m.cancelled
    case LoopCancelled => m.loop == Running && m.box.producer == Resting && m.cancelled
    case LoopFinished => m.loop == Running && m.box.producer == Resting && m.room.status == MatchFinished
    case CloseRoom => m.loop == Stopped
    case Receive => m.broadcaster == Receiving && m.box.slot.Some? && m.box.slot.value < |m.box.produced|
    case ReceiveClosed => m.broadcaster == Receiving && m.box.slot.None? && m.loop == Closed
    case Leave(side) => At(m.handlers, side) == Connected
    case EnterFinalize(caller) => Pending(m, caller).Some? && m.once == Unused
    case Send(side) => m.once.Busy? && !At(m.once.visited, side) && !At(m.ends, side).full
    case LeaveFinalize => m.once.Busy? && m.once.visited == Both(true, true)
    case Return(caller) => Pending(m, caller).Some? && m.once.Used?
    case AbortMatch(side) => At(m.handlers, side) == Left
    case TakeEnd(side) => At(m.ends, side).full
    case CloseEnds(side) => m.broadcaster == Closing && !At(m.ends, side).closed
  }

  function Do(m: Match, step: Step): Match
    requires Enabled(m, step)
  {
    match step
    case HandOut => m.(handlers := Both(Connected, Connected))
    case AbortUnclaimed => m.(handlers := Both(Discarded, Discarded), cancelled := true)
    case Acknowledge(side) =>
      var acknowledged := Put(m.acknowledged, side, true);
      m.(acknowledged := acknowledged,
         barrierClosings := m.barrierClosings + if acknowledged == Both(true, true) then 1 else 0)
    case PassGate => m.(loop := Running)
    case GiveUpGate => m.(loop := Stopped)
    case RoomInput(id, input) => m.(room := Submit(m.room, id, input))
    case RoomTick =>
      var room := RoomModel.Step(m.room);
      m.(room := room, box := Next(m.box, Publish(SnapshotOf(room), room.status == MatchFinished)))
    case PublishOn => m.(box := Next(m.box, Advance))
    case PublishGivenUp => m.(box := Next(m.box, GiveUp), loop := Stopped)
    case LoopCancelled => m.(loop := Stopped)
    case LoopFinished => m.(loop := Stopped)
    case CloseRoom => m.(loop := Closed)
    case Receive =>
      var shot := m.box.produced[m.box.slot.value];
      m.(box := Next(m.box, Take),
         broadcaster := if shot.status == MatchFinished then Holding(RoomEnd(shot)) else Receiving)
    case ReceiveClosed => m.(broadcaster := Closing)
    case Leave(side) => m.(handlers := Put(m.handlers, side, Leaving(DisconnectEnd(m.room, side))))
    case EnterFinalize(caller) => m.(once := Busy(caller, Pending(m, caller).value, Both(false, false)))
    case Send(side) =>
      m.(ends := Put(m.ends, side, At(m.ends, side).(sent := At(m.ends, side).sent + [m.once.event], full := true)),
         once := m.once.(visited := Put(m.once.visited, side, true)))
    case LeaveFinalize => m.(once := Used(m.once.event), reported := m.reported + [m.once.event])
    case Return(caller) =>
      (match caller
       case TheBroadcaster => m.(broadcaster := Receiving, roomFinalized := true)
       case TheHandler(side) => m.(handlers := Put(m.handlers, side, Left)))
    case AbortMatch(side) => m.(handlers := Put(m.handlers, side, Gone), cancelled := true)
    case TakeEnd(side) => m.(ends := Put(m.ends, side, At(m.ends, side).(full := false)))
    case CloseEnds(side) =>
      var ends := Put(m.ends, side, At(m.ends, side).(closed := true));
      m.(ends := ends, broadcaster := if ends.a.closed && ends.b.closed then Done else Closing)
  }

  // ---------------------------------------------------------------- the invariant

  /** The room and what it has published. */
  ghost predicate Publishes(m: Match) {
    && Consistent(m.room) && Sound(m.box)
    && (m.box.produced != [] ==> m.box.produced[|m.box.produced| - 1] == SnapshotOf(m.room))
    && (m.room.tick > 0 <==> m.box.produced != [])
    && (forall i :: 0 <= i < |m.box.produced| - 1 ==> m.box.produced[i].status != MatchFinished)
    && (m.box.producer.Lost? ==> m.cancelled && (m.loop == Stopped || m.loop == Closed))
    && (Publishing(m.box.producer) ==> m.loop == Running)
    && (m.loop == Gated ==> m.box.produced == [])
  }

  ghost predicate RoomDecided(m: Match, event: MatchEnd) {
    m.room.status == MatchFinished && event == RoomEnd(SnapshotOf(m.room))
  }

  /** The events that may be finalized: the finished room's outcome, or the defeat of whoever leaves. */
  ghost predicate Authentic(m: Match, event: MatchEnd) {
    RoomDecided(m, event) || event == DisconnectEnd(m.room, true) || event == DisconnectEnd(m.room, false)
  }

  /** The terminal snapshot is on its way to `finalize` or has been there. */
  ghost predicate TerminalInFlight(m: Match) {
    || Publishing(m.box.producer) || m.box.producer.Lost?
    || m.box.slot == Some(|m.box.produced| - 1)
    || m.broadcaster.Holding? || m.roomFinalized
  }

  ghost predicate SentOnce(m: Match) {
    match m.once
    case Unused => m.ends.a.sent == [] && m.ends.b.sent == [] && m.reported == []
    case Busy(caller, event, visited) =>
      && Pending(m, caller) == Some(event) && m.reported == []
      && m.ends.a.sent == (if visited.a then [event] else []) && m.ends.b.sent == if visited.b then [event] else []
    case Used(event) => m.ends.a.sent == [event] && m.ends.b.sent == [event] && m.reported == [event]
  }

  ghost predicate Orderly(m: Match) {
    && (m.ends.a.full ==> m.ends.a.sent != []) && (m.ends.b.full ==> m.ends.b.sent != [])
    && (m.handlers.a.Leaving? ==> Authentic(m, m.handlers.a.event))
    && (m.handlers.b.Leaving? ==> Authentic(m, m.handlers.b.event))
    && (m.broadcaster.Holding? ==> RoomDecided(m, m.broadcaster.event))
    && (m.once.Busy? ==> Authentic(m, m.once.event)) && (m.once.Used? ==> Authentic(m, m.once.event))
    && (m.roomFinalized ==> m.once.Used?)
    && (m.handlers.a == Left || m.handlers.a == Gone ==> m.once.Used?)
    && (m.handlers.b == Left || m.handlers.b == Gone ==> m.once.Used?)
  }

  /** The sessions were given back unused: no handler will ever exist. */
  ghost predicate NeverClaimed(m: Match) {
    m.handlers == Both(Discarded, Discarded)
  }

  ghost predicate Idle(h: Handler) {
    h == Unclaimed || h == Discarded
  }

  /** Nothing runs before both players have acknowledged the start. */
  ghost predicate Gates(m: Match) {
    && (Idle(m.handlers.a) || Idle(m.handlers.b) ==>
          m.handlers.a == m.handlers.b && m.acknowledged == Both(false, false))
    && m.barrierClosings == (if m.acknowledged == Both(true, true) then 1 else 0)
    && (m.loop == Running || m.box.produced != [] ==> m.barrierClosings == 1)
    && (m.broadcaster.Holding? ==> m.box.produced != [])
  }

  ghost predicate ClosesLast(m: Match) {
    && (m.room.status == MatchFinished ==> TerminalInFlight(m))
    && (m.loop == Stopped || m.loop == Closed ==> m.cancelled || m.room.status == MatchFinished)
    && (m.cancelled ==> m.once.Used? || NeverClaimed(m))
    && (m.broadcaster == Closing || m.broadcaster == Done ==> m.loop == Closed && m.box.slot.None?)
    && (m.ends.a.closed || m.ends.b.closed ==> m.broadcaster == Closing || m.broadcaster == Done)
    && (m.broadcaster == Done ==> m.ends.a.closed && m.ends.b.closed)
  }

  ghost predicate Invariant(m: Match) {
    Publishes(m) && SentOnce(m) && Orderly(m) && Gates(m) && ClosesLast(m)
  }

  // ---------------------------------------------------------------- the room's own steps

  lemma RoomTickFacts(room: State) returns (next: State)
    requires Consistent(room) && room.status != MatchFinished
    ensures next == RoomModel.Step(room) && Consistent(next) && SameMatch(room, next) && next.tick == room.tick + 1
  {
    next := RoomModel.Step(room);
    if room.status == MatchActive {
      ActiveStepClock(room);
    }
    ConsistentIsKept(room, Tick);
  }

  lemma PublicationStarts<T>(b: Box<T>, value: T, last: bool) returns (box: Box<T>)
    requires Sound(b) && b.producer == Resting
    ensures box == Next(b, Publish(value, last)) && Sound(box) && box.slot == b.slot && box.producer == Offering(last)
    ensures box.produced == b.produced + [value]
  {
    box := Next(b, Publish(value, last));
    SoundIsKept(b, Publish(value, last));
  }

  lemma RoomTickKeeps(m: Match)
    requires Invariant(m) && Enabled(m, RoomTick)
    ensures Invariant(Do(m, RoomTick))
  {
    var room := RoomTickFacts(m.room);
    var box := PublicationStarts(m.box, SnapshotOf(room), room.status == MatchFinished);
    PublishesAfterTick(m, room, box);
    AfterRoomTick(m, room, box);
  }

  lemma PublishesAfterTick(m: Match, room: State, box: Box<Snapshot>)
    requires Publishes(m) && m.loop == Running && m.room.status != MatchFinished && Consistent(room)
    requires Sound(box) && box.producer.Offering? && box.produced == m.box.produced + [SnapshotOf(room)]
    requires room.tick == m.room.tick + 1
    ensures Publishes(m.(room := room, box := box))
  {
  }

  lemma AfterRoomTick(m: Match, room: State, box: Box<Snapshot>)
    requires Invariant(m) && m.loop == Running && m.room.status != MatchFinished && SameMatch(m.room, room)
    requires Publishes(m.(room := room, box := box)) && box.producer.Offering? && box.produced != []
    ensures Invariant(m.(room := room, box := box))
  {
  }

  lemma RoomInputKeeps(m: Match, id: string, input: Input)
    requires Invariant(m) && Enabled(m, RoomInput(id, input))
    ensures Invariant(Do(m, RoomInput(id, input)))
  {
    SubmitPreservesAllButQueues(m.room, id, input);
    AfterRoomInput(m, Submit(m.room, id, input));
  }

  lemma AfterRoomInput(m: Match, room: State)
    requires Invariant(m) && room == m.room.(a := room.a, b := room.b)
    requires room.a.player == m.room.a.player && room.b.player == m.room.b.player
    ensures Invariant(m.(room := room))
  {
    InputStaysPublished(m, room);
    InputStaysOrderly(m, room);
  }

  lemma InputStaysPublished(m: Match, room: State)
    requires Publishes(m) && room == m.room.(a := room.a, b := room.b)
    requires room.a.player == m.room.a.player && room.b.player == m.room.b.player
    ensures Publishes(m.(room := room))
  {
  }

  lemma InputStaysOrderly(m: Match, room: State)
    requires Orderly(m) && room == m.room.(a := room.a, b := room.b)
    requires room.a.player == m.room.a.player && room.b.player == m.room.b.player
    ensures Orderly(m.(room := room))
  {
  }

  lemma PublicationGoesOn<T>(b: Box<T>) returns (box: Box<T>)
    requires Sound(b) && Possible(b, Advance)
    ensures box == Next(b, Advance) && Sound(box) && box.produced == b.produced != []
    ensures !box.producer.Lost? && (box.producer == Resting ==> box.slot == Some(|box.produced| - 1))
    ensures box.slot.Some? ==> box.slot == b.slot || box.slot == Some(|box.produced| - 1)
  {
    box := Next(b, Advance);
    SoundIsKept(b, Advance);
  }

  lemma PublishOnKeeps(m: Match)
    requires Invariant(m) && Enabled(m, PublishOn)
    ensures Invariant(Do(m, PublishOn))
  {
    var box := PublicationGoesOn(m.box);
    AfterPublishOn(m, box);
  }

  lemma AfterPublishOn(m: Match, box: Box<Snapshot>)
    requires Invariant(m) && m.loop == Running && Sound(box) && box.produced == m.box.produced != []
    requires !box.producer.Lost? && (box.producer == Resting ==> box.slot == Some(|box.produced| - 1))
    ensures Invariant(m.(box := box))
  {
  }

  lemma PublishGivenUpKeeps(m: Match)
    requires Invariant(m) && Enabled(m, PublishGivenUp)
    ensures Invariant(Do(m, PublishGivenUp))
  {
    SoundIsKept(m.box, GiveUp);
  }

  lemma ReceiveKeeps(m: Match)
    requires Invariant(m) && Enabled(m, Receive)
    ensures Invariant(Do(m, Receive))
  {
    SoundIsKept(m.box, Take);
  }

  /** Steps that leave the room, its snapshots and its goroutine alone keep what was said about them. */
  lemma RoomStays(m: Match, n: Match)
    requires Publishes(m) && n.room == m.room && n.box == m.box
    requires n.cancelled == m.cancelled || n.cancelled
    requires n.loop == m.loop || (m.loop == Stopped && n.loop == Closed)
          || (m.loop == Running && n.loop == Stopped && !Publishing(m.box.producer))
    ensures Publishes(n)
  {
  }

  lemma GatesStay(m: Match, n: Match)
    requires Gates(m) && n.handlers == m.handlers && n.acknowledged == m.acknowledged && n.loop == m.loop
    requires n.barrierClosings == m.barrierClosings && n.box == m.box && n.broadcaster == m.broadcaster
    ensures Gates(n)
  {
  }

  lemma ClosesStay(m: Match, n: Match)
    requires ClosesLast(m) && n.room == m.room && n.box == m.box && n.loop == m.loop && n.cancelled == m.cancelled
    requires n.handlers == m.handlers && n.broadcaster == m.broadcaster && n.roomFinalized == m.roomFinalized
    requires n.ends.a.closed == m.ends.a.closed && n.ends.b.closed == m.ends.b.closed
    requires m.once.Used? ==> n.once.Used?
    ensures ClosesLast(n)
  {
  }

  lemma PassGateKeeps(m: Match)
    requires Invariant(m) && Enabled(m, PassGate)
    ensures Invariant(Do(m, PassGate))
  {
  }

  lemma GiveUpGateKeeps(m: Match)
    requires Invariant(m) && Enabled(m, GiveUpGate)
    ensures Invariant(Do(m, GiveUpGate))
  {
  }

  lemma LoopCancelledKeeps(m: Match)
    requires Invariant(m) && Enabled(m, LoopCancelled)
    ensures Invariant(Do(m, LoopCancelled))
  {
    var n := Do(m, LoopCancelled);
    RoomStays(m, n);
  }

  lemma LoopFinishedKeeps(m: Match)
    requires Invariant(m) && Enabled(m, LoopFinished)
    ensures Invariant(Do(m, LoopFinished))
  {
    var n := Do(m, LoopFinished);
    RoomStays(m, n);
  }

  lemma CloseRoomKeeps(m: Match)
    requires Invariant(m) && Enabled(m, CloseRoom)
    ensures Invariant(Do(m, CloseRoom))
  {
    var n := Do(m, CloseRoom);
    RoomStays(m, n);
  }

  lemma HandOutKeeps(m: Match)
    requires Invariant(m) && Enabled(m, HandOut)
    ensures Invariant(Do(m, HandOut))
  {
    var n := Do(m, HandOut);
    RoomStays(m, n);
  }

  lemma AbortUnclaimedKeeps(m: Match)
    requires Invariant(m) && Enabled(m, AbortUnclaimed)
    ensures Invariant(Do(m, AbortUnclaimed))
  {
    var n := Do(m, AbortUnclaimed);
    RoomStays(m, n);
  }

  lemma AcknowledgeKeeps(m: Match, side: Side)
    requires Invariant(m) && Enabled(m, Acknowledge(side))
    ensures Invariant(Do(m, Acknowledge(side)))
  {
    var n := Do(m, Acknowledge(side));
    RoomStays(m, n);
  }

  /** A handler that starts to finalize a disconnect has nothing in hand yet. */
  lemma LeavingSendsNothing(m: Match, side: Side, event: MatchEnd)
    requires SentOnce(m) && At(m.handlers, side) == Connected
    ensures SentOnce(m.(handlers := Put(m.handlers, side, Leaving(event))))
  {
  }

  lemma LeavingIsOrderly(m: Match, side: Side, event: MatchEnd)
    requires Orderly(m) && At(m.handlers, side) == Connected && Authentic(m, event)
    ensures Orderly(m.(handlers := Put(m.handlers, side, Leaving(event))))
  {
  }

  lemma LeaveKeeps(m: Match, side: Side)
    requires Invariant(m) && Enabled(m, Leave(side))
    ensures Invariant(Do(m, Leave(side)))
  {
    var n := Do(m, Leave(side));
    RoomStays(m, n);
    LeavingSendsNothing(m, side, DisconnectEnd(m.room, side));
    LeavingIsOrderly(m, side, DisconnectEnd(m.room, side));
  }

  lemma AbortMatchKeeps(m: Match, side: Side)
    requires Invariant(m) && Enabled(m, AbortMatch(side))
    ensures Invariant(Do(m, AbortMatch(side)))
  {
    var n := Do(m, AbortMatch(side));
    RoomStays(m, n);
  }

  lemma EnterFinalizeKeeps(m: Match, caller: Caller)
    requires Invariant(m) && Enabled(m, EnterFinalize(caller))
    ensures Invariant(Do(m, EnterFinalize(caller)))
  {
    var n := Do(m, EnterFinalize(caller));
    RoomStays(m, n);
    GatesStay(m, n);
    ClosesStay(m, n);
  }

  lemma SendKeeps(m: Match, side: Side)
    requires Invariant(m) && Enabled(m, Send(side))
    ensures Invariant(Do(m, Send(side)))
  {
    var n := Do(m, Send(side));
    RoomStays(m, n);
    GatesStay(m, n);
    ClosesStay(m, n);
  }

  lemma LeaveFinalizeKeeps(m: Match)
    requires Invariant(m) && Enabled(m, LeaveFinalize)
    ensures Invariant(Do(m, LeaveFinalize))
  {
    var n := Do(m, LeaveFinalize);
    RoomStays(m, n);
    GatesStay(m, n);
    ClosesStay(m, n);
  }

  lemma BroadcasterReturnKeeps(m: Match)
    requires Invariant(m) && Enabled(m, Return(TheBroadcaster))
    ensures Invariant(Do(m, Return(TheBroadcaster)))
  {
    RoomStays(m, Do(m, Return(TheBroadcaster)));
  }

  lemma HandlerReturnKeeps(m: Match, side: Side)
    requires Invariant(m) && Enabled(m, Return(TheHandler(side)))
    ensures Invariant(Do(m, Return(TheHandler(side))))
  {
    RoomStays(m, Do(m, Return(TheHandler(side))));
  }

  lemma ReturnKeeps(m: Match, caller: Caller)
    requires Invariant(m) && Enabled(m, Return(caller))
    ensures Invariant(Do(m, Return(caller)))
  {
    match caller
    case TheBroadcaster => BroadcasterReturnKeeps(m);
    case TheHandler(side) => HandlerReturnKeeps(m, side);
  }

  lemma ReceiveClosedKeeps(m: Match)
    requires Invariant(m) && Enabled(m, ReceiveClosed)
    ensures Invariant(Do(m, ReceiveClosed))
  {
    var n := Do(m, ReceiveClosed);
    RoomStays(m, n);
  }

  lemma TakeEndKeeps(m: Match, side: Side)
    requires Invariant(m) && Enabled(m, TakeEnd(side))
    ensures Invariant(Do(m, TakeEnd(side)))
  {
    var n := Do(m, TakeEnd(side));
    RoomStays(m, n);
    GatesStay(m, n);
    ClosesStay(m, n);
  }

  lemma CloseEndsKeeps(m: Match, side: Side)
    requires Invariant(m) && Enabled(m, CloseEnds(side))
    ensures Invariant(Do(m, CloseEnds(side)))
  {
    var n := Do(m, CloseEnds(side));
    RoomStays(m, n);
  }

  /** The steps of the room's goroutine and of the broadcaster's receiving end. */
  predicate OfTheRoom(step: Step) {
    || step.RoomTick? || step.RoomInput? || step.PublishOn? || step.PublishGivenUp? || step.Receive? || step.PassGate?
    || step.GiveUpGate? || step.LoopCancelled? || step.LoopFinished? || step.CloseRoom? || step.ReceiveClosed?
  }

  lemma RoomStepKeeps(m: Match, step: Step)
    requires Invariant(m) && Enabled(m, step) && OfTheRoom(step)
    ensures Invariant(Do(m, step))
  {
    match step
    case RoomTick => RoomTickKeeps(m);
    case RoomInput(id, input) => RoomInputKeeps(m, id, input);
    case PublishOn => PublishOnKeeps(m);
    case PublishGivenUp => PublishGivenUpKeeps(m);
    case Receive => ReceiveKeeps(m);
    case PassGate => PassGateKeeps(m);
    case GiveUpGate => GiveUpGateKeeps(m);
    case LoopCancelled => LoopCancelledKeeps(m);
    case LoopFinished => LoopFinishedKeeps(m);
    case CloseRoom => CloseRoomKeeps(m);
    case ReceiveClosed => ReceiveClosedKeeps(m);
  }

  lemma OtherStepKeeps(m: Match, step: Step)
    requires Invariant(m) && Enabled(m, step) && !OfTheRoom(step)
    ensures Invariant(Do(m, step))
  {
    match step
    case HandOut => HandOutKeeps(m);
    case AbortUnclaimed => AbortUnclaimedKeeps(m);
    case Acknowledge(side) => AcknowledgeKeeps(m, side);
    case Leave(side) => LeaveKeeps(m, side);
    case AbortMatch(side) => AbortMatchKeeps(m, side);
    case EnterFinalize(caller) => EnterFinalizeKeeps(m, caller);
    case Send(side) => SendKeeps(m, side);
    case LeaveFinalize => LeaveFinalizeKeeps(m);
    case Return(caller) => ReturnKeeps(m, caller);
    case TakeEnd(side) => TakeEndKeeps(m, side);
    case CloseEnds(side) => CloseEndsKeeps(m, side);
  }

  lemma InvariantIsKept(m: Match, step: Step)
    requires Invariant(m) && Enabled(m, step)
    ensures Invariant(Do(m, step))
  {
    if OfTheRoom(step) {
      RoomStepKeeps(m, step);
    } else {
      OtherStepKeeps(m, step);
    }
  }

  // ---------------------------------------------------------------- what holds in every interleaving

  function Play(start: Match, steps: seq<Step>): Option<Match>
    decreases |steps|
  {
    if steps == [] then Some(start)
    else
      var before := Play(start, steps[..|steps| - 1]);
      if before.Some? && Enabled(before.value, steps[|steps| - 1])
      then Some(Do(before.value, steps[|steps| - 1]))
      else None
  }

  ghost predicate Arises(m: Match) {
    exists a, b, r, steps ::
      a != "" && b != "" && a != b && Accepted(r) && Play(NewMatch(a, b, r), steps) == Some(m)
  }

  lemma {:induction false} InvariantAlways(a: string, b: string, r: Ruleset, steps: seq<Step>)
    requires a != "" && b != "" && a != b && Accepted(r) && Play(NewMatch(a, b, r), steps).Some?
    ensures Invariant(Play(NewMatch(a, b, r), steps).value)
    decreases |steps|
  {
    if steps == [] {
      NewRoomIsConsistent(a, b, r);
    } else {
      var n := |steps| - 1;
      InvariantAlways(a, b, r, steps[..n]);
      InvariantIsKept(Play(NewMatch(a, b, r), steps[..n]).value, steps[n]);
    }
  }

  lemma ArisesKeepsInvariant(m: Match)
    requires Arises(m)
    ensures Invariant(m)
  {
    var a, b, r, steps :|
      a != "" && b != "" && a != b && Accepted(r) && Play(NewMatch(a, b, r), steps) == Some(m);
    InvariantAlways(a, b, r, steps);
  }

  // ---------------------------------------------------------------- who is declared defeated

  predicate HasLeft(h: Handler) {
    h.Leaving? || h == Left || h == Gone
  }

  /** The finished room's outcome, or the defeat of a player who has left. */
  ghost predicate Genuine(m: Match, event: MatchEnd) {
    || RoomDecided(m, event)
    || (event == DisconnectEnd(m.room, true) && HasLeft(m.handlers.a))
    || (event == DisconnectEnd(m.room, false) && HasLeft(m.handlers.b))
  }

  /** Every event on its way through `finalize` is genuine, and a handler only ever reports its own player. */
  ghost predicate BlamesLeavers(m: Match) {
    && (m.handlers.a.Leaving? ==> m.handlers.a.event == DisconnectEnd(m.room, true))
    && (m.handlers.b.Leaving? ==> m.handlers.b.event == DisconnectEnd(m.room, false))
    && (m.once.Busy? ==> Genuine(m, m.once.event)) && (m.once.Used? ==> Genuine(m, m.once.event))
  }

  /** Steps that touch neither a handler nor the event inside `finalize`. */
  predicate Harmless(step: Step) {
    || step.Acknowledge? || step.PassGate? || step.GiveUpGate? || step.PublishOn? || step.PublishGivenUp?
    || step.LoopCancelled? || step.LoopFinished? || step.CloseRoom? || step.Receive? || step.ReceiveClosed?
    || step.Send? || step.LeaveFinalize? || step.TakeEnd? || step.CloseEnds?
  }

  lemma HarmlessStepsLeaveBlame(m: Match, step: Step)
    requires Enabled(m, step) && Harmless(step)
    ensures var n := Do(m, step);
            && n.room == m.room && n.handlers == m.handlers && (n.once.Unused? <==> m.once.Unused?)
            && (!n.once.Unused? ==> n.once.event == m.once.event)
  {
  }

  lemma BlameStays(m: Match, n: Match)
    requires BlamesLeavers(m) && n.room == m.room && n.handlers == m.handlers && (n.once.Unused? <==> m.once.Unused?)
    requires !n.once.Unused? ==> n.once.event == m.once.event
    ensures BlamesLeavers(n)
  {
  }

  /** A handler that moves on, and has left if it is past leaving. */
  lemma HandlerMovesOn(m: Match, n: Match, side: Side)
    requires BlamesLeavers(m) && n.room == m.room && n.once == m.once
    requires At(n.handlers, !side) == At(m.handlers, !side)
    requires HasLeft(At(m.handlers, side)) ==> HasLeft(At(n.handlers, side))
    requires At(n.handlers, side).Leaving? ==> At(n.handlers, side).event == DisconnectEnd(m.room, side)
    ensures BlamesLeavers(n)
  {
  }

  lemma EnterBlames(m: Match, caller: Caller)
    requires Invariant(m) && BlamesLeavers(m) && Enabled(m, EnterFinalize(caller))
    ensures BlamesLeavers(Do(m, EnterFinalize(caller)))
  {
    assert Genuine(m, Pending(m, caller).value);
  }

  lemma OutsideTheRoomBlames(m: Match, step: Step)
    requires Invariant(m) && BlamesLeavers(m) && Enabled(m, step) && !step.RoomTick? && !step.RoomInput?
    ensures BlamesLeavers(Do(m, step))
  {
    if Harmless(step) {
      HarmlessStepsLeaveBlame(m, step);
      BlameStays(m, Do(m, step));
    } else {
      HandlerStepBlames(m, step);
    }
  }

  lemma HandlerStepBlames(m: Match, step: Step)
    requires Invariant(m) && BlamesLeavers(m) && Enabled(m, step) && !step.RoomTick? && !step.RoomInput?
    requires !Harmless(step)
    ensures BlamesLeavers(Do(m, step))
  {
    match step
    case EnterFinalize(caller) => EnterBlames(m, caller);
    case Leave(side) => HandlerMovesOn(m, Do(m, step), side);
    case AbortMatch(side) => HandlerMovesOn(m, Do(m, step), side);
    case Return(TheHandler(side)) => HandlerMovesOn(m, Do(m, step), side);
    case Return(TheBroadcaster) => BlameStays(m, Do(m, step));
    case HandOut =>
    case AbortUnclaimed =>
  }

  lemma SameEnds(m: Match, room: State, event: MatchEnd)
    requires Genuine(m, event) && SameMatch(m.room, room) && m.room.status != MatchFinished
    ensures DisconnectEnd(room, true) == DisconnectEnd(m.room, true)
    ensures DisconnectEnd(room, false) == DisconnectEnd(m.room, false)
    ensures Genuine(m.(room := room), event)
  {
  }

  lemma AfterTickBlames(m: Match, room: State, box: Box<Snapshot>)
    requires BlamesLeavers(m) && SameMatch(m.room, room) && m.room.status != MatchFinished
    ensures BlamesLeavers(m.(room := room, box := box))
  {
    if m.once.Busy? || m.once.Used? {
      SameEnds(m, room, m.once.event);
    }
  }

  lemma AfterInputBlames(m: Match, room: State)
    requires BlamesLeavers(m) && room == m.room.(a := room.a, b := room.b)
    requires room.a.player == m.room.a.player && room.b.player == m.room.b.player
    ensures BlamesLeavers(m.(room := room))
  {
  }

  lemma BlamesIsKept(m: Match, step: Step)
    requires Invariant(m) && BlamesLeavers(m) && Enabled(m, step)
    ensures BlamesLeavers(Do(m, step))
  {
    match step
    case RoomTick =>
      var room := RoomTickFacts(m.room);
      AfterTickBlames(m, room, Next(m.box, Publish(SnapshotOf(room), room.status == MatchFinished)));
    case RoomInput(id, input) =>
      SubmitPreservesAllButQueues(m.room, id, input);
      AfterInputBlames(m, Submit(m.room, id, input));
    case _ => OutsideTheRoomBlames(m, step);
  }

  lemma {:induction false} BlamesAlways(a: string, b: string, r: Ruleset, steps: seq<Step>)
    requires a != "" && b != "" && a != b && Accepted(r) && Play(NewMatch(a, b, r), steps).Some?
    ensures BlamesLeavers(Play(NewMatch(a, b, r), steps).value)
    decreases |steps|
  {
    if steps != [] {
      var n := |steps| - 1;
      InvariantAlways(a, b, r, steps[..n]);
      BlamesAlways(a, b, r, steps[..n]);
      BlamesIsKept(Play(NewMatch(a, b, r), steps[..n]).value, steps[n]);
    }
  }

  /** Everything either player or the reporter is told. */
  function Told(m: Match): seq<MatchEnd> {
    m.ends.a.sent + m.ends.b.sent + m.reported
  }

  /** The event is the victory of the other player over this one, who has left. */
  ghost predicate WonByStaying(m: Match, event: MatchEnd, leaver: Side) {
    && HasLeft(At(m.handlers, leaver)) && event.winnerID == SlotOf(m.room, !leaver).player.id
    && event.winnerID != SlotOf(m.room, leaver).player.id
  }

  lemma LeaversLose(m: Match, event: MatchEnd)
    requires Consistent(m.room) && Genuine(m, event) && event.reason == Disconnect
    ensures exists leaver :: WonByStaying(m, event, leaver)
  {
    assert WonByStaying(m, event, true) || WonByStaying(m, event, false);
  }

  /**
   At most one terminal event per player and per match, the same one for both players and the reporter; it is the
   finished room's own outcome, or the defeat of a player who has left: the winner is the one who stayed.
   */
  lemma OneTerminalOutcome(m: Match)
    requires Arises(m)
    ensures forall event :: event in Told(m) ==> Genuine(m, event)
    ensures forall event :: event in Told(m) && event.reason == Disconnect ==>
              exists leaver :: WonByStaying(m, event, leaver)
    ensures forall event, other :: event in Told(m) && other in Told(m) ==> event == other
    ensures m.reported != [] ==> m.ends.a.sent == m.ends.b.sent == m.reported
    ensures |m.ends.a.sent| <= 1 && |m.ends.b.sent| <= 1 && |m.reported| <= 1
  {
    var a, b, r, steps :|
      a != "" && b != "" && a != b && Accepted(r) && Play(NewMatch(a, b, r), steps) == Some(m);
    InvariantAlways(a, b, r, steps);
    BlamesAlways(a, b, r, steps);
    OneEventTold(m);
    forall event | event in Told(m) && event.reason == Disconnect
      ensures exists leaver :: WonByStaying(m, event, leaver)
    {
      LeaversLose(m, event);
    }
  }

  lemma OneEventTold(m: Match)
    requires SentOnce(m)
    ensures |m.ends.a.sent| <= 1 && |m.ends.b.sent| <= 1 && |m.reported| <= 1
    ensures m.reported != [] ==> m.ends.a.sent == m.ends.b.sent == m.reported
    ensures forall event :: event in Told(m) ==> !m.once.Unused? && event == m.once.event
  {
  }

  /** `finalize` never blocks or sends on a closed channel: whoever is still to be visited has an open, empty slot. */
  lemma FinalizeNeverBlocks(m: Match, side: Side)
    requires Arises(m) && m.once.Busy?
    ensures !At(m.once.visited, side) ==> Enabled(m, Send(side)) && !At(m.ends, side).closed
    ensures m.once.visited == Both(true, true) ==> Enabled(m, LeaveFinalize)
  {
    ArisesKeepsInvariant(m);
  }

  /** The terminal channels are closed only after the event is in them, unless nobody ever held the sessions. */
  lemma ClosedAfterDelivery(m: Match, side: Side)
    requires Arises(m) && At(m.ends, side).closed
    ensures NeverClaimed(m) || (m.ends.a.sent != [] && m.ends.b.sent != [] && m.reported != [])
  {
    ArisesKeepsInvariant(m);
  }

  /** The start barrier is closed once at most. */
  lemma BarrierClosesOnce(m: Match)
    requires Arises(m)
    ensures m.barrierClosings <= 1 && (m.barrierClosings == 1 <==> m.acknowledged == Both(true, true))
    ensures m.loop == Running || m.room.tick > 0 ==> m.barrierClosings == 1
  {
    ArisesKeepsInvariant(m);
  }

  /** Without a cancellation, the broadcaster does not shut down before it has finalized the room's outcome. */
  lemma TerminalSnapshotArrives(m: Match)
    requires Arises(m) && !m.cancelled && (m.broadcaster == Closing || m.broadcaster == Done)
    ensures m.room.status == MatchFinished && RightfulOutcome(m.room) && m.roomFinalized && m.once.Used?
  {
    ArisesKeepsInvariant(m);
  }

  // ---------------------------------------------------------------- progress

  /** The room has ended, nobody has cancelled, and its outcome has not been finalized yet. */
  ghost predicate OutcomeIsDue(m: Match) {
    m.room.status == MatchFinished && !m.cancelled && !m.roomFinalized
  }

  function PublicationLeft(producer: Producer): nat {
    match producer
    case Offering(_) => 3
    case Dropping(_) => 2
    case Resending(_) => 1
    case _ => 0
  }

  function FinalizeLeft(once: Once): nat {
    match once
    case Unused => 4
    case Busy(_, _, visited) => 1 + (if visited.a then 0 else 1) + (if visited.b then 0 else 1)
    case Used(_) => 0
  }

  /** How many steps of room, broadcaster and `finalize` are left until the outcome is finalized. */
  function StepsLeft(m: Match): nat {
    PublicationLeft(m.box.producer) + FinalizeLeft(m.once)
    + if m.roomFinalized then 0 else if m.broadcaster.Holding? then 1 else 2
  }

  /** The next such step. */
  function Onward(m: Match): Step {
    if m.box.producer.Offering? || m.box.producer.Dropping? || m.box.producer.Resending? then PublishOn
    else if m.broadcaster == Receiving then Receive
    else
      match m.once
      case Unused => EnterFinalize(TheBroadcaster)
      case Busy(_, _, visited) => if !visited.a then Send(true) else if !visited.b then Send(false) else LeaveFinalize
      case Used(_) => Return(TheBroadcaster)
  }

  lemma OnwardIsEnabled(m: Match)
    requires Invariant(m) && OutcomeIsDue(m)
    ensures Enabled(m, Onward(m)) && StepsLeft(Do(m, Onward(m))) < StepsLeft(m)
  {
  }

  /**
   While the outcome is due, a step of the room, the broadcaster or whoever is inside `finalize` is enabled, waits for
   nobody else, and brings it closer; at most nine are needed.
   */
  lemma OutcomeGetsThrough(m: Match)
    requires Arises(m) && OutcomeIsDue(m)
    ensures StepsLeft(m) <= 9 && Enabled(m, Onward(m)) && StepsLeft(Do(m, Onward(m))) < StepsLeft(m)
  {
    ArisesKeepsInvariant(m);
    OnwardIsEnabled(m);
  }

  /** ... and no step of anybody, in between, takes it further away. */
  lemma NothingDelaysTheOutcome(m: Match, step: Step)
    requires Arises(m) && OutcomeIsDue(m) && Enabled(m, step)
    ensures StepsLeft(Do(m, step)) <= StepsLeft(m)
    ensures OutcomeIsDue(Do(m, step)) || Do(m, step).cancelled || Do(m, step).roomFinalized
  {
    ArisesKeepsInvariant(m);
    KeepsTheOutcomeDue(m, step);
  }

  lemma KeepsTheOutcomeDue(m: Match, step: Step)
    requires Invariant(m) && OutcomeIsDue(m) && Enabled(m, step)
    ensures StepsLeft(Do(m, step)) <= StepsLeft(m)
    ensures OutcomeIsDue(Do(m, step)) || Do(m, step).cancelled || Do(m, step).roomFinalized
  {
    if step.RoomInput? {
      SubmitPreservesAllButQueues(m.room, step.id, step.input);
    }
  }

  // ---------------------------------------------------------------- what the broadcaster sees

  /** The room's snapshots are numbered from 1 by their ticks. */
  ghost predicate Numbered(m: Match) {
    m.room.tick == |m.box.produced| && forall i :: 0 <= i < |m.box.produced| ==> m.box.produced[i].serverTick == i + 1
  }

  lemma OnlyTicksProduce(m: Match, step: Step)
    requires Enabled(m, step) && !step.RoomTick? && !step.RoomInput?
    ensures Do(m, step).room == m.room && Do(m, step).box.produced == m.box.produced
  {
  }

  lemma NumberedIsKept(m: Match, step: Step)
    requires Invariant(m) && Numbered(m) && Enabled(m, step)
    ensures Numbered(Do(m, step))
  {
    if step.RoomTick? {
      var room := RoomTickFacts(m.room);
    } else if step.RoomInput? {
      SubmitPreservesAllButQueues(m.room, step.id, step.input);
    } else {
      OnlyTicksProduce(m, step);
    }
  }

  lemma {:induction false} NumberedAlways(a: string, b: string, r: Ruleset, steps: seq<Step>)
    requires a != "" && b != "" && a != b && Accepted(r) && Play(NewMatch(a, b, r), steps).Some?
    ensures Numbered(Play(NewMatch(a, b, r), steps).value)
    decreases |steps|
  {
    if steps != [] {
      var n := |steps| - 1;
      InvariantAlways(a, b, r, steps[..n]);
      NumberedAlways(a, b, r, steps[..n]);
      NumberedIsKept(Play(NewMatch(a, b, r), steps[..n]).value, steps[n]);
    }
  }

  /** In every interleaving the ticks of the snapshots the broadcaster takes rise strictly. */
  lemma SeenTicksRise(m: Match)
    requires Arises(m)
    ensures forall i :: 0 <= i < |m.box.taken| ==> m.box.taken[i] < |m.box.produced|
    ensures forall i, j :: 0 <= i < j < |m.box.taken| ==> Seen(m.box)[i].serverTick < Seen(m.box)[j].serverTick
  {
    ArisesKeepsInvariant(m);
    var a, b, r, steps :|
      a != "" && b != "" && a != b && Accepted(r) && Play(NewMatch(a, b, r), steps) == Some(m);
    NumberedAlways(a, b, r, steps);
    SeenRises(m.box, (shot: Snapshot) => shot.serverTick);
  }

  // ---------------------------------------------------------------- the outcome

  /** As long as nobody leaves, the outcome everyone gets is the room's: a knockout, or a full match without one. */
  lemma UndisturbedOutcomeIsTheRooms(m: Match)
    requires Arises(m) && m.once.Used? && m.once.event.reason != Disconnect
    ensures m.room.status == MatchFinished && RightfulOutcome(m.room) && m.once.event.winnerID == m.room.winnerID
    ensures m.once.event.reason == KnockOut <==> KnockedOut(m.room)
    ensures m.once.event.reason == TimeLimit <==> !KnockedOut(m.room)
  {
    ArisesKeepsInvariant(m);
  }

  // ---------------------------------------------------------------- leaving ends the match

  /** Whoever is gone for good has aborted the match. */
  ghost predicate AbortedByLeavers(m: Match) {
    m.handlers.a == Gone || m.handlers.b == Gone || NeverClaimed(m) ==> m.cancelled
  }

  lemma AbortsAreKept(m: Match, step: Step)
    requires AbortedByLeavers(m) && Enabled(m, step)
    ensures AbortedByLeavers(Do(m, step))
  {
  }

  lemma {:induction false} AbortsAlways(a: string, b: string, r: Ruleset, steps: seq<Step>)
    requires Play(NewMatch(a, b, r), steps).Some?
    ensures AbortedByLeavers(Play(NewMatch(a, b, r), steps).value)
    decreases |steps|
  {
    if steps != [] {
      var n := |steps| - 1;
      AbortsAlways(a, b, r, steps[..n]);
      AbortsAreKept(Play(NewMatch(a, b, r), steps[..n]).value, steps[n]);
    }
  }

  /** How far the room's goroutine is from having closed the room. */
  function LoopLeft(m: Match): nat {
    match m.loop
    case Closed => 0
    case Stopped => 1
    case Gated => 2
    case Running =>
      (match m.box.producer
       case Offering(_) => 5
       case Dropping(_) => 4
       case Resending(_) => 3
       case _ => 2)
  }

  /** The step of the room's goroutine that brings a cancelled match to its end. */
  ghost function TowardsTheEnd(m: Match): Step {
    match m.loop
    case Gated => GiveUpGate
    case Running => if Publishing(m.box.producer) then PublishOn else LoopCancelled
    case _ => CloseRoom
  }

  /**
   Once a player's handler is gone, or the sessions have been given back, the match is cancelled; its room then closes
   after five steps of its own goroutine at most, each of which is always possible.
   */
  lemma LeavingEndsTheMatch(m: Match)
    requires Arises(m) && (m.handlers.a == Gone || m.handlers.b == Gone || NeverClaimed(m))
    ensures m.cancelled
    ensures m.loop != Closed ==> Enabled(m, TowardsTheEnd(m)) && LoopLeft(Do(m, TowardsTheEnd(m))) < LoopLeft(m) <= 5
  {
    ArisesAborted(m);
    ArisesKeepsInvariant(m);
    if m.loop == Running {
      RunningLoopGoesOn(m);
    }
  }

  lemma ArisesAborted(m: Match)
    requires Arises(m)
    ensures AbortedByLeavers(m)
  {
    var a, b, r, steps :|
      a != "" && b != "" && a != b && Accepted(r) && Play(NewMatch(a, b, r), steps) == Some(m);
    AbortsAlways(a, b, r, steps);
  }

  lemma RunningLoopGoesOn(m: Match)
    requires Invariant(m) && m.loop == Running && m.cancelled
    ensures Enabled(m, TowardsTheEnd(m)) && LoopLeft(Do(m, TowardsTheEnd(m))) < LoopLeft(m)
  {
    if Publishing(m.box.producer) {
      PublishingNeverWaits(m.box);
    }
  }
}
