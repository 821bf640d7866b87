/** The clock and the outcome of a match, over every run of a room. */
module RoomLifecycle {
  import opened RoomModel
  import opened RoomSlots

  ghost predicate KnockedOut(s: State) {
    s.a.player.hp == 0 || s.b.player.hp == 0
  }

  /** The outcome the rules promise for a finished match. */
  ghost predicate RightfulOutcome(s: State) {
    var a, b := s.a.player, s.b.player;
    && (s.finishReason == ReasonKO <==> KnockedOut(s))
    && (s.finishReason == ReasonTimeLimit <==> !KnockedOut(s))
    && (s.finishReason == ReasonTimeLimit ==> s.activeTicks == s.rules.matchDurationTicks)
    && (s.winnerID == a.id <==> a.hp > b.hp && (KnockedOut(s) ==> b.hp == 0))
    && (s.winnerID == b.id <==> b.hp > a.hp && (KnockedOut(s) ==> a.hp == 0))
    && (s.winnerID == "" <==> a.hp == b.hp)
  }

  ghost predicate SameMatch(s: State, t: State) {
    s.rules == t.rules && s.a.player.id == t.a.player.id && s.b.player.id == t.b.player.id
  }

  ghost predicate Consistent(s: State) {
    var a, b := s.a.player, s.b.player;
    && Accepted(s.rules) && a.id != "" && b.id != "" && a.id != b.id
    && 0 <= a.hp <= s.rules.initialHP && 0 <= b.hp <= s.rules.initialHP
    && match s.status
       case MatchCountdown =>
         && s.tick < s.rules.countdownTicks && s.activeTicks == 0
         && a.hp == b.hp == s.rules.initialHP
         && s.finishReason == ReasonNone && s.winnerID == ""
       case MatchActive =>
         && s.tick == s.rules.countdownTicks + s.activeTicks && s.activeTicks < s.rules.matchDurationTicks
         && !KnockedOut(s) && s.finishReason == ReasonNone && s.winnerID == ""
       case MatchFinished =>
         && s.tick == s.rules.countdownTicks + s.activeTicks && 0 < s.activeTicks <= s.rules.matchDurationTicks
         && RightfulOutcome(s)
  }

  lemma SubmitPreservesAllButQueues(s: State, id: string, input: Input)
    ensures var t := Submit(s, id, input);
            && t == s.(a := t.a, b := t.b)
            && t.a == s.a.(input := t.a.input, pending := t.a.pending, lastInputTick := t.a.lastInputTick)
            && t.b == s.b.(input := t.b.input, pending := t.b.pending, lastInputTick := t.b.lastInputTick)
  {
    SubmitFrame(s.a, input);
    SubmitFrame(s.b, input);
  }

  /** HP only falls, and never below zero. */
  lemma StruckHP(slot: Slot, tick: nat, damage: int)
    requires 0 <= damage && 0 <= slot.player.hp
    ensures 0 <= Struck(slot, tick, damage).player.hp <= slot.player.hp
    ensures Struck(slot, tick, damage).player.id == slot.player.id
  {
  }

  lemma FoughtFrame(s: State)
    requires s.rules.lightAttack.damage >= 0 && s.a.player.hp >= 0 && s.b.player.hp >= 0
    ensures var f := Fought(s);
            && SameMatch(s, f) && f.status == s.status && f.winnerID == s.winnerID && f.finishReason == s.finishReason
            && f.tick == s.tick + 1 && f.activeTicks == s.activeTicks + 1
            && 0 <= f.a.player.hp <= s.a.player.hp && 0 <= f.b.player.hp <= s.b.player.hp
  {
    var r, tick := s.rules, s.tick + 1;
    var a, b := TickSlot(r, tick, s.a), TickSlot(r, tick, s.b);
    TickSlotFrame(r, tick, s.a);
    TickSlotFrame(r, tick, s.b);
    StruckHP(a, tick, Damage(r, b, a));
    StruckHP(b, tick, Damage(r, a, b));
  }

  lemma ActiveStepClock(s: State)
    requires s.status == MatchActive
    ensures var t := ActiveStep(s);
            && t.rules == s.rules && t.tick == s.tick + 1 && t.activeTicks == s.activeTicks + 1
            && t.status != MatchCountdown
  {
  }

  /** Every event keeps the match consistent, and keeps who plays it by which rules. */
  lemma ConsistentIsKept(s: State, e: Event)
    requires Consistent(s)
    ensures Consistent(Apply(s, e)) && SameMatch(s, Apply(s, e))
  {
    match e
    case Deliver(id, input) => SubmitPreservesAllButQueues(s, id, input);
    case Tick =>
      match s.status {
        case MatchActive =>
          FoughtFrame(s);
          FinishIsRightful(Fought(s));
        case _ =>
      }
  }

  /** A fight that leaves the match undecided goes on; otherwise the rightful player is declared the winner. */
  lemma FinishIsRightful(s: State)
    requires Accepted(s.rules) && s.a.player.id != "" && s.b.player.id != "" && s.a.player.id != s.b.player.id
    requires 0 <= s.a.player.hp <= s.rules.initialHP && 0 <= s.b.player.hp <= s.rules.initialHP
    requires s.status == MatchActive && s.finishReason == ReasonNone && s.winnerID == ""
    requires s.tick == s.rules.countdownTicks + s.activeTicks && 0 < s.activeTicks <= s.rules.matchDurationTicks
    ensures Consistent(Finish(s)) && SameMatch(s, Finish(s))
  {
  }

  lemma {:induction false} RunsAreConsistent(s: State, events: seq<Event>)
    requires Consistent(s)
    ensures Consistent(Run(s, events)) && SameMatch(s, Run(s, events))
    decreases |events|
  {
    if events != [] {
      var before := events[..|events| - 1];
      RunsAreConsistent(s, before);
      ConsistentIsKept(Run(s, before), events[|events| - 1]);
    }
  }

  lemma NewRoomIsConsistent(a: string, b: string, r: Ruleset)
    requires a != "" && b != "" && a != b && Accepted(r)
    ensures Consistent(NewState(a, b, r))
  {
  }

  lemma ReachableIsConsistent(s: State)
    requires Reachable(s)
    ensures Consistent(s)
  {
    var a, b, r, events :| ReachedBy(s, a, b, r, events);
    NewRoomIsConsistent(a, b, r);
    RunsAreConsistent(NewState(a, b, r), events);
  }

  // ---------------------------------------------------------------- termination

  function Ticks(events: seq<Event>): nat {
    if events == [] then 0
    else Ticks(events[..|events| - 1]) + (if events[|events| - 1] == Tick then 1 else 0)
  }

  function TicksLeft(s: State): int {
    if s.status == MatchFinished then 0 else s.rules.countdownTicks + s.rules.matchDurationTicks - s.tick
  }

  /** A tick always brings an unfinished match closer to its end. */
  lemma TickMakesProgress(s: State)
    requires Consistent(s) && s.status != MatchFinished
    ensures 0 <= TicksLeft(Step(s)) < TicksLeft(s)
  {
    ConsistentIsKept(s, Tick);
    if s.status == MatchActive {
      FoughtFrame(s);
    }
  }

  lemma {:induction false} UnfinishedCountsTicks(s: State, events: seq<Event>)
    requires Consistent(s) && Run(s, events).status != MatchFinished
    ensures Run(s, events).tick == s.tick + Ticks(events)
    decreases |events|
  {
    if events != [] {
      var before := events[..|events| - 1];
      var mid := Run(s, before);
      RunsAreConsistent(s, before);
      match events[|events| - 1] {
        case Deliver(id, input) => SubmitPreservesAllButQueues(mid, id, input);
        case Tick => FoughtFrame(mid);
      }
      UnfinishedCountsTicks(s, before);
    }
  }

  /** Every run with as many ticks as countdown and match together is over, whatever was submitted. */
  lemma EveryMatchEnds(a: string, b: string, r: Ruleset, events: seq<Event>)
    requires a != "" && b != "" && a != b && Accepted(r)
    requires Ticks(events) >= r.countdownTicks + r.matchDurationTicks
    ensures Run(NewState(a, b, r), events).status == MatchFinished
    ensures RightfulOutcome(Run(NewState(a, b, r), events))
  {
    var start := NewState(a, b, r);
    NewRoomIsConsistent(a, b, r);
    RunsAreConsistent(start, events);
    if Run(start, events).status != MatchFinished {
      UnfinishedCountsTicks(start, events);
    }
  }

  /** Nothing that happens after the end changes what the room publishes. */
  lemma {:induction false} FinishedIsAbsorbing(s: State, events: seq<Event>)
    requires s.status == MatchFinished
    ensures SnapshotOf(Run(s, events)) == SnapshotOf(s)
    decreases |events|
  {
    if events != [] {
      var before := events[..|events| - 1];
      FinishedIsAbsorbing(s, before);
      match events[|events| - 1] {
        case Deliver(id, input) => SubmitPreservesAllButQueues(Run(s, before), id, input);
        case Tick =>
      }
    }
  }

  /** The published clocks: the room's tick, and exactly the ticks that are left in the phase. */
  lemma SnapshotCountsDown(s: State)
    requires Reachable(s)
    ensures var shot := SnapshotOf(s);
            && shot.serverTick == s.tick && shot.arenaID == s.rules.arena.id
            && (s.status == MatchCountdown ==>
                  shot.countdownTicksRemaining == s.rules.countdownTicks - s.tick > 0 && shot.matchTicksRemaining == 0)
            && (s.status == MatchActive ==>
                  shot.countdownTicksRemaining == 0 && shot.matchTicksRemaining == TicksLeft(s) > 0)
            && (s.status == MatchFinished ==>
                  shot.countdownTicksRemaining == 0 && shot.matchTicksRemaining == 0)
  {
    ReachableIsConsistent(s);
  }
}
