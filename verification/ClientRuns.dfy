/**
 The client over whole executions: which button presses become commands, what it predicts, and what a snapshot leaves of
 its predictions. The histories below are told in terms of buttons and directions, not of what travels.
 */
module ClientRuns {
  import opened RoomModel
  import opened RoomSlots
  import opened ActionQueue
  import opened MatchController
  import opened Delivery
  import opened Prediction
  import Interpolation
  import RoomCommands
  import RoomLifecycle

  /** The system after some actions; `Execution` says besides that each of them was possible. */
  function After(start: System, actions: seq<Delivery.Action>): System {
    if actions == [] then start else Delivery.Next(After(start, actions[..|actions| - 1]), actions[|actions| - 1])
  }

  lemma {:induction false} ExecutionLeadsTo(start: System, actions: seq<Delivery.Action>, end: System)
    requires Execution(start, actions, end)
    ensures end == After(start, actions)
    ensures actions != [] ==>
              var n := |actions| - 1;
              && Execution(start, actions[..n], After(start, actions[..n]))
              && Possible(After(start, actions[..n]), actions[n])
              && end == Delivery.Next(After(start, actions[..n]), actions[n])
    decreases |actions|
  {
    if actions != [] {
      var n := |actions| - 1;
      var mid :|
        Execution(start, actions[..n], mid) && Possible(mid, actions[n]) && end == Delivery.Next(mid, actions[n]);
      ExecutionLeadsTo(start, actions[..n], mid);
    }
  }

  // ---------------------------------------------------------------- which presses become commands

  /** A button press that became a command, and the tick on which it did. */
  datatype Press = Press(tick: U32, action: ActionQueue.Action)

  function Dashes(pressed: seq<ActionQueue.Action>): seq<ActionQueue.Action> {
    if pressed == [] then []
    else
      var last := |pressed| - 1;
      Dashes(pressed[..last]) + if pressed[last] == PressDash then [PressDash] else []
  }

  /** A light attack is wanted while its button is pressed or held, but not until the last one is long enough ago. */
  predicate AttackIsDue(c: Client, frame: InputFrame) {
    (PressLightAttack in frame.pressed || PressLightAttack in frame.held)
    && (c.inputTick + 1) % U32_LIMIT >= c.nextLightAttackTick
  }

  function Wanted(c: Client, frame: InputFrame): seq<ActionQueue.Action> {
    Dashes(frame.pressed) + if AttackIsDue(c, frame) then [PressLightAttack] else []
  }

  /** How many commands the queue still takes: eight wait at most, and there are 2^32 - 1 sequence numbers. */
  function Places(q: Queue): nat {
    if q.nextSequence == 0 || |q.pending| >= 8 then 0
    else if 8 - |q.pending| < U32_LIMIT - q.nextSequence then 8 - |q.pending|
    else U32_LIMIT - q.nextSequence
  }

  function FirstOf(actions: seq<ActionQueue.Action>, places: nat): seq<ActionQueue.Action> {
    if |actions| <= places then actions else actions[..places]
  }

  /** Between the start and the end of a match that is known to be under way. */
  predicate InPlay(c: Client) {
    c.started && !c.ended && c.world.Some? && c.world.value.status == MatchActive
  }

  /** The presses a client accepts on a tick: the dashes in order, then the attack, as long as there are places. */
  function TakenOn(c: Client, frame: InputFrame): seq<ActionQueue.Action> {
    if InPlay(c) then FirstOf(Wanted(c, frame), Places(c.queue)) else []
  }

  function AsPresses(tick: U32, actions: seq<ActionQueue.Action>): seq<Press> {
    seq(|actions|, i requires 0 <= i < |actions| => Press(tick, actions[i]))
  }

  function PressesOn(s: System, action: Delivery.Action): seq<Press> {
    if action.ClientTicks? then AsPresses((s.client.inputTick + 1) % U32_LIMIT, TakenOn(s.client, action.frame)) else []
  }

  /** The accepted presses of an execution. */
  function Presses(start: System, actions: seq<Delivery.Action>): seq<Press> {
    if actions == [] then []
    else
      var last := |actions| - 1;
      Presses(start, actions[..last]) + PressesOn(After(start, actions[..last]), actions[last])
  }

  function ActionsOf(commands: seq<Command>): seq<ActionQueue.Action> {
    seq(|commands|, i requires 0 <= i < |commands| => commands[i].action)
  }

  /** `q` has become `t` by taking these actions. */
  ghost predicate Took(q: Queue, t: Queue, actions: seq<ActionQueue.Action>) {
    q.pending <= t.pending && ActionsOf(t.pending[|q.pending|..]) == actions
  }

  lemma EnqueueTakes(q: Queue, mid: Queue, action: ActionQueue.Action, taken: seq<ActionQueue.Action>)
    requires Took(q, mid, taken) && (action == PressDash || action == PressLightAttack)
    requires Places(mid) == Places(q) - |taken|
    ensures var t, now := Enqueued(mid, action), if Places(mid) > 0 then taken + [action] else taken;
            Took(q, t, now) && Places(t) == Places(q) - |now|
  {
    var t := Enqueued(mid, action);
    if Places(mid) > 0 {
      var command := Command(mid.nextSequence, action);
      assert t.pending[|q.pending|..] == mid.pending[|q.pending|..] + [command];
    }
  }

  lemma {:induction false} PressedTakes(q: Queue, pressed: seq<ActionQueue.Action>)
    ensures var taken := FirstOf(Dashes(pressed), Places(q));
            Took(q, PressedEnqueued(q, pressed), taken) && Places(PressedEnqueued(q, pressed)) == Places(q) - |taken|
    decreases |pressed|
  {
    if pressed != [] {
      var last := |pressed| - 1;
      var mid, taken := PressedEnqueued(q, pressed[..last]), FirstOf(Dashes(pressed[..last]), Places(q));
      PressedTakes(q, pressed[..last]);
      if pressed[last] == PressDash {
        EnqueueTakes(q, mid, PressDash, taken);
      }
    }
  }

  lemma TickTakes(c: Client, frame: InputFrame)
    ensures Took(c.queue, Ticked(c, frame).queue, TakenOn(c, frame))
  {
    if Playing(c) {
      var mid, taken := PressedEnqueued(c.queue, frame.pressed), FirstOf(Dashes(frame.pressed), Places(c.queue));
      PressedTakes(c.queue, frame.pressed);
      EnqueueTakes(c.queue, mid, PressLightAttack, taken);
      assert CanEnqueue(mid, PressLightAttack) <==> Places(mid) > 0;
    }
  }

  /** The commands carry out these presses. */
  ghost predicate CarryOut(log: seq<ActionCommand>, presses: seq<Press>) {
    && |log| == |presses|
    && forall i :: 0 <= i < |log| ==>
         && (log[i].kind == Dash <==> presses[i].action == PressDash)
         && (log[i].kind == LightAttack <==> presses[i].action == PressLightAttack)
  }

  lemma TakenAreAdded(s: System, frame: InputFrame)
    ensures CarryOut(Added(s.client.queue, Ticked(s.client, frame).queue), PressesOn(s, ClientTicks(frame)))
  {
    TickTakes(s.client, frame);
    var q, t := s.client.queue, Ticked(s.client, frame).queue;
    var more := t.pending[|q.pending|..];
    assert |ActionsOf(more)| == |more| == |t.pending| - |q.pending|;
    forall i | 0 <= i < |more| ensures more[i].action == TakenOn(s.client, frame)[i] {
      assert ActionsOf(more)[i] == more[i].action;
    }
  }

  /**
   In every execution, the commands the client has sent out are the button presses it has accepted, one for one and in
   order: a dash for each dash button and a light attack for each light attack button.
   */
  lemma {:induction false} CommandsAreThePresses(start: System, actions: seq<Delivery.Action>, end: System)
    requires Initial(start) && Execution(start, actions, end)
    ensures CarryOut(end.log, Presses(start, actions))
    decreases |actions|
  {
    ExecutionLeadsTo(start, actions, end);
    if actions != [] {
      var n := |actions| - 1;
      var mid := After(start, actions[..n]);
      CommandsAreThePresses(start, actions[..n], mid);
      if actions[n].ClientTicks? {
        TakenAreAdded(mid, actions[n].frame);
      }
    }
  }

  /** So the room has consumed the presses up to its acknowledgement, each exactly once. */
  lemma PressesAreConsumed(start: System, actions: seq<Delivery.Action>, end: System)
    requires Initial(start) && Execution(start, actions, end)
    ensures Ack(end) <= |Presses(start, actions)| && CarryOut(end.consumed, Presses(start, actions)[..Ack(end)])
  {
    CommandsAreThePresses(start, actions, end);
    ExactlyOnceInOrder(start, actions, end);
  }

  // ---------------------------------------------------------------- a held button repeats

  /** All attacks so far were pressed by now, and the hold-off counts from the last of them. */
  ghost predicate HoldOff(c: Client, presses: seq<Press>) {
    && (forall p :: p in presses ==> p.tick <= c.inputTick)
    && if exists p :: p in presses && p.action == PressLightAttack
       then exists p :: LastAttack(presses, p) && c.nextLightAttackTick == p.tick + 15
       else c.nextLightAttackTick == 0
  }

  ghost predicate LastAttack(presses: seq<Press>, p: Press) {
    && p in presses && p.action == PressLightAttack
    && forall q :: q in presses && q.action == PressLightAttack ==> q.tick <= p.tick
  }

  lemma AttackIsTaken(c: Client, frame: InputFrame)
    ensures var tick := (c.inputTick + 1) % U32_LIMIT;
            Ticked(c, frame).nextLightAttackTick
            == if PressLightAttack in TakenOn(c, frame) then (tick + 15) % U32_LIMIT else c.nextLightAttackTick
  {
    if Playing(c) {
      PressedTakes(c.queue, frame.pressed);
      AttackAmongTaken(c, frame, PressedEnqueued(c.queue, frame.pressed));
    }
  }

  /** The attack is taken if it is due and the dashes have left a place for it. */
  lemma AttackAmongTaken(c: Client, frame: InputFrame, mid: Queue)
    requires InPlay(c) && Places(mid) == Places(c.queue) - |FirstOf(Dashes(frame.pressed), Places(c.queue))|
    ensures PressLightAttack in TakenOn(c, frame) <==> AttackIsDue(c, frame) && CanEnqueue(mid, PressLightAttack)
  {
    NoAttackAmong(frame.pressed);
    assert CanEnqueue(mid, PressLightAttack) <==> Places(mid) > 0;
    var wanted := Wanted(c, frame);
    if AttackIsDue(c, frame) {
      assert wanted[|wanted| - 1] == PressLightAttack && wanted[..|wanted| - 1] == Dashes(frame.pressed);
    }
  }

  lemma {:induction false} NoAttackAmong(pressed: seq<ActionQueue.Action>)
    ensures PressLightAttack !in Dashes(pressed)
    decreases |pressed|
  {
    if pressed != [] {
      NoAttackAmong(pressed[..|pressed| - 1]);
    }
  }

  /** New presses of tick `tick`, which is later than all others, with an attack among them or not. */
  lemma PressesHoldOff(c: Client, t: Client, presses: seq<Press>, more: seq<Press>)
    requires HoldOff(c, presses) && c.inputTick <= t.inputTick
    requires forall p :: p in more ==> p.tick == t.inputTick
    requires if exists p :: p in more && p.action == PressLightAttack then t.nextLightAttackTick == t.inputTick + 15
             else t.nextLightAttackTick == c.nextLightAttackTick
    ensures HoldOff(t, presses + more)
  {
    if p :| p in more && p.action == PressLightAttack {
      assert LastAttack(presses + more, p);
    } else if p :| LastAttack(presses, p) && c.nextLightAttackTick == p.tick + 15 {
      assert LastAttack(presses + more, p);
    } else {
      assert forall p :: p in presses + more ==> p in presses || p in more;
    }
  }

  lemma TickIsCounted(c: Client, frame: InputFrame)
    requires c.inputTick + 16 < U32_LIMIT
    ensures Ticked(c, frame).inputTick == if InPlay(c) then c.inputTick + 1 else c.inputTick
    ensures !InPlay(c) ==> TakenOn(c, frame) == []
  {
  }

  lemma AttackAmongPresses(tick: U32, actions: seq<ActionQueue.Action>)
    ensures (exists p :: p in AsPresses(tick, actions) && p.action == PressLightAttack)
       <==> PressLightAttack in actions
    ensures forall p :: p in AsPresses(tick, actions) ==> p.tick == tick
  {
    if PressLightAttack in actions {
      var i :| 0 <= i < |actions| && actions[i] == PressLightAttack;
      assert AsPresses(tick, actions)[i] in AsPresses(tick, actions);
    }
  }

  /** What a tick does to the client's clocks, given what it takes. */
  lemma TickOfClocks(c: Client, frame: InputFrame, taken: seq<ActionQueue.Action>) returns (t: Client)
    requires taken == TakenOn(c, frame) && c.inputTick + 16 < U32_LIMIT
    ensures t == Ticked(c, frame) && t.inputTick >= c.inputTick
    ensures taken != [] ==> t.inputTick == c.inputTick + 1
    ensures t.nextLightAttackTick == if PressLightAttack in taken then t.inputTick + 15 else c.nextLightAttackTick
  {
    t := Ticked(c, frame);
    AttackIsTaken(c, frame);
    TickIsCounted(c, frame);
  }

  lemma TakenHoldsOff(c: Client, t: Client, presses: seq<Press>, taken: seq<ActionQueue.Action>, more: seq<Press>)
    requires HoldOff(c, presses) && c.inputTick + 1 < U32_LIMIT && more == AsPresses(c.inputTick + 1, taken)
    requires t.inputTick >= c.inputTick && (taken != [] ==> t.inputTick == c.inputTick + 1)
    requires t.nextLightAttackTick == if PressLightAttack in taken then t.inputTick + 15 else c.nextLightAttackTick
    ensures HoldOff(t, presses + more)
  {
    AttackAmongPresses(c.inputTick + 1, taken);
    PressesHoldOff(c, t, presses, more);
  }

  lemma TickHoldsOff(s: System, frame: InputFrame, presses: seq<Press>)
    requires HoldOff(s.client, presses) && s.client.inputTick + 16 < U32_LIMIT
    ensures HoldOff(Ticked(s.client, frame), presses + PressesOn(s, ClientTicks(frame)))
  {
    var taken := TakenOn(s.client, frame);
    var t := TickOfClocks(s.client, frame, taken);
    TakenHoldsOff(s.client, t, presses, taken, PressesOn(s, ClientTicks(frame)));
  }

  lemma TicksCountUp(c: Client, frame: InputFrame)
    requires c.inputTick + 1 < U32_LIMIT
    ensures c.inputTick <= Ticked(c, frame).inputTick <= c.inputTick + 1
  {
  }

  lemma SnapshotsLeaveButtons(c: Client, shot: Snapshot)
    ensures var t := SnapshotApplied(c, shot);
            t.inputTick == c.inputTick && t.nextLightAttackTick == c.nextLightAttackTick
  {
  }

  lemma ActionHoldsOff(s: System, action: Delivery.Action, presses: seq<Press>)
    requires HoldOff(s.client, presses) && s.client.inputTick + 16 < U32_LIMIT
    ensures var t := Delivery.Next(s, action);
            && HoldOff(t.client, presses + PressesOn(s, action))
            && s.client.inputTick <= t.client.inputTick <= s.client.inputTick + 1
  {
    assert !action.ClientTicks? ==> presses + PressesOn(s, action) == presses;
    match action
    case ClientTicks(frame) =>
      TickHoldsOff(s, frame, presses);
      TicksCountUp(s.client, frame);
    case ClientStarts(shot) => SnapshotsLeaveButtons(s.client.(started := true), shot);
    case ClientReceives(shot) => SnapshotsLeaveButtons(s.client, shot);
    case ClientEnds(shot) => SnapshotsLeaveButtons(s.client, shot.(status := MatchFinished));
    case _ =>
  }

  lemma {:induction false} ExecutionsHoldOff(start: System, actions: seq<Delivery.Action>, end: System)
    requires Initial(start) && Execution(start, actions, end) && |actions| + 15 < U32_LIMIT
    ensures HoldOff(end.client, Presses(start, actions)) && end.client.inputTick <= |actions|
    decreases |actions|
  {
    ExecutionLeadsTo(start, actions, end);
    if actions != [] {
      var n := |actions| - 1;
      var mid := After(start, actions[..n]);
      ExecutionsHoldOff(start, actions[..n], mid);
      ActionHoldsOff(mid, actions[n], Presses(start, actions[..n]));
    }
  }

  /**
   Over every execution in which the ticks do not wrap: a light attack whose button is pressed or held is due again
   exactly when every accepted one was 15 ticks ago or more.
   */
  lemma HeldAttackRepeats(start: System, actions: seq<Delivery.Action>, s: System, frame: InputFrame)
    requires Initial(start) && Execution(start, actions, s) && |actions| + 15 < U32_LIMIT
    requires PressLightAttack in frame.pressed || PressLightAttack in frame.held
    ensures AttackIsDue(s.client, frame)
       <==> forall p :: p in Presses(start, actions) && p.action == PressLightAttack ==>
              p.tick + 15 <= s.client.inputTick + 1
  {
    ExecutionsHoldOff(start, actions, s);
    DueIffLongAgo(s.client, frame, Presses(start, actions));
  }

  lemma DueIffLongAgo(c: Client, frame: InputFrame, presses: seq<Press>)
    requires HoldOff(c, presses) && c.inputTick + 1 < U32_LIMIT
    requires PressLightAttack in frame.pressed || PressLightAttack in frame.held
    ensures AttackIsDue(c, frame)
       <==> forall p :: p in presses && p.action == PressLightAttack ==> p.tick + 15 <= c.inputTick + 1
  {
    if p :| LastAttack(presses, p) && c.nextLightAttackTick == p.tick + 15 {
      assert p in presses;
    }
  }
}
