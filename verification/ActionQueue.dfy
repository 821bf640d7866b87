/** The client's end of the command protocol: commands wait here until the server acknowledges them. */
module ActionQueue {
  import opened RoomModel

  const MAXIMUM_SIZE := 8

  datatype Action = MoveUp | MoveDown | MoveLeft | MoveRight | PressDash | PressLightAttack

  datatype Command = Command(sequence: U32, action: Action)

  /** `nextSequence` is 0 once all sequence numbers have been used up. */
  datatype Queue = Queue(nextSequence: U32, pending: seq<Command>)

  const EMPTY_QUEUE := Queue(1, [])

  predicate IsEdgeAction(action: Action) {
    action == PressDash || action == PressLightAttack
  }

  predicate CanEnqueue(q: Queue, action: Action) {
    IsEdgeAction(action) && |q.pending| < MAXIMUM_SIZE && q.nextSequence != 0
  }

  function Enqueued(q: Queue, action: Action): Queue {
    if CanEnqueue(q, action)
    then Queue((q.nextSequence + 1) % U32_LIMIT, q.pending + [Command(q.nextSequence, action)])
    else q
  }

  /** The commands a cumulative acknowledgement leaves waiting. */
  function Unacknowledged(commands: seq<Command>, sequence: U32): seq<Command> {
    if commands == [] then []
    else if commands[0].sequence <= sequence then Unacknowledged(commands[1..], sequence)
    else [commands[0]] + Unacknowledged(commands[1..], sequence)
  }

  class PendingActionQueue {
    var nextSequence: U32
    var pending: seq<Command>

    ghost function Value(): Queue
      reads this
    {
      Queue(nextSequence, pending)
    }

    constructor ()
      ensures Value() == EMPTY_QUEUE
    {
      nextSequence, pending := 1, [];
    }

    method Enqueue(action: Action) returns (accepted: bool)
      modifies this
      ensures Value() == Enqueued(old(Value()), action) && accepted == CanEnqueue(old(Value()), action)
    {
      if !IsEdgeAction(action) || |pending| >= MAXIMUM_SIZE || nextSequence == 0 {
        return false;
      }
      pending := pending + [Command(nextSequence, action)];
      nextSequence := (nextSequence + 1) % U32_LIMIT;
      return true;
    }

    method Acknowledge(sequence: U32)
      modifies this
      ensures Value() == old(Value()).(pending := Unacknowledged(old(pending), sequence))
    {
      var kept := [];
      for n := 0 to |pending|
        invariant kept + Unacknowledged(pending[n..], sequence) == Unacknowledged(pending, sequence)
      {
        assert pending[n..][0] == pending[n] && pending[n..][1..] == pending[n + 1..];
        if pending[n].sequence > sequence {
          kept := kept + [pending[n]];
        }
      }
      pending := kept;
    }
  }
}
