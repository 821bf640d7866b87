/**
 A one-slot channel whose single producer replaces an unread value instead of waiting. The room's loop publishes
 its snapshots this way, and so does the broadcaster towards each player; only the loop's terminal publication
 waits for a free slot.

 Every step below is one atomic channel operation, so the consumer may act between any two steps of the producer.
 A value is named by its position in `produced`.
 */
module Mailbox {
  import opened RoomModel

  datatype Producer =
    | Resting                 // no publication under way
    | Offering(last: bool)    // about to try the plain send of the newest value
    | Dropping(last: bool)    // about to discard whatever is in the slot
    | Resending(last: bool)   // about to send again
    | Lost                    // a terminal publication was given up because of a cancellation

  datatype Box<T> = Box(producer: Producer, slot: Option<nat>, produced: seq<T>, taken: seq<nat>)

  function EmptyBox<T>(): Box<T> {
    Box(Resting, None, [], [])
  }

  datatype Action<T> = Publish(value: T, last: bool) | Advance | GiveUp | Take

  predicate Possible<T>(b: Box<T>, action: Action<T>) {
    match action
    case Publish(_, _) => b.producer.Resting?
    case Advance => b.producer.Offering? || b.producer.Dropping?
                    || (b.producer.Resending? && (b.producer.last ==> b.slot.None?))
    case GiveUp => b.producer.Resending? && b.producer.last
    case Take => b.slot.Some?
  }

  function Next<T>(b: Box<T>, action: Action<T>): Box<T>
    requires Possible(b, action)
  {
    match action
    case Publish(value, last) => b.(producer := Offering(last), produced := b.produced + [value])
    case Advance => Advanced(b)
    case GiveUp => b.(producer := Lost)
    case Take => b.(slot := None, taken := b.taken + [b.slot.value])
  }

  /** One step of the publication of the newest value. */
  function Advanced<T>(b: Box<T>): Box<T> {
    if b.produced == [] then b
    else
      var newest: nat := |b.produced| - 1;
      match b.producer
      case Offering(last) =>
        if b.slot.None? then b.(slot := Some(newest), producer := Resting) else b.(producer := Dropping(last))
      case Dropping(last) => b.(slot := None, producer := Resending(last))
      case Resending(last) =>
        if b.slot.None? then b.(slot := Some(newest), producer := Resting) else b.(producer := Resting)
      case _ => b
  }

  ghost predicate Publishing(p: Producer) {
    p.Offering? || p.Dropping? || p.Resending?
  }

  ghost predicate Rising(positions: seq<nat>, bound: nat) {
    (forall i, j :: 0 <= i < j < |positions| ==> positions[i] < positions[j])
    && forall i :: 0 <= i < |positions| ==> positions[i] < bound
  }

  /** The newest value is in the slot or has been taken. */
  ghost predicate NewestDelivered<T>(b: Box<T>) {
    b.produced != [] ==>
      b.slot == Some(|b.produced| - 1) || (b.taken != [] && b.taken[|b.taken| - 1] == |b.produced| - 1)
  }

  ghost predicate Sound<T>(b: Box<T>) {
    && Rising(b.taken, if b.slot.Some? then b.slot.value else |b.produced|)
    && (b.slot.Some? ==> b.slot.value < |b.produced|)
    && (b.producer.Resting? ==> NewestDelivered(b))
    && (Publishing(b.producer) || b.producer.Lost? ==>
          && b.produced != [] && Rising(b.taken, |b.produced| - 1)
          && (b.slot.Some? ==> b.slot.value < |b.produced| - 1))
    && (b.producer.Resending? || b.producer.Lost? ==> b.slot.None?)
  }

  lemma SoundIsKept<T>(b: Box<T>, action: Action<T>)
    requires Sound(b) && Possible(b, action)
    ensures Sound(Next(b, action))
  {
  }

  function Run<T>(b: Box<T>, actions: seq<Action<T>>): Option<Box<T>>
    decreases |actions|
  {
    if actions == [] then Some(b)
    else
      var before := Run(b, actions[..|actions| - 1]);
      if before.Some? && Possible(before.value, actions[|actions| - 1])
      then Some(Next(before.value, actions[|actions| - 1]))
      else None
  }

  /**
   Under every interleaving: the consumer takes values in the order they were produced, none twice; between
   publications the newest value is in the slot or already taken; a replacement always finds the slot free, so the
   new value is never the one discarded; and a terminal publication can be lost only by giving up.
   */
  lemma {:induction false} LatestValueWins<T>(actions: seq<Action<T>>)
    requires Run(EmptyBox<T>(), actions).Some?
    ensures Sound(Run(EmptyBox<T>(), actions).value)
    ensures Run(EmptyBox<T>(), actions).value.producer.Lost? ==> GiveUp in actions
    decreases |actions|
  {
    if actions != [] {
      var n := |actions| - 1;
      LatestValueWins(actions[..n]);
      SoundIsKept(Run(EmptyBox<T>(), actions[..n]).value, actions[n]);
    }
  }

  /** A publication never waits for the consumer, not even the terminal one. */
  lemma PublishingNeverWaits<T>(b: Box<T>)
    requires Sound(b) && Publishing(b.producer)
    ensures Possible(b, Advance)
  {
  }

  /** What the consumer has seen. */
  function Seen<T>(b: Box<T>): seq<T>
    requires forall i :: 0 <= i < |b.taken| ==> b.taken[i] < |b.produced|
  {
    seq(|b.taken|, i requires 0 <= i < |b.taken| => b.produced[b.taken[i]])
  }

  /** If the producer's keys rise, so do the consumer's. */
  lemma SeenRises<T>(b: Box<T>, key: T -> int)
    requires Sound(b)
    requires forall i, j :: 0 <= i < j < |b.produced| ==> key(b.produced[i]) < key(b.produced[j])
    ensures forall i :: 0 <= i < |b.taken| ==> b.taken[i] < |b.produced|
    ensures forall i, j :: 0 <= i < j < |b.taken| ==> key(Seen(b)[i]) < key(Seen(b)[j])
  {
  }
}
