/**
 The opponent's snapshot buffer. Positions and the render clock are exact reals here; rounding to `float` is not part
 of this model.
 */
module Interpolation {
  import opened RoomModel

  datatype Point = Point(tick: nat, x: real, y: real)
  datatype Position = Position(x: real, y: real)
  datatype Buffer = Buffer(delayTicks: U32, capacity: nat, points: seq<Point>, renderTick: real, initialized: bool)

  const TICKS_PER_SECOND := 30.0

  function NewBuffer(delayTicks: U32, capacity: nat): Buffer {
    Buffer(delayTicks, if capacity < 2 then 2 else capacity, [], 0.0, false)
  }

  function Newest(points: seq<Point>): Point
    requires points != []
  {
    points[|points| - 1]
  }

  function Trimmed(points: seq<Point>, capacity: nat): seq<Point> {
    if |points| > capacity then points[|points| - capacity..] else points
  }

  function Pushed(b: Buffer, tick: nat, x: int, y: int): Buffer {
    if b.points != [] && tick <= Newest(b.points).tick then b
    else
      b.(points := Trimmed(b.points + [Point(tick, x as real, y as real)], b.capacity),
         renderTick := if b.initialized then b.renderTick else tick as real,
         initialized := true)
  }

  function Max(u: real, v: real): real {
    if u < v then v else u
  }

  function Min(u: real, v: real): real {
    if v < u then v else u
  }

  /** How far the render clock may go: the delayed newest tick, but never before the oldest point. */
  function Target(b: Buffer): real
    requires b.points != []
  {
    var latest := Newest(b.points).tick;
    Max(b.points[0].tick as real, (if latest > b.delayTicks then latest - b.delayTicks else 0) as real)
  }

  function Advanced(b: Buffer, elapsedSeconds: real): Buffer {
    if b.points == [] then b
    else b.(renderTick := Min(b.renderTick + Max(elapsedSeconds, 0.0) * TICKS_PER_SECOND, Target(b)))
  }

  function Blend(p: Point, n: Point, t: real): Position {
    var span := n.tick as real - p.tick as real;
    var blend := if span > 0.0 then (t - p.tick as real) / span else 0.0;
    Position(p.x + (n.x - p.x) * blend, p.y + (n.y - p.y) * blend)
  }

  /** The loop of `Sample` from `index` on: the first point not before `t` ends the search. */
  function Search(points: seq<Point>, index: nat, t: real): Position
    requires 1 <= index <= |points|
    decreases |points| - index
  {
    if index == |points| then Position(Newest(points).x, Newest(points).y)
    else if t > points[index].tick as real then Search(points, index + 1, t)
    else Blend(points[index - 1], points[index], t)
  }

  function Sampled(b: Buffer): Position {
    if b.points == [] then Position(0.0, 0.0)
    else if b.renderTick <= b.points[0].tick as real then Position(b.points[0].x, b.points[0].y)
    else Search(b.points, 1, b.renderTick)
  }

  class InterpolationBuffer {
    const delayTicks: U32
    const capacity: nat
    var points: seq<Point>
    var renderTick: real
    var initialized: bool

    ghost function Value(): Buffer
      reads this
    {
      Buffer(delayTicks, capacity, points, renderTick, initialized)
    }

    constructor (delayTicks: U32, capacity: nat)
      ensures Value() == NewBuffer(delayTicks, capacity)
    {
      this.delayTicks := delayTicks;
      this.capacity := if capacity < 2 then 2 else capacity;
      points, renderTick, initialized := [], 0.0, false;
    }

    method Push(serverTick: nat, x: int, y: int)
      modifies this
      ensures Value() == Pushed(old(Value()), serverTick, x, y)
    {
      if points != [] && serverTick <= points[|points| - 1].tick {
        return;
      }
      points := points + [Point(serverTick, x as real, y as real)];
      if !initialized {
        renderTick := serverTick as real;
        initialized := true;
      }
      ghost var all, dropped := points, 0;
      while |points| > capacity
        modifies `points
        invariant dropped <= |all| && points == all[dropped..]
        invariant dropped > 0 ==> |points| >= capacity
        decreases |points|
      {
        points := points[1..];
        dropped := dropped + 1;
      }
      assert points == Trimmed(all, capacity);
    }

    method Advance(elapsedSeconds: real)
      modifies `renderTick
      ensures Value() == Advanced(old(Value()), elapsedSeconds)
    {
      if points == [] {
        return;
      }
      var firstTick := points[0].tick as real;
      var latestTick := points[|points| - 1].tick;
      var delayedTick := if latestTick > delayTicks then latestTick - delayTicks else 0;
      var targetTick := Max(firstTick, delayedTick as real);
      renderTick := Min(renderTick + Max(elapsedSeconds, 0.0) * TICKS_PER_SECOND, targetTick);
    }

    method Sample() returns (position: Position)
      ensures position == Sampled(Value())
    {
      if points == [] {
        return Position(0.0, 0.0);
      }
      var targetTick := renderTick;
      if targetTick <= points[0].tick as real {
        return Position(points[0].x, points[0].y);
      }
      for index := 1 to |points|
        invariant Search(points, index, targetTick) == Search(points, 1, targetTick)
      {
        if targetTick > points[index].tick as real {
          continue;
        }
        return Blend(points[index - 1], points[index], targetTick);
      }
      return Position(points[|points| - 1].x, points[|points| - 1].y);
    }
  }

  // ---------------------------------------------------------------- over every run

  datatype Event = Push(tick: nat, x: int, y: int) | Advance(elapsedSeconds: real)

  function Handle(b: Buffer, e: Event): Buffer {
    match e
    case Push(tick, x, y) => Pushed(b, tick, x, y)
    case Advance(elapsed) => Advanced(b, elapsed)
  }

  function Run(b: Buffer, events: seq<Event>): Buffer {
    if events == [] then b else Handle(Run(b, events[..|events| - 1]), events[|events| - 1])
  }

  ghost predicate AscendingTicks(points: seq<Point>) {
    forall i, j :: 0 <= i < j < |points| ==> points[i].tick < points[j].tick
  }

  ghost predicate Orderly(b: Buffer) {
    && AscendingTicks(b.points) && 2 <= b.capacity && |b.points| <= b.capacity
    && (b.points != [] <==> b.initialized)
    && (b.points != [] ==> b.renderTick <= Target(b))
  }

  lemma OrderIsKept(b: Buffer, e: Event)
    requires Orderly(b)
    ensures Orderly(Handle(b, e))
    ensures b.initialized ==> b.renderTick <= Handle(b, e).renderTick
  {
    match e
    case Push(tick, x, y) => PushKeepsOrder(b, tick, x, y);
    case Advance(elapsed) =>
  }

  lemma PushKeepsOrder(b: Buffer, tick: nat, x: int, y: int)
    requires Orderly(b)
    ensures Orderly(Pushed(b, tick, x, y))
  {
    if b.points == [] {
      assert Target(Pushed(b, tick, x, y)) >= tick as real;
    } else if tick > Newest(b.points).tick {
      var all := b.points + [Point(tick, x as real, y as real)];
      TrimKeepsOrder(all, b.capacity);
      TargetGrows(b, b.(points := Trimmed(all, b.capacity)));
    }
  }

  lemma TrimKeepsOrder(all: seq<Point>, capacity: nat)
    requires AscendingTicks(all) && all != [] && 2 <= capacity
    ensures var kept := Trimmed(all, capacity);
            && AscendingTicks(kept) && 0 < |kept| <= capacity
            && all[0].tick <= kept[0].tick && Newest(kept) == Newest(all)
  {
  }

  lemma TargetGrows(b: Buffer, t: Buffer)
    requires b.points != [] && t.points != [] && b.delayTicks == t.delayTicks
    requires b.points[0].tick <= t.points[0].tick && Newest(b.points).tick <= Newest(t.points).tick
    ensures Target(b) <= Target(t)
  {
  }

  /**
   However snapshots and frames alternate: the ticks ascend, the capacity is kept, the render clock never goes back,
   and once it has left the oldest point it stays at least the delay behind the newest.
   */
  lemma {:induction false} BufferStaysOrderly(delayTicks: U32, capacity: nat, events: seq<Event>, n: nat)
    requires n <= |events|
    ensures var b := Run(NewBuffer(delayTicks, capacity), events[..n]);
            var later := Run(NewBuffer(delayTicks, capacity), events);
            && Orderly(b) && Orderly(later)
            && (b.initialized ==> later.initialized && b.renderTick <= later.renderTick)
            && (later.points != [] && later.renderTick > later.points[0].tick as real ==>
                  later.renderTick <= Newest(later.points).tick as real - delayTicks as real)
    ensures Run(NewBuffer(delayTicks, capacity), events).delayTicks == delayTicks
    decreases |events|
  {
    if events != [] {
      var last := |events| - 1;
      var before := events[..last];
      if n <= last {
        assert before[..n] == events[..n];
        BufferStaysOrderly(delayTicks, capacity, before, n);
      } else {
        assert events[..n] == events;
        BufferStaysOrderly(delayTicks, capacity, before, last);
      }
      OrderIsKept(Run(NewBuffer(delayTicks, capacity), before), events[last]);
    }
  }

  /** The larger of the oldest tick and the newest one less the delay. */
  predicate IsLimit(b: Buffer, limit: real)
    requires b.points != []
  {
    var oldest, delayed := b.points[0].tick as real, Newest(b.points).tick as real - b.delayTicks as real;
    limit >= oldest && limit >= delayed && (limit == oldest || limit == delayed)
  }

  /**
   Each frame moves the render clock by 30 ticks per elapsed second, as long as that does not take it past the limit; a
   clock that runs backwards does not move it.
   */
  lemma ClockAdvances(delayTicks: U32, capacity: nat, events: seq<Event>, elapsedSeconds: real, limit: real)
    requires var b := Run(NewBuffer(delayTicks, capacity), events); b.points != [] && IsLimit(b, limit)
    ensures var b := Run(NewBuffer(delayTicks, capacity), events);
            var t := Run(NewBuffer(delayTicks, capacity), events + [Advance(elapsedSeconds)]);
            var due := if elapsedSeconds > 0.0 then b.renderTick + 30.0 * elapsedSeconds else b.renderTick;
            t == b.(renderTick := if due <= limit then due else limit)
  {
    var all := events + [Advance(elapsedSeconds)];
    assert all[..|all| - 1] == events;
    BufferStaysOrderly(delayTicks, capacity, events, 0);
  }

  /**
   A newer point is kept in full behind those before it, of which only the oldest go, and only when there are more than
   the capacity; the first one starts the clock.
   */
  lemma PushesAreKept(delayTicks: U32, capacity: nat, events: seq<Event>, tick: nat, x: int, y: int)
    requires var b := Run(NewBuffer(delayTicks, capacity), events); b.points == [] || Newest(b.points).tick < tick
    ensures var b := Run(NewBuffer(delayTicks, capacity), events);
            var t := Run(NewBuffer(delayTicks, capacity), events + [Push(tick, x, y)]);
            var all := b.points + [Point(tick, x as real, y as real)];
            && t.points == all[|all| - |t.points|..] && |t.points| > 0
            && (t.points != all ==> |t.points| == t.capacity < |all|) && t.capacity == b.capacity
            && t.renderTick == if b.points == [] then tick as real else b.renderTick
  {
    var whole := events + [Push(tick, x, y)];
    assert whole[..|whole| - 1] == events;
    BufferStaysOrderly(delayTicks, capacity, events, 0);
    NewerIsKept(Run(NewBuffer(delayTicks, capacity), events), tick, x, y);
  }

  lemma NewerIsKept(b: Buffer, tick: nat, x: int, y: int)
    requires Orderly(b) && (b.points == [] || Newest(b.points).tick < tick)
    ensures var t, all := Pushed(b, tick, x, y), b.points + [Point(tick, x as real, y as real)];
            && t.points == all[|all| - |t.points|..] && |t.points| > 0
            && (t.points != all ==> |t.points| == t.capacity < |all|) && t.capacity == b.capacity
            && t.renderTick == if b.points == [] then tick as real else b.renderTick
  {
  }

  // ---------------------------------------------------------------- what a sample is

  /** `at` lies on the polyline through the points at time `t`. */
  ghost predicate OnPolyline(points: seq<Point>, t: real, at: Position)
    requires points != []
  {
    if t <= points[0].tick as real then at == Position(points[0].x, points[0].y)
    else exists i :: 1 <= i < |points| && OnSegment(points[i - 1], points[i], t, at)
  }

  /** The point divides the segment in the ratio of the elapsed to the remaining time. */
  ghost predicate OnSegment(p: Point, n: Point, t: real, at: Position) {
    && p.tick as real < t <= n.tick as real
    && (at.x - p.x) * (n.tick as real - t) == (n.x - at.x) * (t - p.tick as real)
    && (at.y - p.y) * (n.tick as real - t) == (n.y - at.y) * (t - p.tick as real)
  }

  predicate Between(u: real, v: real, w: real) {
    (u <= v <= w) || (w <= v <= u)
  }

  lemma BlendDivides(u: real, w: real, done: real, left: real, v: real)
    requires done > 0.0 && left >= 0.0 && v == u + (w - u) * (done / (done + left))
    ensures (v - u) * left == (w - v) * done && Between(u, v, w)
  {
    var blend := done / (done + left);
    assert blend * (done + left) == done;
    assert 0.0 < blend <= 1.0;
    assert (v - u) == (w - u) * blend;
    assert (w - v) == (w - u) * (1.0 - blend);
    assert blend * left == (1.0 - blend) * done;
    assert (w - u) * (blend * left) == (w - u) * ((1.0 - blend) * done);
    assert ((w - u) * blend) * left == (w - u) * (blend * left);
    assert ((w - u) * (1.0 - blend)) * done == (w - u) * ((1.0 - blend) * done);
    FractionIsBetween(u, w, blend);
  }

  lemma FractionIsBetween(u: real, w: real, blend: real)
    requires 0.0 <= blend <= 1.0
    ensures Between(u, u + (w - u) * blend, w)
  {
    FractionOf(w - u, blend, (w - u) * blend);
  }

  /** A fraction of a length lies between nothing and the whole, on whichever side the whole is. */
  lemma FractionOf(whole: real, blend: real, part: real)
    requires 0.0 <= blend <= 1.0 && part == whole * blend
    ensures 0.0 <= part <= whole || whole <= part <= 0.0
  {
    if whole >= 0.0 {
      ProductIsPositive(whole, blend);
      ProductIsPositive(whole, 1.0 - blend);
      assert whole * (1.0 - blend) == whole - part;
    } else {
      ProductIsPositive(-whole, blend);
      ProductIsPositive(-whole, 1.0 - blend);
      assert (-whole) * blend == -part;
      assert (-whole) * (1.0 - blend) == part - whole;
    }
  }

  lemma ProductIsPositive(u: real, v: real)
    requires 0.0 <= u && 0.0 <= v
    ensures 0.0 <= u * v
  {
  }

  lemma BlendIsOnSegment(p: Point, n: Point, t: real)
    requires (p.tick as real) < t <= n.tick as real
    ensures OnSegment(p, n, t, Blend(p, n, t))
    ensures Between(p.x, Blend(p, n, t).x, n.x) && Between(p.y, Blend(p, n, t).y, n.y)
  {
    var done, left := t - p.tick as real, n.tick as real - t;
    BlendDivides(p.x, n.x, done, left, Blend(p, n, t).x);
    BlendDivides(p.y, n.y, done, left, Blend(p, n, t).y);
  }

  /** The search ends at the one segment around `t`, never by running off the end. */
  lemma {:induction false} SearchBrackets(points: seq<Point>, index: nat, t: real) returns (i: nat)
    requires 1 <= index <= |points| && AscendingTicks(points)
    requires (points[index - 1].tick as real) < t <= Newest(points).tick as real
    ensures index <= i < |points| && (points[i - 1].tick as real) < t <= points[i].tick as real
    ensures Search(points, index, t) == Blend(points[i - 1], points[i], t)
    decreases |points| - index
  {
    if t > points[index].tick as real {
      i := SearchBrackets(points, index + 1, t);
    } else {
      i := index;
    }
  }

  /**
   In every reachable state with a point in it, the sample is the piecewise-linear interpolant at the render clock and
   lies between the two points around it; the loop's last resort is never needed.
   */
  lemma SampleInterpolates(delayTicks: U32, capacity: nat, events: seq<Event>)
    requires Run(NewBuffer(delayTicks, capacity), events).points != []
    ensures var b := Run(NewBuffer(delayTicks, capacity), events);
            && OnPolyline(b.points, b.renderTick, Sampled(b))
            && b.renderTick <= Newest(b.points).tick as real
            && (b.renderTick > b.points[0].tick as real ==>
                  exists i :: 1 <= i < |b.points| && Bracketed(b.points[i - 1], b.points[i], b.renderTick, Sampled(b)))
  {
    var b := Run(NewBuffer(delayTicks, capacity), events);
    BufferStaysOrderly(delayTicks, capacity, events, 0);
    assert b.points[0].tick <= Newest(b.points).tick;
    if b.renderTick > b.points[0].tick as real {
      var i := SearchBrackets(b.points, 1, b.renderTick);
      BlendIsOnSegment(b.points[i - 1], b.points[i], b.renderTick);
      assert OnSegment(b.points[i - 1], b.points[i], b.renderTick, Sampled(b));
      assert Bracketed(b.points[i - 1], b.points[i], b.renderTick, Sampled(b));
    }
  }

  ghost predicate Bracketed(p: Point, n: Point, t: real, at: Position) {
    (p.tick as real) < t <= n.tick as real && Between(p.x, at.x, n.x) && Between(p.y, at.y, n.y)
  }

  /** There is only one such position. */
  lemma InterpolantIsUnique(points: seq<Point>, t: real, u: Position, v: Position)
    requires points != [] && AscendingTicks(points) && OnPolyline(points, t, u) && OnPolyline(points, t, v)
    ensures u == v
  {
    if t > points[0].tick as real {
      var i, j := SegmentOf(points, t, u), SegmentOf(points, t, v);
      SegmentsMeetOnce(points, t, i, j, u, v);
    }
  }

  /** The end of the segment a position lies on, once the first point is past. */
  ghost function SegmentOf(points: seq<Point>, t: real, at: Position): (i: nat)
    requires points != [] && OnPolyline(points, t, at)
    ensures t > points[0].tick as real ==> 1 <= i < |points| && OnSegment(points[i - 1], points[i], t, at)
  {
    if t <= points[0].tick as real then 0
    else
      var i :| 1 <= i < |points| && OnSegment(points[i - 1], points[i], t, at);
      i
  }

  lemma SegmentsMeetOnce(points: seq<Point>, t: real, i: nat, j: nat, u: Position, v: Position)
    requires AscendingTicks(points) && 1 <= i < |points| && 1 <= j < |points|
    requires OnSegment(points[i - 1], points[i], t, u) && OnSegment(points[j - 1], points[j], t, v)
    ensures u == v
  {
    OneSegment(points, t, i, j);
    SegmentPointIsUnique(points[i - 1], points[i], t, u, v);
  }

  lemma OneSegment(points: seq<Point>, t: real, i: nat, j: nat)
    requires AscendingTicks(points) && 1 <= i < |points| && 1 <= j < |points|
    requires (points[i - 1].tick as real) < t <= points[i].tick as real
    requires (points[j - 1].tick as real) < t <= points[j].tick as real
    ensures i == j
  {
    SegmentsAreApart(points, i, j);
    SegmentsAreApart(points, j, i);
  }

  lemma SegmentsAreApart(points: seq<Point>, i: nat, j: nat)
    requires AscendingTicks(points) && 1 <= i < |points| && 1 <= j < |points|
    ensures i < j ==> points[i].tick <= points[j - 1].tick
  {
  }

  lemma SegmentPointIsUnique(p: Point, n: Point, t: real, u: Position, v: Position)
    requires OnSegment(p, n, t, u) && OnSegment(p, n, t, v)
    ensures u == v
  {
    var done, left := t - p.tick as real, n.tick as real - t;
    DividesOnce(p.x, n.x, done, left, u.x, v.x);
    DividesOnce(p.y, n.y, done, left, u.y, v.y);
  }

  lemma DividesOnce(p: real, n: real, done: real, left: real, u: real, v: real)
    requires done > 0.0 && left >= 0.0
    requires (u - p) * left == (n - u) * done && (v - p) * left == (n - v) * done
    ensures u == v
  {
    assert (u - v) * (left + done) == 0.0;
  }
}
