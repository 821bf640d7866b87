/** What the four-way hitbox test decides: whether the attack's rectangle and the target's square share a point. */
module RoomHitbox {
  import opened RoomModel
  import opened RoomSlots
  import opened RoomTimeline

  /** How far a point lies in front of the attacker, and how far to the side. */
  function Ahead(facing: Facing, dx: int, dy: int): int {
    dx * facing.x + dy * facing.y
  }

  function Aside(facing: Facing, dx: int, dy: int): int {
    dx * facing.y - dy * facing.x
  }

  /** The rectangle an attack covers: from the attacker `attackDepth` ahead, `attackHalfWidth` to either side. */
  predicate InReach(r: Ruleset, attacker: PlayerState, facing: Facing, x: int, y: int) {
    var dx, dy := x - attacker.positionX, y - attacker.positionY;
    && 0 <= Ahead(facing, dx, dy) <= r.attackDepth
    && 0 <= Aside(facing, dx, dy) + r.attackHalfWidth && Aside(facing, dx, dy) <= r.attackHalfWidth
  }

  predicate InBody(r: Ruleset, target: PlayerState, x: int, y: int) {
    && target.positionX - r.playerHalfExtent <= x <= target.positionX + r.playerHalfExtent
    && target.positionY - r.playerHalfExtent <= y <= target.positionY + r.playerHalfExtent
  }

  ghost predicate Touches(r: Ruleset, attacker: PlayerState, target: PlayerState, facing: Facing) {
    exists x, y :: InReach(r, attacker, facing, x, y) && InBody(r, target, x, y)
  }

  /** Along one axis: two intervals that overlap and are not empty share a point. */
  function Shared(firstMin: int, secondMin: int): int {
    if firstMin < secondMin then secondMin else firstMin
  }

  lemma SharedIsInBoth(firstMin: int, firstMax: int, secondMin: int, secondMax: int)
    requires firstMin <= firstMax && secondMin <= secondMax && RangesOverlap(firstMin, firstMax, secondMin, secondMax)
    ensures firstMin <= Shared(firstMin, secondMin) <= firstMax
    ensures secondMin <= Shared(firstMin, secondMin) <= secondMax
  {
  }

  /** The corners of the attack's rectangle. */
  function ReachMinX(r: Ruleset, p: PlayerState, f: Facing): int {
    if f.x > 0 then p.positionX else if f.x < 0 then p.positionX - r.attackDepth else p.positionX - r.attackHalfWidth
  }

  function ReachMaxX(r: Ruleset, p: PlayerState, f: Facing): int {
    if f.x > 0 then p.positionX + r.attackDepth else if f.x < 0 then p.positionX else p.positionX + r.attackHalfWidth
  }

  function ReachMinY(r: Ruleset, p: PlayerState, f: Facing): int {
    if f.x != 0 then p.positionY - r.attackHalfWidth
    else if f.y > 0 then p.positionY else p.positionY - r.attackDepth
  }

  function ReachMaxY(r: Ruleset, p: PlayerState, f: Facing): int {
    if f.x != 0 then p.positionY + r.attackHalfWidth
    else if f.y > 0 then p.positionY + r.attackDepth else p.positionY
  }

  lemma ReachIsARectangle(r: Ruleset, p: PlayerState, f: Facing, x: int, y: int)
    requires Cardinal(f)
    ensures InReach(r, p, f, x, y)
       <==> ReachMinX(r, p, f) <= x <= ReachMaxX(r, p, f) && ReachMinY(r, p, f) <= y <= ReachMaxY(r, p, f)
  {
  }

  lemma TestIsOverlap(r: Ruleset, attacker: PlayerState, target: PlayerState, f: Facing)
    requires Cardinal(f)
    ensures var h := r.playerHalfExtent;
            HitboxIntersects(attacker, target, f, r)
            <==> && RangesOverlap(ReachMinX(r, attacker, f), ReachMaxX(r, attacker, f),
                                  target.positionX - h, target.positionX + h)
                 && RangesOverlap(ReachMinY(r, attacker, f), ReachMaxY(r, attacker, f),
                                  target.positionY - h, target.positionY + h)
  {
  }

  lemma ContactIsAHit(r: Ruleset, attacker: PlayerState, target: PlayerState, facing: Facing)
    requires Cardinal(facing) && Touches(r, attacker, target, facing)
    ensures HitboxIntersects(attacker, target, facing, r)
  {
    var x, y :| InReach(r, attacker, facing, x, y) && InBody(r, target, x, y);
    ReachIsARectangle(r, attacker, facing, x, y);
    TestIsOverlap(r, attacker, target, facing);
  }

  predicate SizesMakeSense(r: Ruleset) {
    r.attackDepth >= 0 && r.attackHalfWidth >= 0 && r.playerHalfExtent >= 0
  }

  lemma AHitIsContact(r: Ruleset, attacker: PlayerState, target: PlayerState, facing: Facing)
    requires SizesMakeSense(r) && Cardinal(facing) && HitboxIntersects(attacker, target, facing, r)
    ensures Touches(r, attacker, target, facing)
  {
    var h := r.playerHalfExtent;
    TestIsOverlap(r, attacker, target, facing);
    var minX, minY := ReachMinX(r, attacker, facing), ReachMinY(r, attacker, facing);
    SharedIsInBoth(minX, ReachMaxX(r, attacker, facing), target.positionX - h, target.positionX + h);
    SharedIsInBoth(minY, ReachMaxY(r, attacker, facing), target.positionY - h, target.positionY + h);
    var x, y := Shared(minX, target.positionX - h), Shared(minY, target.positionY - h);
    ReachIsARectangle(r, attacker, facing, x, y);
    assert InReach(r, attacker, facing, x, y) && InBody(r, target, x, y);
  }

  /** So negative that no two positions pass the test. */
  predicate NothingCanHit(r: Ruleset) {
    r.attackDepth + 2 * r.playerHalfExtent < 0 || r.attackHalfWidth + r.playerHalfExtent < 0
  }

  ghost predicate HitsAreContacts(r: Ruleset) {
    forall attacker: PlayerState, target: PlayerState, facing :: Cardinal(facing) ==>
      (HitboxIntersects(attacker, target, facing, r) <==> Touches(r, attacker, target, facing))
  }

  function Standing(x: int, y: int): PlayerState {
    PlayerState("", x, y, 1, 0, Facing(1, 0), 0, Idle, 0, 0)
  }

  /** The constructor does not check the hitbox sizes; with a negative one the test can pass without contact. */
  lemma NegativeSizesHitThinAir(r: Ruleset)
    requires !SizesMakeSense(r) && !NothingCanHit(r)
    ensures HitboxIntersects(Standing(0, 0), Standing(0 - r.playerHalfExtent as int, 0), Facing(1, 0), r)
    ensures !Touches(r, Standing(0, 0), Standing(0 - r.playerHalfExtent as int, 0), Facing(1, 0))
  {
  }

  /** For all positions and facings a hit is a contact, exactly when the sizes make sense or rule out any hit. */
  lemma HitsAreContactsIff(r: Ruleset)
    ensures HitsAreContacts(r) <==> SizesMakeSense(r) || NothingCanHit(r)
  {
    if SizesMakeSense(r) || NothingCanHit(r) {
      forall attacker: PlayerState, target: PlayerState, facing | Cardinal(facing)
        ensures HitboxIntersects(attacker, target, facing, r) <==> Touches(r, attacker, target, facing)
      {
        if Touches(r, attacker, target, facing) {
          ContactIsAHit(r, attacker, target, facing);
        } else if HitboxIntersects(attacker, target, facing, r) {
          if SizesMakeSense(r) {
            AHitIsContact(r, attacker, target, facing);
          } else {
            TestIsOverlap(r, attacker, target, facing);
          }
        }
      }
    } else {
      NegativeSizesHitThinAir(r);
      assert Cardinal(Facing(1, 0));
    }
  }

  /** In every reachable state with sensible sizes, a blow lands exactly on contact during the active phase. */
  lemma BlowsLandOnContact(s: State, side: Side)
    requires Reachable(s) && SizesMakeSense(s.rules) && SlotOf(s, side).player.actionState == Active
    ensures var mine, theirs := SlotOf(s, side), SlotOf(s, !side);
            Strikes(s.rules, mine, theirs) <==> Touches(s.rules, mine.player, theirs.player, mine.player.facing)
  {
    var mine, theirs := SlotOf(s, side), SlotOf(s, !side);
    PublishedTimeline(s, side);
    if Touches(s.rules, mine.player, theirs.player, mine.player.facing) {
      ContactIsAHit(s.rules, mine.player, theirs.player, mine.player.facing);
    } else if Strikes(s.rules, mine, theirs) {
      AHitIsContact(s.rules, mine.player, theirs.player, mine.player.facing);
    }
  }

  // ---------------------------------------------------------------- a blow that touches nothing, in a run

  /** Accepted rules with a negative body size, and the two players one apart. */
  const HOLLOW_RULESET: Ruleset :=
    DEFAULT_RULESET.(countdownTicks := 1, playerHalfExtent := -1,
                     arena := DEFAULT_RULESET.arena.(spawnAX := 0, spawnBX := 1),
                     lightAttack := ActionDefinition(15, 0, 1, 6, 20, 0))

  const ATTACK := ActionCommand(1, LightAttack)
  const ATTACK_INPUT := Input(1, 0, 0, [ATTACK])

  function BlowRun(idA: string): seq<Event> {
    [] + [Tick] + [Deliver(idA, ATTACK_INPUT)] + [Tick]
  }

  lemma BlowRunByHand(s: State, idA: string)
    ensures Run(s, BlowRun(idA)) == Step(Submit(Step(s), idA, ATTACK_INPUT))
  {
    RunOn(s, [], Tick);
    RunOn(s, [] + [Tick], Deliver(idA, ATTACK_INPUT));
    RunOn(s, [] + [Tick] + [Deliver(idA, ATTACK_INPUT)], Tick);
  }

  /** A player at rest, with these commands pending. */
  ghost predicate Resting(slot: Slot, x: int, hp: int, pending: seq<ActionCommand>) {
    var p := slot.player;
    && p.positionX == x && p.positionY == 0 && p.hp == hp && p.actionState == Idle && slot.pending == pending
    && slot.input.moveX == 0 && slot.input.moveY == 0
  }

  lemma BlowIsDue(idA: string, idB: string)
    requires idA != "" && idB != "" && idA != idB
    ensures var s := Submit(Step(NewState(idA, idB, HOLLOW_RULESET)), idA, ATTACK_INPUT);
            && s.rules == HOLLOW_RULESET && s.status == MatchActive && s.tick == 1 && s.activeTicks == 0
            && Resting(s.a, 0, 100, [ATTACK]) && s.a.player.facing == Facing(1, 0) && s.a.nextAttackTick == 2
            && Resting(s.b, 1, 100, [])
  {
    var first := Step(NewState(idA, idB, HOLLOW_RULESET));
    var recorded := RecordMovement(first.a, ATTACK_INPUT);
    assert Truncated(ATTACK_INPUT.actions) == [ATTACK] && [ATTACK][1..] == [];
    assert QueueActions(recorded, [ATTACK]) == QueueActions(QueueAction(recorded, ATTACK), []);
  }

  lemma AttackerTicks(slot: Slot)
    requires Resting(slot, 0, 100, [ATTACK]) && slot.player.facing == Facing(1, 0) && slot.nextAttackTick == 2
    ensures var t := TickSlot(HOLLOW_RULESET, 2, slot);
            && t.player.positionX == 0 && t.player.positionY == 0 && t.player.hp == 100
            && t.player.actionState == Active && t.attackFacing == Facing(1, 0)
  {
    var moved := Moved(HOLLOW_RULESET, slot);
    assert moved.pending[1..] == [];
    assert ProcessCommands(HOLLOW_RULESET, 2, moved, moved.pending)
        == TryLightAttack(HOLLOW_RULESET, 2, Acknowledged(moved, 1));
  }

  lemma TargetTicks(slot: Slot)
    requires Resting(slot, 1, 100, [])
    ensures Resting(TickSlot(HOLLOW_RULESET, 2, slot), 1, 100, [])
  {
  }

  lemma BlowLands(a: Slot, b: Slot)
    requires a.player.positionX == 0 && a.player.positionY == 0 && a.player.hp == 100 && a.player.actionState == Active
    requires a.attackFacing == Facing(1, 0) && Resting(b, 1, 100, [])
    ensures Damage(HOLLOW_RULESET, b, a) == 0 && Damage(HOLLOW_RULESET, a, b) == 20
    ensures !Touches(HOLLOW_RULESET, a.player, b.player, Facing(1, 0))
  {
  }

  /** In a reachable state of accepted rules the opponent has been hit by an attack that touches nothing. */
  lemma BlowsCanHitThinAir(idA: string, idB: string) returns (s: State)
    requires idA != "" && idB != "" && idA != idB
    ensures Accepted(HOLLOW_RULESET) && s.rules == HOLLOW_RULESET && Reachable(s) && s.tick == 2
    ensures s.a.player.actionState == Active && s.b.player.hp == 80
    ensures Strikes(s.rules, s.a, s.b) && !Touches(s.rules, s.a.player, s.b.player, s.a.attackFacing)
  {
    var start := NewState(idA, idB, HOLLOW_RULESET);
    var due := Submit(Step(start), idA, ATTACK_INPUT);
    s := Run(start, BlowRun(idA));
    assert ReachedBy(s, idA, idB, HOLLOW_RULESET, BlowRun(idA));
    BlowRunByHand(start, idA);
    BlowIsDue(idA, idB);
    var a, b := TickSlot(HOLLOW_RULESET, 2, due.a), TickSlot(HOLLOW_RULESET, 2, due.b);
    AttackerTicks(due.a);
    TargetTicks(due.b);
    BlowLands(a, b);
    ActiveSlots(due, true, a, b);
    StruckStays(b);
  }

  lemma StruckStays(b: Slot)
    requires Resting(b, 1, 100, [])
    ensures var t := Struck(b, 2, 20);
            t.player.hp == 80 && t.player.positionX == b.player.positionX && t.player.positionY == b.player.positionY
  {
  }
}
