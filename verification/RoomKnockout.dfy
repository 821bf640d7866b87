/**
 How soon a knockout can happen. Every HP loss is charged to an attack; attacks start a cooldown apart, and none
 lands before its windup is over.
 */
module RoomKnockout {
  import opened RoomModel
  import opened RoomSlots
  import opened RoomLifecycle
  import opened RoomTimeline

  /** The most HP one attack can take: its damage on every active tick. */
  function AttackWorth(r: Ruleset): int {
    r.lightAttack.damage * r.lightAttack.activeTicks
  }

  /** The first tick on which the attack number `n` (counting from 1) may start. */
  function EarliestStart(r: Ruleset, n: int): int {
    r.countdownTicks + 1 + (n - 1) * r.lightAttack.cooldownTicks
  }

  function EarliestLanding(r: Ruleset, n: int): int {
    EarliestStart(r, n) + r.lightAttack.windupTicks
  }

  /**
   `lost` is what the target has lost so far, `started` the attacks the attacker has started and `landed` the
   number of the last one that took HP. `due` counts the active ticks already used up by the current attack.
   */
  ghost predicate Charged(r: Ruleset, now: nat, attacker: Slot, lost: int, started: nat, landed: nat, due: int) {
    var p := attacker.player;
    && landed <= started && lost <= AttackWorth(r) * landed
    && attacker.nextAttackTick >= EarliestStart(r, started + 1)
    && (landed > 0 ==> now >= EarliestLanding(r, landed))
    && (p.actionState == Windup || p.actionState == Active ==>
          started > 0 && p.actionStartedServerTick >= EarliestStart(r, started))
    && (p.actionState == Windup ==> landed < started)
    && (p.actionState == Active ==>
          lost <= AttackWorth(r) * (started - 1)
                  + r.lightAttack.damage * (r.lightAttack.activeTicks - p.actionTicksRemaining + due))
  }

  lemma WorthOfOneMore(r: Ruleset, n: int)
    ensures AttackWorth(r) * (n - 1) + r.lightAttack.damage * r.lightAttack.activeTicks == AttackWorth(r) * n
    ensures EarliestStart(r, n + 1) == EarliestStart(r, n) + r.lightAttack.cooldownTicks
  {
    var worth, cooldown := AttackWorth(r), r.lightAttack.cooldownTicks;
    assert worth * (n - 1) == worth * n - worth;
    assert n * cooldown == (n - 1) * cooldown + cooldown;
  }

  lemma WorthGrows(worth: int, small: int, large: int)
    requires worth >= 0 && small <= large
    ensures worth * small <= worth * large
  {
  }

  lemma AdvancedIsCharged(r: Ruleset, now: nat, slot: Slot, lost: int, started: nat, landed: nat)
    requires Accepted(r) && Timely(r, now, slot) && Charged(r, now, slot, lost, started, landed, 1)
    ensures Charged(r, now + 1, AdvanceSlot(r, slot), lost, started, landed, 0)
  {
    if slot.player.actionState == Windup {
      WorthGrows(AttackWorth(r), landed, started - 1);
    }
  }

  /** Moving changes neither an attack in progress nor the clock of the next one. */
  lemma MoveKeepsAttack(r: Ruleset, slot: Slot)
    ensures var m := MoveSlot(r, slot);
            && m == slot.(player := m.player)
            && (m.player.actionState == slot.player.actionState || Locomoting(m.player.actionState))
            && (!Locomoting(slot.player.actionState) ==>
                  && m.player.actionStartedServerTick == slot.player.actionStartedServerTick
                  && m.player.actionTicksRemaining == slot.player.actionTicksRemaining)
  {
  }

  lemma MovedIsCharged(r: Ruleset, now: nat, slot: Slot, lost: int, started: nat, landed: nat)
    requires Accepted(r) && Timely(r, now, slot) && Charged(r, now, slot, lost, started, landed, 1)
    ensures Charged(r, now + 1, Moved(r, slot), lost, started, landed, 0)
  {
    AdvancedIsCharged(r, now, slot, lost, started, landed);
    MoveKeepsAttack(r, AdvanceSlot(r, slot));
  }

  lemma PerformIsCharged(r: Ruleset, now: nat, slot: Slot, lost: int, started: nat, landed: nat, kind: ActionType)
    returns (startedNow: nat)
    requires Accepted(r) && Charged(r, now, slot, lost, started, landed, 0)
    ensures Charged(r, now, Perform(r, now, slot, kind), lost, startedNow, landed, 0)
  {
    startedNow := started;
    if kind == LightAttack && CanStartAction(slot) && now >= slot.nextAttackTick {
      startedNow := started + 1;
      WorthOfOneMore(r, started + 1);
      WorthGrows(AttackWorth(r), landed, started);
    }
  }

  lemma TickIsCharged(r: Ruleset, now: nat, slot: Slot, lost: int, started: nat, landed: nat)
    returns (startedNow: nat)
    requires Accepted(r) && Timely(r, now, slot) && Charged(r, now, slot, lost, started, landed, 1)
    ensures Charged(r, now + 1, TickSlot(r, now + 1, slot), lost, startedNow, landed, 0)
  {
    MovedIsCharged(r, now, slot, lost, started, landed);
    var kind := TickSlotShape(r, now + 1, slot);
    startedNow := PerformIsCharged(r, now + 1, Moved(r, slot), lost, started, landed, kind);
  }

  /** The blow of this tick is paid for by the attack that strikes it. */
  lemma BlowIsCharged(r: Ruleset, now: nat, attacker: Slot, lost: int, more: int, started: nat, landed: nat)
    returns (landedNow: nat)
    requires Accepted(r) && OnTimeline(r, now, attacker.player)
    requires Charged(r, now, attacker, lost, started, landed, 0)
    requires more <= if attacker.player.actionState == Active then lost + r.lightAttack.damage else lost
    ensures Charged(r, now, attacker, more, started, landedNow, 1)
  {
    landedNow := landed;
    var p, attack := attacker.player, r.lightAttack;
    if p.actionState == Active {
      var used := attack.activeTicks - p.actionTicksRemaining;
      assert attack.damage * (used + 1) == attack.damage * used + attack.damage;
      if more > AttackWorth(r) * landed {
        landedNow := started;
        WorthGrows(attack.damage, used + 1, attack.activeTicks);
        WorthOfOneMore(r, started);
      }
    }
  }

  /** Being struck ends the attacker's own attack. */
  lemma StruckIsCharged(r: Ruleset, now: nat, attacker: Slot, lost: int, blow: int, started: nat, landed: nat)
    requires Charged(r, now, attacker, lost, started, landed, 1)
    ensures Charged(r, now, Struck(attacker, now, blow), lost, started, landed, 1)
  {
  }

  /** The account of both attackers. */
  datatype Account = Account(started: nat, landed: nat)

  function Lost(s: State, side: Side): int {
    s.rules.initialHP - SlotOf(s, side).player.hp
  }

  ghost predicate Balanced(s: State, attacker: Side, account: Account) {
    if s.status == MatchCountdown then account == Account(0, 0)
    else Charged(s.rules, s.tick, SlotOf(s, attacker), Lost(s, !attacker), account.started, account.landed, 1)
  }

  /** The exchange of blows at the end of a tick, for the account of one of the two. */
  lemma ExchangeIsCharged(r: Ruleset, now: nat, mine: Slot, theirs: Slot, blow: int, started: nat, landed: nat)
    returns (landedNow: nat)
    requires Accepted(r) && OnTimeline(r, now, mine.player) && theirs.player.hp >= 0
    requires Charged(r, now, mine, r.initialHP - theirs.player.hp, started, landed, 0)
    ensures Charged(r, now, Struck(mine, now, blow),
                    r.initialHP - Struck(theirs, now, Damage(r, mine, theirs)).player.hp, started, landedNow, 1)
  {
    var lost := r.initialHP - theirs.player.hp;
    var dealt := Damage(r, mine, theirs);
    var more := r.initialHP - Struck(theirs, now, dealt).player.hp;
    LossIsTheBlow(r, theirs, now, dealt, lost, more);
    landedNow := BlowIsCharged(r, now, mine, lost, more, started, landed);
    StruckIsCharged(r, now, mine, more, blow, started, landedNow);
  }

  /** The attacker's slot after a tick, with its account. */
  lemma MineIsCharged(r: Ruleset, now: nat, slot: Slot, lost: int, account: Account) returns (mine: Slot, started: nat)
    requires Accepted(r) && Timely(r, now, slot) && Charged(r, now, slot, lost, account.started, account.landed, 1)
    ensures mine == TickSlot(r, now + 1, slot) && OnTimeline(r, now + 1, mine.player)
    ensures Charged(r, now + 1, mine, lost, started, account.landed, 0)
  {
    mine := TickSlot(r, now + 1, slot);
    started := TickIsCharged(r, now, slot, lost, account.started, account.landed);
    TickIsTimely(r, now, slot);
  }

  /** The target's slot after a tick has lost nothing yet. */
  lemma TheirsIsWhole(r: Ruleset, tick: nat, slot: Slot) returns (theirs: Slot)
    ensures theirs == TickSlot(r, tick, slot) && theirs.player.hp == slot.player.hp
  {
    theirs := TickSlot(r, tick, slot);
    TickSlotFrame(r, tick, slot);
  }

  /** The account of the state a tick leads to, given the two slots in it. */
  lemma SettlesTheAccount(s: State, attacker: Side, mine: Slot, theirs: Slot, account: Account)
    requires s.status != MatchCountdown && SlotOf(s, attacker) == mine && SlotOf(s, !attacker) == theirs
    requires Charged(s.rules, s.tick, mine, s.rules.initialHP - theirs.player.hp, account.started, account.landed, 1)
    ensures Balanced(s, attacker, account)
  {
  }

  lemma ActiveStepIsBalanced(s: State, attacker: Side, account: Account) returns (now: Account)
    requires Consistent(s) && TimelyState(s) && s.status == MatchActive && Balanced(s, attacker, account)
    ensures Balanced(ActiveStep(s), attacker, now)
  {
    var r, tick := s.rules, s.tick + 1;
    var mine, started := MineIsCharged(r, s.tick, SlotOf(s, attacker), Lost(s, !attacker), account);
    var theirs := TheirsIsWhole(r, tick, SlotOf(s, !attacker));
    var taken, dealt := Damage(r, theirs, mine), Damage(r, mine, theirs);
    var landed := ExchangeIsCharged(r, tick, mine, theirs, taken, started, account.landed);
    now := Account(started, landed);
    ActiveSlots(s, attacker, mine, theirs);
    SettlesTheAccount(ActiveStep(s), attacker, Struck(mine, tick, taken), Struck(theirs, tick, dealt), now);
  }

  lemma LossIsTheBlow(r: Ruleset, target: Slot, tick: nat, dealt: int, lost: int, more: int)
    requires 0 <= dealt && 0 <= target.player.hp
    requires lost == r.initialHP - target.player.hp
    requires more == r.initialHP - Struck(target, tick, dealt).player.hp
    ensures lost <= more <= lost + dealt
  {
  }

  lemma {:induction false} RunsAreBalanced(s: State, events: seq<Event>, attacker: Side) returns (account: Account)
    requires Consistent(s) && TimelyState(s) && s.status == MatchCountdown
    ensures Balanced(Run(s, events), attacker, account)
    decreases |events|
  {
    if events == [] {
      account := Account(0, 0);
    } else {
      var before, last := events[..|events| - 1], events[|events| - 1];
      var mid := Run(s, before);
      account := RunsAreBalanced(s, before, attacker);
      RunsAreConsistent(s, before);
      RunsAreTimely(s, before);
      match last {
        case Deliver(id, input) => SubmitIsBalanced(mid, id, input, attacker, account);
        case Tick =>
          if mid.status == MatchActive {
            account := ActiveStepIsBalanced(mid, attacker, account);
          } else if mid.status == MatchCountdown {
            OpeningIsBalanced(mid, attacker);
          }
      }
    }
  }

  lemma SubmitIsBalanced(s: State, id: string, input: Input, attacker: Side, account: Account)
    requires Balanced(s, attacker, account)
    ensures Balanced(Submit(s, id, input), attacker, account)
  {
    SubmitPreservesAllButQueues(s, id, input);
  }

  lemma OpeningIsBalanced(s: State, attacker: Side)
    requires Consistent(s) && TimelyState(s) && s.status == MatchCountdown
    ensures Balanced(CountdownStep(s), attacker, Account(0, 0))
  {
    assert CountdownStep(s).tick == s.tick + 1 <= s.rules.countdownTicks;
  }

  /** The number of attacks a knockout takes, rounded up. */
  function AttacksNeeded(r: Ruleset): int
    requires AttackWorth(r) > 0
  {
    (r.initialHP + AttackWorth(r) - 1) / AttackWorth(r)
  }

  /**
   Whatever both players send, nobody is knocked out before the attacks it takes can have landed. The clock is unbounded
   here; `RoomBounds` carries this over to the server's 32 bits, and shows why the cooldown has to fit them.
   */
  lemma NoEarlyKnockout(s: State)
    requires Reachable(s) && s.rules.lightAttack.damage > 0 && KnockedOut(s)
    ensures s.rules.lightAttack.activeTicks > 0 && AttackWorth(s.rules) > 0
    ensures s.tick >= EarliestLanding(s.rules, AttacksNeeded(s.rules))
  {
    ReachableIsConsistent(s);
    var attacker := s.b.player.hp == 0;
    var account := ReachableIsBalanced(s, attacker);
    KnockoutIsPaidFor(s.rules, s.tick, account.landed);
  }

  lemma ReachableIsBalanced(s: State, attacker: Side) returns (account: Account)
    requires Reachable(s)
    ensures Balanced(s, attacker, account)
  {
    var a, b, r, events :| ReachedBy(s, a, b, r, events);
    NewRoomIsConsistent(a, b, r);
    account := RunsAreBalanced(NewState(a, b, r), events, attacker);
  }

  lemma KnockoutIsPaidFor(r: Ruleset, now: nat, landed: nat)
    requires Accepted(r) && r.lightAttack.damage > 0
    requires r.initialHP <= AttackWorth(r) * landed
    requires landed > 0 ==> now >= EarliestLanding(r, landed)
    ensures AttackWorth(r) > 0 && now >= EarliestLanding(r, AttacksNeeded(r))
  {
    var worth := AttackWorth(r);
    assert worth > 0 by {
      WorthGrows(r.lightAttack.damage, 1, r.lightAttack.activeTicks);
    }
    AttacksNeededIsLeast(worth, r.initialHP, landed);
    WorthGrows(r.lightAttack.cooldownTicks, AttacksNeeded(r) - 1, landed - 1);
  }

  lemma AttacksNeededIsLeast(worth: int, hp: int, landed: nat)
    requires worth > 0 && 0 < hp <= worth * landed
    ensures 1 <= (hp + worth - 1) / worth <= landed
  {
    var n := (hp + worth - 1) / worth;
    assert worth * n <= hp + worth - 1 < worth * n + worth;
    assert worth * (landed + 1) == worth * landed + worth;
    if n >= landed + 1 {
      WorthGrows(worth, landed + 1, n);
    }
  }

  lemma FiveHitsTakeTime(arenaID: string)
    ensures var r := MatchRules(arenaID); AttackWorth(r) == 20 && AttacksNeeded(r) == 5 && EarliestLanding(r, 5) == 154
  {
  }

  /** With the rules of every match: five hits, the last one no sooner than tick 154. */
  lemma NoEarlyKnockoutByDefault(s: State)
    requires Reachable(s) && s.rules == MatchRules(s.rules.arena.id) && KnockedOut(s)
    ensures s.tick >= 154
  {
    FiveHitsTakeTime(s.rules.arena.id);
    NoEarlyKnockout(s);
  }
}
