/**
 Terminal results and the statistics counted from them: deliveries may fail, repeat or lose their response, and the
 totals over all players still balance.
 */
module Profile {
  datatype MatchResult = MatchResult(matchID: string, playerAID: string, playerBID: string, winnerID: string,
                                     reason: string)

  type Results = map<string, MatchResult>

  // ---------------------------------------------------------------- validation

  predicate IsSpace(c: char) {
    c == ' ' || '\t' <= c <= '\r' || c == '\U{85}' || c == '\U{A0}' || c == '\U{1680}' || '\U{2000}' <= c <= '\U{200A}'
    || c == '\U{2028}' || c == '\U{2029}' || c == '\U{202F}' || c == '\U{205F}' || c == '\U{3000}'
  }

  function TrimSpace(s: string): string {
    if s == "" then ""
    else if IsSpace(s[0]) then TrimSpace(s[1..])
    else if IsSpace(s[|s| - 1]) then TrimSpace(s[..|s| - 1])
    else s
  }

  function Normalized(r: MatchResult): MatchResult {
    MatchResult(TrimSpace(r.matchID), TrimSpace(r.playerAID), TrimSpace(r.playerBID), TrimSpace(r.winnerID),
                TrimSpace(r.reason))
  }

  predicate ValidReason(reason: string) {
    reason == "ko" || reason == "time_limit" || reason == "disconnect"
  }

  predicate Valid(r: MatchResult) {
    && r.matchID != "" && r.playerAID != "" && r.playerBID != "" && r.playerAID != r.playerBID && ValidReason(r.reason)
    && (r.winnerID == "" || r.winnerID == r.playerAID || r.winnerID == r.playerBID)
  }

  /** Nothing to trim. */
  predicate Tidy(s: string) {
    s != "" ==> !IsSpace(s[0]) && !IsSpace(s[|s| - 1])
  }

  /** `t` is what is left of `s` without the spaces around it. */
  ghost predicate TrimmedOf(s: string, t: string) {
    Tidy(t) && exists i :: StandsAt(s, t, i)
  }

  ghost predicate StandsAt(s: string, t: string, i: nat) {
    && i + |t| <= |s| && s[i..i + |t|] == t
    && (forall j :: 0 <= j < i ==> IsSpace(s[j])) && (forall j :: i + |t| <= j < |s| ==> IsSpace(s[j]))
  }

  lemma {:induction false} TrimIsTrimmed(s: string, t: string, i: nat)
    requires Tidy(t) && StandsAt(s, t, i)
    ensures TrimSpace(s) == t
    decreases |s|
  {
    if s != "" {
      assert t != "" && i == 0 ==> t[0] == s[0];
      assert t != "" && i + |t| == |s| ==> t[|t| - 1] == s[|s| - 1];
      if IsSpace(s[0]) {
        var k := if i > 0 then i - 1 else 0;
        assert s[1..][k..k + |t|] == t;
        TrimIsTrimmed(s[1..], t, k);
      } else if IsSpace(s[|s| - 1]) {
        assert i == 0;
        assert s[..|s| - 1][i..i + |t|] == t;
        TrimIsTrimmed(s[..|s| - 1], t, i);
      } else {
        assert i == 0 && |t| == |s|;
      }
    }
  }

  /** The store after a delivery: an invalid result or a known match ID changes nothing. */
  function Recorded(results: Results, delivery: MatchResult): Results {
    var r := Normalized(delivery);
    if Valid(r) && r.matchID !in results then results[r.matchID := r] else results
  }

  /** What a trimmed result has to say to be recorded. */
  predicate Reportable(r: MatchResult) {
    && r.matchID != "" && r.playerAID != "" && r.playerBID != "" && r.playerAID != r.playerBID
    && r.reason in {"ko", "time_limit", "disconnect"} && r.winnerID in {"", r.playerAID, r.playerBID}
  }

  /** A delivery is recorded without the spaces around its fields, if it says what it has to and its match is new. */
  lemma WhatIsRecorded(results: Results, delivery: MatchResult, r: MatchResult)
    requires TrimmedOf(delivery.matchID, r.matchID) && TrimmedOf(delivery.reason, r.reason)
    requires TrimmedOf(delivery.playerAID, r.playerAID) && TrimmedOf(delivery.playerBID, r.playerBID)
    requires TrimmedOf(delivery.winnerID, r.winnerID)
    ensures Recorded(results, delivery)
         == if Reportable(r) && r.matchID !in results then results[r.matchID := r] else results
  {
    FieldIsTrimmed(delivery.matchID, r.matchID);
    FieldIsTrimmed(delivery.playerAID, r.playerAID);
    FieldIsTrimmed(delivery.playerBID, r.playerBID);
    FieldIsTrimmed(delivery.winnerID, r.winnerID);
    FieldIsTrimmed(delivery.reason, r.reason);
  }

  lemma SpaceInFront(s: string, t: string, k: nat)
    requires s != "" && IsSpace(s[0]) && StandsAt(s[1..], t, k)
    ensures StandsAt(s, t, k + 1)
  {
    assert s[k + 1..k + 1 + |t|] == s[1..][k..k + |t|];
    forall j | 0 <= j < k + 1 ensures IsSpace(s[j]) {
      assert j > 0 ==> s[j] == s[1..][j - 1];
    }
    forall j | k + 1 + |t| <= j < |s| ensures IsSpace(s[j]) {
      assert s[j] == s[1..][j - 1];
    }
  }

  lemma SpaceBehind(s: string, t: string, k: nat)
    requires s != "" && IsSpace(s[|s| - 1]) && StandsAt(s[..|s| - 1], t, k)
    ensures StandsAt(s, t, k)
  {
    assert s[k..k + |t|] == s[..|s| - 1][k..k + |t|];
  }

  /** There is always something left, if only nothing. */
  lemma {:induction false} TrimStandsSomewhere(s: string) returns (i: nat)
    ensures Tidy(TrimSpace(s)) && StandsAt(s, TrimSpace(s), i)
    decreases |s|
  {
    i := 0;
    if s != "" {
      if IsSpace(s[0]) {
        i := TrimStandsSomewhere(s[1..]);
        SpaceInFront(s, TrimSpace(s[1..]), i);
        i := i + 1;
      } else if IsSpace(s[|s| - 1]) {
        i := TrimStandsSomewhere(s[..|s| - 1]);
        SpaceBehind(s, TrimSpace(s[..|s| - 1]), i);
      } else {
        assert s[0..|s|] == s;
      }
    }
  }

  lemma EverythingTrims(s: string)
    ensures TrimmedOf(s, TrimSpace(s))
  {
    var i := TrimStandsSomewhere(s);
  }

  lemma FieldIsTrimmed(s: string, t: string)
    requires TrimmedOf(s, t)
    ensures TrimSpace(s) == t
  {
    var i: nat :| StandsAt(s, t, i);
    TrimIsTrimmed(s, t, i);
  }

  // ---------------------------------------------------------------- statistics

  datatype Outcome = Win | Loss | Draw | NotPlaying

  function OutcomeFor(r: MatchResult, userID: string): Outcome {
    if r.playerAID != userID && r.playerBID != userID then NotPlaying
    else if r.winnerID == "" then Draw
    else if r.winnerID == userID then Win
    else Loss
  }

  /** The matches that end in one way for a user. */
  function MatchesWith(results: Results, userID: string, outcome: Outcome): set<string> {
    set m | m in results && OutcomeFor(results[m], userID) == outcome
  }

  function Count(results: Results, userID: string, outcome: Outcome): nat {
    |MatchesWith(results, userID, outcome)|
  }

  function MatchesOf(results: Results, userID: string): set<string> {
    set m | m in results && OutcomeFor(results[m], userID) != NotPlaying
  }

  datatype Statistics = Statistics(played: nat, wins: nat, losses: nat, draws: nat)

  function StatisticsOf(results: Results, userID: string): Statistics {
    Statistics(|MatchesOf(results, userID)|, Count(results, userID, Win), Count(results, userID, Loss),
               Count(results, userID, Draw))
  }

  class MemoryStore {
    var results: Results

    constructor ()
      ensures results == map[]
    {
      results := map[];
    }

    method Insert(r: MatchResult) returns (inserted: bool)
      modifies this
      ensures inserted <==> r.matchID !in old(results)
      ensures results == if inserted then old(results)[r.matchID := r] else old(results)
    {
      if r.matchID in results {
        return false;
      }
      results := results[r.matchID := r];
      return true;
    }

    method ProfileByUserID(userID: string) returns (statistics: Statistics)
      ensures statistics == StatisticsOf(results, userID)
    {
      statistics := Statistics(0, 0, 0, 0);
      var todo := results.Keys;
      NothingRecorded(results, userID);
      while todo != {}
        invariant todo <= results.Keys
        invariant statistics == StatisticsOf(results - todo, userID)
        decreases |todo|
      {
        var m :| m in todo;
        var result := results[m];
        OneLessToDo(results, todo, m);
        CountsOneMore(results - todo, m, result, userID);
        statistics := Tallied(statistics, OutcomeFor(result, userID));
        todo := todo - {m};
      }
      assert results - todo == results;
    }
  }

  method RecordMatchResult(store: MemoryStore, delivery: MatchResult) returns (inserted: bool, valid: bool)
    modifies store
    ensures valid == Valid(Normalized(delivery))
    ensures store.results == Recorded(old(store.results), delivery)
    ensures inserted <==> valid && Normalized(delivery).matchID !in old(store.results)
  {
    var r := Normalized(delivery);
    if !Valid(r) {
      return false, false;
    }
    inserted := store.Insert(r);
    return inserted, true;
  }

  function Add(outcome: Outcome, wanted: Outcome): nat {
    if outcome == wanted then 1 else 0
  }

  /** The counters after one more match. */
  function Tallied(s: Statistics, outcome: Outcome): Statistics {
    match outcome
    case NotPlaying => s
    case Draw => s.(played := s.played + 1, draws := s.draws + 1)
    case Win => s.(played := s.played + 1, wins := s.wins + 1)
    case Loss => s.(played := s.played + 1, losses := s.losses + 1)
  }

  lemma NothingRecorded(results: Results, userID: string)
    ensures StatisticsOf(results - results.Keys, userID) == Statistics(0, 0, 0, 0)
  {
    var none := results - results.Keys;
    assert MatchesOf(none, userID) == MatchesWith(none, userID, Win) == MatchesWith(none, userID, Loss)
        == MatchesWith(none, userID, Draw) == {};
  }

  lemma OneLessToDo(results: Results, todo: set<string>, m: string)
    requires m in todo && todo <= results.Keys
    ensures results - (todo - {m}) == (results - todo)[m := results[m]] && m !in results - todo
  {
  }

  lemma OneMoreWith(results: Results, m: string, r: MatchResult, userID: string, wanted: Outcome)
    requires m !in results
    ensures Count(results[m := r], userID, wanted)
         == Count(results, userID, wanted) + Add(OutcomeFor(r, userID), wanted)
  {
    var before, after := MatchesWith(results, userID, wanted), MatchesWith(results[m := r], userID, wanted);
    assert after == if OutcomeFor(r, userID) == wanted then before + {m} else before;
  }

  lemma OneMoreOf(results: Results, m: string, r: MatchResult, userID: string)
    requires m !in results
    ensures |MatchesOf(results[m := r], userID)|
         == |MatchesOf(results, userID)| + (if OutcomeFor(r, userID) != NotPlaying then 1 else 0)
  {
    var before, after := MatchesOf(results, userID), MatchesOf(results[m := r], userID);
    assert after == if OutcomeFor(r, userID) != NotPlaying then before + {m} else before;
  }

  lemma CountsOneMore(results: Results, m: string, r: MatchResult, userID: string)
    requires m !in results
    ensures StatisticsOf(results[m := r], userID) == Tallied(StatisticsOf(results, userID), OutcomeFor(r, userID))
  {
    OneMoreOf(results, m, r, userID);
    OneMoreWith(results, m, r, userID, Win);
    OneMoreWith(results, m, r, userID, Loss);
    OneMoreWith(results, m, r, userID, Draw);
  }

  predicate PlayedBy(r: MatchResult, userID: string) {
    r.playerAID == userID || r.playerBID == userID
  }

  /** A user wins the matches whose winner they are, loses those with another winner, and draws those without one. */
  lemma StatisticsTellTheOutcomes(results: Results, userID: string)
    ensures var s := StatisticsOf(results, userID);
            && s.played == |set m | m in results && PlayedBy(results[m], userID)|
            && s.wins == |set m | m in results && PlayedBy(results[m], userID) && results[m].winnerID == userID != ""|
            && s.losses
               == |set m | m in results && PlayedBy(results[m], userID) && results[m].winnerID !in {"", userID}|
            && s.draws == |set m | m in results && PlayedBy(results[m], userID) && results[m].winnerID == ""|
  {
    assert MatchesOf(results, userID) == set m | m in results && PlayedBy(results[m], userID);
    WinsAndLosses(results, userID);
    assert MatchesWith(results, userID, Draw)
        == set m | m in results && PlayedBy(results[m], userID) && results[m].winnerID == "";
  }

  lemma WinsAndLosses(results: Results, userID: string)
    ensures MatchesWith(results, userID, Win)
         == set m | m in results && PlayedBy(results[m], userID) && results[m].winnerID == userID != ""
    ensures MatchesWith(results, userID, Loss)
         == set m | m in results && PlayedBy(results[m], userID) && results[m].winnerID !in {"", userID}
  {
  }

  /** Every match a user played was won, lost or drawn. */
  lemma PlayedIsTheSum(results: Results, userID: string)
    ensures var s := StatisticsOf(results, userID); s.played == s.wins + s.losses + s.draws
  {
    var wins, losses, draws := MatchesWith(results, userID, Win), MatchesWith(results, userID, Loss),
                               MatchesWith(results, userID, Draw);
    assert MatchesOf(results, userID) == wins + losses + draws;
    assert wins !! losses && (wins + losses) !! draws;
  }

  // ---------------------------------------------------------------- totals over all players

  ghost predicate Distinct(users: seq<string>) {
    forall i, j :: 0 <= i < j < |users| ==> users[i] != users[j]
  }

  ghost predicate AllValid(results: Results) {
    forall m :: m in results ==> Valid(results[m])
  }

  ghost predicate ListsPlayers(users: seq<string>, results: Results) {
    forall m :: m in results ==> results[m].playerAID in users && results[m].playerBID in users
  }

  /** The sum of one statistic over a list of users. */
  function Total(results: Results, users: seq<string>, outcome: Outcome): nat {
    if users == [] then 0 else Count(results, users[0], outcome) + Total(results, users[1..], outcome)
  }

  function TotalPlayed(results: Results, users: seq<string>): nat {
    if users == [] then 0 else |MatchesOf(results, users[0])| + TotalPlayed(results, users[1..])
  }

  /** How many of the users a single result counts for in one way. */
  function Share(r: MatchResult, users: seq<string>, outcome: Outcome): nat {
    if users == [] then 0 else Add(OutcomeFor(r, users[0]), outcome) + Share(r, users[1..], outcome)
  }

  function Owed(r: MatchResult, outcome: Outcome): nat {
    match outcome
    case Draw => if r.winnerID == "" then 2 else 0
    case NotPlaying => 0
    case _ => if r.winnerID == "" then 0 else 1
  }

  /** What the users listed so far are owed: the share of each of the two players who is among them. */
  function OwedTo(r: MatchResult, userID: string, listed: bool, outcome: Outcome): nat {
    if listed then Add(OutcomeFor(r, userID), outcome) else 0
  }

  lemma {:induction false} ShareIsOwed(r: MatchResult, users: seq<string>, outcome: Outcome)
    requires Valid(r) && Distinct(users) && outcome != NotPlaying
    ensures Share(r, users, outcome)
         == OwedTo(r, r.playerAID, r.playerAID in users, outcome)
            + OwedTo(r, r.playerBID, r.playerBID in users, outcome)
    decreases |users|
  {
    if users != [] {
      assert users == [users[0]] + users[1..];
      assert users[0] !in users[1..];
      ShareIsOwed(r, users[1..], outcome);
    }
  }

  lemma {:induction false} TotalGrows(results: Results, m: string, r: MatchResult, users: seq<string>, outcome: Outcome)
    requires m !in results
    ensures Total(results[m := r], users, outcome) == Total(results, users, outcome) + Share(r, users, outcome)
    decreases |users|
  {
    if users != [] {
      OneMoreWith(results, m, r, users[0], outcome);
      TotalGrows(results, m, r, users[1..], outcome);
    }
  }

  lemma {:induction false} PlayedIsTotalled(results: Results, users: seq<string>)
    ensures TotalPlayed(results, users)
         == Total(results, users, Win) + Total(results, users, Loss) + Total(results, users, Draw)
    decreases |users|
  {
    if users != [] {
      PlayedIsTheSum(results, users[0]);
      PlayedIsTotalled(results, users[1..]);
    }
  }

  function Decided(results: Results): set<string> {
    set m | m in results && results[m].winnerID != ""
  }

  function Drawn(results: Results): set<string> {
    set m | m in results && results[m].winnerID == ""
  }

  lemma {:induction false} NothingPlayed(users: seq<string>, outcome: Outcome)
    ensures Total(map[], users, outcome) == 0
    decreases |users|
  {
    if users != [] {
      assert MatchesWith(map[], users[0], outcome) == {};
      NothingPlayed(users[1..], outcome);
    }
  }

  lemma OneMoreMatch(results: Results, m: string, r: MatchResult, users: seq<string>, outcome: Outcome)
    requires m !in results && Valid(r) && Distinct(users) && r.playerAID in users && r.playerBID in users
    requires outcome != NotPlaying
    ensures Total(results[m := r], users, outcome) == Total(results, users, outcome) + Owed(r, outcome)
  {
    TotalGrows(results, m, r, users, outcome);
    ShareIsOwed(r, users, outcome);
  }

  lemma OneMoreDecided(results: Results, m: string, r: MatchResult)
    requires m !in results
    ensures |Decided(results[m := r])| == |Decided(results)| + Owed(r, Win)
  {
    assert Decided(results[m := r]) == if r.winnerID == "" then Decided(results) else Decided(results) + {m};
  }

  lemma OneMoreDrawn(results: Results, m: string, r: MatchResult)
    requires m !in results
    ensures 2 * |Drawn(results[m := r])| == 2 * |Drawn(results)| + Owed(r, Draw)
  {
    assert Drawn(results[m := r]) == if r.winnerID == "" then Drawn(results) + {m} else Drawn(results);
  }

  ghost predicate Balanced(results: Results, users: seq<string>) {
    && Total(results, users, Win) == |Decided(results)| && Total(results, users, Loss) == |Decided(results)|
    && Total(results, users, Draw) == 2 * |Drawn(results)|
  }

  lemma OneMoreBalances(results: Results, m: string, r: MatchResult, users: seq<string>)
    requires m !in results && Valid(r) && Distinct(users) && r.playerAID in users && r.playerBID in users
    requires Balanced(results, users)
    ensures Balanced(results[m := r], users)
  {
    OneMoreMatch(results, m, r, users, Win);
    OneMoreMatch(results, m, r, users, Loss);
    OneMoreMatch(results, m, r, users, Draw);
    OneMoreDecided(results, m, r);
    OneMoreDrawn(results, m, r);
  }

  lemma Without(results: Results, m: string, users: seq<string>)
    requires AllValid(results) && ListsPlayers(users, results) && m in results
    ensures var rest := results - {m};
            && AllValid(rest) && ListsPlayers(users, rest) && m !in rest && rest[m := results[m]] == results
            && rest.Keys < results.Keys
  {
  }

  lemma {:induction false} TotalsByMatch(results: Results, users: seq<string>)
    requires AllValid(results) && Distinct(users) && ListsPlayers(users, results)
    ensures Balanced(results, users)
    decreases results.Keys
  {
    if results == map[] {
      assert Decided(map[]) == {} && Drawn(map[]) == {};
      NothingPlayed(users, Win);
      NothingPlayed(users, Loss);
      NothingPlayed(users, Draw);
    } else {
      var m :| m in results;
      Without(results, m, users);
      TotalsByMatch(results - {m}, users);
      OneMoreBalances(results - {m}, m, results[m], users);
    }
  }

  /**
   Over all participants, wins and losses both add up to the decided matches, draws to twice the drawn ones and played
   matches to twice all of them.
   */
  lemma TotalsBalance(results: Results, users: seq<string>)
    requires AllValid(results) && Distinct(users) && ListsPlayers(users, results)
    ensures Total(results, users, Win) == Total(results, users, Loss) == |Decided(results)|
    ensures Total(results, users, Draw) == 2 * |Drawn(results)|
    ensures TotalPlayed(results, users) == 2 * |results|
  {
    TotalsByMatch(results, users);
    PlayedIsTotalled(results, users);
    assert Decided(results) + Drawn(results) == results.Keys && Decided(results) !! Drawn(results);
  }

  // ---------------------------------------------------------------- deliveries

  function RecordedAll(deliveries: seq<MatchResult>): Results {
    if deliveries == [] then map[]
    else Recorded(RecordedAll(deliveries[..|deliveries| - 1]), deliveries[|deliveries| - 1])
  }

  /** The first valid delivery for a match ID. */
  ghost predicate FirstFor(deliveries: seq<MatchResult>, i: nat, matchID: string) {
    && i < |deliveries| && Valid(Normalized(deliveries[i])) && Normalized(deliveries[i]).matchID == matchID
    && forall j :: 0 <= j < i && Valid(Normalized(deliveries[j])) ==> Normalized(deliveries[j]).matchID != matchID
  }

  /** A match ID is in the store exactly if it was validly delivered, with the result of the first such delivery. */
  ghost predicate HoldsFirst(results: Results, deliveries: seq<MatchResult>, matchID: string) {
    && (matchID in results <==> exists i: nat :: FirstFor(deliveries, i, matchID))
    && (forall i: nat :: FirstFor(deliveries, i, matchID) ==>
          matchID in results && results[matchID] == Normalized(deliveries[i]))
  }

  /** The store holds exactly the first valid delivery for every match ID, whatever else was delivered and how often. */
  lemma {:induction false} FirstDeliveryCounts(deliveries: seq<MatchResult>, matchID: string)
    ensures HoldsFirst(RecordedAll(deliveries), deliveries, matchID)
    decreases |deliveries|
  {
    if deliveries != [] {
      var n := |deliveries| - 1;
      FirstDeliveryCounts(deliveries[..n], matchID);
      assert deliveries == deliveries[..n] + [deliveries[n]];
      OneMoreDelivery(RecordedAll(deliveries[..n]), deliveries[..n], deliveries[n], matchID);
    }
  }

  lemma OneMoreDelivery(results: Results, before: seq<MatchResult>, last: MatchResult, matchID: string)
    requires HoldsFirst(results, before, matchID)
    ensures HoldsFirst(Recorded(results, last), before + [last], matchID)
  {
    if matchID in results {
      var i: nat :| FirstFor(before, i, matchID);
      FirstStays(before, last, i, matchID);
    } else {
      NewFirst(before, last, matchID);
    }
  }

  /** A first delivery stays the only one. */
  lemma FirstStays(before: seq<MatchResult>, last: MatchResult, i: nat, matchID: string)
    requires FirstFor(before, i, matchID)
    ensures FirstFor(before + [last], i, matchID)
    ensures forall j: nat :: FirstFor(before + [last], j, matchID) ==> j == i
  {
    forall j: nat | FirstFor(before + [last], j, matchID) ensures j == i {
      assert i < |before| && (before + [last])[i] == before[i];
      assert j < |before| ==> (before + [last])[j] == before[j];
    }
  }

  lemma NewFirst(before: seq<MatchResult>, last: MatchResult, matchID: string)
    requires forall i: nat :: !FirstFor(before, i, matchID)
    ensures FirstFor(before + [last], |before|, matchID)
       <==> Valid(Normalized(last)) && Normalized(last).matchID == matchID
    ensures forall j: nat :: FirstFor(before + [last], j, matchID) ==> j == |before|
  {
    if j :| 0 <= j < |before| && Valid(Normalized(before[j])) && Normalized(before[j]).matchID == matchID {
      var first := Earliest(before, j, matchID);
    }
    forall j: nat | FirstFor(before + [last], j, matchID) ensures j == |before| {
      assert j < |before| ==> FirstFor(before, j, matchID);
    }
  }

  lemma {:induction false} Earliest(deliveries: seq<MatchResult>, j: nat, matchID: string) returns (i: nat)
    requires j < |deliveries| && Valid(Normalized(deliveries[j])) && Normalized(deliveries[j]).matchID == matchID
    ensures FirstFor(deliveries, i, matchID)
    decreases j
  {
    if k :| 0 <= k < j && Valid(Normalized(deliveries[k])) && Normalized(deliveries[k]).matchID == matchID {
      i := Earliest(deliveries, k, matchID);
    } else {
      i := j;
    }
  }

  lemma {:induction false} StoredResultsAreValid(deliveries: seq<MatchResult>)
    ensures AllValid(RecordedAll(deliveries))
    decreases |deliveries|
  {
    if deliveries != [] {
      StoredResultsAreValid(deliveries[..|deliveries| - 1]);
    }
  }

  /** Statistics always balance, whatever was delivered, how often and in what order. */
  lemma DeliveriesBalance(deliveries: seq<MatchResult>, users: seq<string>)
    requires Distinct(users) && ListsPlayers(users, RecordedAll(deliveries))
    ensures var results := RecordedAll(deliveries);
            && Total(results, users, Win) == Total(results, users, Loss) == |Decided(results)|
            && Total(results, users, Draw) == 2 * |Drawn(results)|
            && TotalPlayed(results, users) == 2 * |results|
  {
    StoredResultsAreValid(deliveries);
    TotalsBalance(RecordedAll(deliveries), users);
  }

  /** How one attempt to report can go. */
  datatype Attempt = Acknowledged | ResponseLost | RequestLost

  /** Whether an attempt gets through to the store. */
  predicate Arrives(attempt: Attempt) {
    attempt != RequestLost
  }

  const MAX_ATTEMPTS := 3

  /** `network` says how each attempt goes, `patience` after how many of them the context is done. */
  method RetryReport(store: MemoryStore, result: MatchResult, network: seq<Attempt>, patience: nat)
    returns (attempts: nat)
    requires |network| >= MAX_ATTEMPTS
    modifies store
    ensures attempts <= MAX_ATTEMPTS
    ensures store.results == if exists i :: 0 <= i < attempts && Arrives(network[i])
                             then Recorded(old(store.results), result) else old(store.results)
    ensures forall i :: 0 <= i < attempts - 1 ==> network[i] != Acknowledged
    ensures attempts < MAX_ATTEMPTS ==> attempts > 0 && (network[attempts - 1] == Acknowledged || attempts >= patience)
  {
    attempts := 0;
    while attempts < MAX_ATTEMPTS
      invariant attempts <= MAX_ATTEMPTS
      invariant forall i :: 0 <= i < attempts ==> network[i] != Acknowledged
      invariant store.results == if exists i :: 0 <= i < attempts && Arrives(network[i])
                                 then Recorded(old(store.results), result) else old(store.results)
    {
      var attempt := network[attempts];
      if Arrives(attempt) {
        RecordingTwice(old(store.results), result);
        var _, _ := RecordMatchResult(store, result);
        assert Arrives(network[attempts]);
      }
      attempts := attempts + 1;
      if attempt == Acknowledged || attempts >= patience {
        return;
      }
    }
  }

  lemma RecordingTwice(results: Results, delivery: MatchResult)
    ensures Recorded(Recorded(results, delivery), delivery) == Recorded(results, delivery)
  {
  }
}
