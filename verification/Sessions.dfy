/**
 Refresh tokens are good for one use. The store rotates them; the client shares one session between concurrent
 requests, any of which may be rejected and refresh it. In every interleaving of such requests no token is ever
 presented twice, and the session is lost only when a refresh itself fails.
 */
module Sessions {
  import opened RoomModel

  // ---------------------------------------------------------------- the store

  /** Tokens are named by their hash. */
  datatype RefreshToken = RefreshToken(hash: nat, userID: string, expiresAt: nat)

  type Tokens = map<nat, RefreshToken>

  predicate Good(tokens: Tokens, hash: nat, now: nat) {
    hash in tokens && now < tokens[hash].expiresAt
  }

  function Rotated(tokens: Tokens, oldHash: nat, replacement: RefreshToken, now: nat): Tokens {
    if Good(tokens, oldHash, now)
    then (tokens - {oldHash})[replacement.hash := replacement.(userID := tokens[oldHash].userID)]
    else tokens - {oldHash}
  }

  class MemoryStore {
    var refreshTokens: Tokens

    constructor ()
      ensures refreshTokens == map[]
    {
      refreshTokens := map[];
    }

    method SaveRefreshToken(token: RefreshToken)
      modifies this
      ensures refreshTokens == old(refreshTokens)[token.hash := token]
    {
      refreshTokens := refreshTokens[token.hash := token];
    }

    method RotateRefreshToken(oldHash: nat, replacement: RefreshToken, now: nat) returns (userID: Option<string>)
      modifies this
      ensures refreshTokens == Rotated(old(refreshTokens), oldHash, replacement, now)
      ensures userID == (if Good(old(refreshTokens), oldHash, now) then Some(old(refreshTokens)[oldHash].userID)
                         else None)
    {
      if oldHash !in refreshTokens || now >= refreshTokens[oldHash].expiresAt {
        refreshTokens := refreshTokens - {oldHash};
        return None;
      }
      var previous := refreshTokens[oldHash];
      refreshTokens := refreshTokens - {oldHash};
      refreshTokens := refreshTokens[replacement.hash := replacement.(userID := previous.userID)];
      return Some(previous.userID);
    }

    method RevokeRefreshToken(hash: nat)
      modifies this
      ensures refreshTokens == old(refreshTokens) - {hash}
    {
      refreshTokens := refreshTokens - {hash};
    }
  }

  /** Operations of the store, as one caller after another gets hold of its lock. */
  datatype Operation =
    | Save(token: RefreshToken) | Rotate(oldHash: nat, replacement: RefreshToken, now: nat) | Revoke(hash: nat)

  function Performed(tokens: Tokens, op: Operation): Tokens {
    match op
    case Save(token) => tokens[token.hash := token]
    case Rotate(oldHash, replacement, now) => Rotated(tokens, oldHash, replacement, now)
    case Revoke(hash) => tokens - {hash}
  }

  function PerformedAll(tokens: Tokens, ops: seq<Operation>): Tokens {
    if ops == [] then tokens else Performed(PerformedAll(tokens, ops[..|ops| - 1]), ops[|ops| - 1])
  }

  /** Whether an operation brings a token of this hash into being. */
  predicate Creates(op: Operation, hash: nat) {
    (op.Save? && op.token.hash == hash) || (op.Rotate? && op.replacement.hash == hash)
  }

  /** Once a token has been presented it is gone for good: no later presentation succeeds. */
  lemma {:induction false} SingleUse(tokens: Tokens, oldHash: nat, replacement: RefreshToken, first: nat,
                                     later: seq<Operation>, now: nat)
    requires replacement.hash != oldHash && forall op :: op in later ==> !Creates(op, oldHash)
    ensures !Good(PerformedAll(Rotated(tokens, oldHash, replacement, first), later), oldHash, now)
    ensures oldHash !in PerformedAll(Rotated(tokens, oldHash, replacement, first), later)
    decreases |later|
  {
    if later != [] {
      assert later[|later| - 1] in later;
      SingleUse(tokens, oldHash, replacement, first, later[..|later| - 1], now);
    }
  }

  /** A rotation takes the presented token and, if it was good, brings the replacement, for the same user. */
  lemma RotationIsExact(tokens: Tokens, oldHash: nat, replacement: RefreshToken, now: nat, hash: nat)
    requires replacement.hash != oldHash
    ensures var after := Rotated(tokens, oldHash, replacement, now);
            var good := oldHash in tokens && now < tokens[oldHash].expiresAt;
            if good && hash == replacement.hash then
              hash in after && after[hash] == RefreshToken(hash, tokens[oldHash].userID, replacement.expiresAt)
            else if hash == oldHash then hash !in after
            else (hash in after <==> hash in tokens) && (hash in after ==> after[hash] == tokens[hash])
  {
  }

  /** Somebody has logged in as this user. */
  ghost predicate LoggedInAs(ops: seq<Operation>, userID: string) {
    exists i :: 0 <= i < |ops| && ops[i].Save? && ops[i].token.userID == userID
  }

  /** However often tokens are rotated, each one still belongs to a user who has logged in. */
  lemma {:induction false} TokensStayWithTheirUsers(ops: seq<Operation>, hash: nat)
    requires hash in PerformedAll(map[], ops)
    ensures LoggedInAs(ops, PerformedAll(map[], ops)[hash].userID)
    decreases |ops|
  {
    var n := |ops| - 1;
    var before, op := PerformedAll(map[], ops[..n]), ops[n];
    var userID := PerformedAll(map[], ops)[hash].userID;
    if op.Save? && op.token.hash == hash {
      assert ops[n].Save? && ops[n].token.userID == userID;
    } else {
      var source := if op.Rotate? && op.replacement.hash == hash && Good(before, op.oldHash, op.now) then op.oldHash
                    else hash;
      TokensStayWithTheirUsers(ops[..n], source);
      var i :| 0 <= i < n && ops[..n][i].Save? && ops[..n][i].token.userID == userID;
      assert ops[i].Save? && ops[i].token.userID == userID;
    }
  }

  /** A revoked token never works again either. */
  lemma {:induction false} RevokedForGood(tokens: Tokens, hash: nat, later: seq<Operation>)
    requires forall op :: op in later ==> !Creates(op, hash)
    ensures hash !in PerformedAll(Performed(tokens, Revoke(hash)), later)
    decreases |later|
  {
    if later != [] {
      assert later[|later| - 1] in later;
      RevokedForGood(tokens, hash, later[..|later| - 1]);
    }
  }

  // ---------------------------------------------------------------- concurrent requests of one client

  datatype Session = Session(access: nat, refresh: nat)

  /**
   One authenticated request. `Locked`, `Refreshing` and `Answered` hold the refresh mutex; `Retrying` has been told
   that there is a newer session than the one it was rejected with.
   */
  datatype Phase =
    | Starting
    | Sending(access: nat)
    | Rejected(access: nat)
    | Locked(access: nat)
    | Refreshing(before: Session)
    | Answered(before: Session, answer: Option<Session>)
    | Retrying(rejected: nat)
    | Resending(rejected: nat, access: nat)
    | Returned
    | NotAuthenticated
    | RefreshFailed

  /**
   `presented` lists the sessions handed to the gateway for a refresh; `next` is above every token ever issued, and
   `unanswered` counts the refreshes that did not bring back a session.
   */
  datatype System = System(session: Option<Session>, tokens: Tokens, now: nat, next: nat, requests: seq<Phase>,
                           mutex: Option<nat>, presented: seq<Session>, unanswered: nat)

  datatype Step =
    | Clock | Arrive
    | Copy(id: nat) | Respond(id: nat, unauthorized: bool)
    | Lock(id: nat) | Compare(id: nat)
    | Serve(id: nat, expiresAt: nat, heard: bool)  // the gateway rotates; the response may be lost
    | LoseRequest(id: nat)
    | Conclude(id: nat)
    | CopyAgain(id: nat) | RespondAgain(id: nat)

  predicate Enabled(s: System, step: Step) {
    match step
    case Clock => true
    case Arrive => true
    case Copy(id) => id < |s.requests| && s.requests[id].Starting?
    case Respond(id, _) => id < |s.requests| && s.requests[id].Sending?
    case Lock(id) => id < |s.requests| && s.requests[id].Rejected? && s.mutex == None
    case Compare(id) => id < |s.requests| && s.requests[id].Locked?
    case Serve(id, _, _) => id < |s.requests| && s.requests[id].Refreshing?
    case LoseRequest(id) => id < |s.requests| && s.requests[id].Refreshing?
    case Conclude(id) => id < |s.requests| && s.requests[id].Answered?
    case CopyAgain(id) => id < |s.requests| && s.requests[id].Retrying?
    case RespondAgain(id) => id < |s.requests| && s.requests[id].Resending?
  }

  function Moved(s: System, id: nat, phase: Phase): System
    requires id < |s.requests|
  {
    s.(requests := s.requests[id := phase])
  }

  function Compared(s: System, id: nat, rejected: nat): System
    requires id < |s.requests|
  {
    if s.session == None then Moved(s, id, NotAuthenticated).(mutex := None)
    else if s.session.value.access != rejected then Moved(s, id, Retrying(rejected)).(mutex := None)
    else Moved(s, id, Refreshing(s.session.value)).(presented := s.presented + [s.session.value])
  }

  /** The gateway's answer: a new session exactly when the presented token was good. */
  function Served(s: System, id: nat, before: Session, expiresAt: nat, heard: bool): System
    requires id < |s.requests|
  {
    var replacement := RefreshToken(s.next, "", expiresAt);
    var answer := if Good(s.tokens, before.refresh, s.now) && heard then Some(Session(s.next, s.next)) else None;
    Moved(s, id, Answered(before, answer)).(tokens := Rotated(s.tokens, before.refresh, replacement, s.now),
                                           next := s.next + 1,
                                           unanswered := s.unanswered + if answer == None then 1 else 0)
  }

  predicate StillRejected(s: System, before: Session) {
    s.session.Some? && s.session.value.access == before.access
  }

  function Concluded(s: System, id: nat, before: Session, answer: Option<Session>): System
    requires id < |s.requests|
  {
    if answer == None then
      Moved(s, id, RefreshFailed).(mutex := None, session := if StillRejected(s, before) then None else s.session)
    else
      var session := if StillRejected(s, before) then answer else s.session;
      Moved(s, id, if session.Some? then Retrying(before.access) else RefreshFailed).(mutex := None, session := session)
  }

  function Do(s: System, step: Step): System
    requires Enabled(s, step)
  {
    match step
    case Clock => s.(now := s.now + 1)
    case Arrive => s.(requests := s.requests + [Starting])
    case Copy(id) => Moved(s, id, if s.session.Some? then Sending(s.session.value.access) else NotAuthenticated)
    case Respond(id, unauthorized) =>
      Moved(s, id, if unauthorized then Rejected(s.requests[id].access) else Returned)
    case Lock(id) => Moved(s, id, Locked(s.requests[id].access)).(mutex := Some(id))
    case Compare(id) => Compared(s, id, s.requests[id].access)
    case Serve(id, expiresAt, heard) => Served(s, id, s.requests[id].before, expiresAt, heard)
    case LoseRequest(id) =>
      Moved(s, id, Answered(s.requests[id].before, None)).(unanswered := s.unanswered + 1)
    case Conclude(id) => Concluded(s, id, s.requests[id].before, s.requests[id].answer)
    case CopyAgain(id) =>
      Moved(s, id, if s.session.Some? then Resending(s.requests[id].rejected, s.session.value.access)
                   else NotAuthenticated)
    case RespondAgain(id) => Moved(s, id, Returned)
  }

  function Play(start: System, steps: seq<Step>): Option<System>
    decreases |steps|
  {
    if steps == [] then Some(start)
    else
      var before := Play(start, steps[..|steps| - 1]);
      if before.Some? && Enabled(before.value, steps[|steps| - 1])
      then Some(Do(before.value, steps[|steps| - 1]))
      else None
  }

  /** A client that has just logged in; the store may hold other clients' tokens as well. */
  ghost predicate LoggedIn(s: System) {
    && s.session.Some? && s.session.value.refresh in s.tokens && s.session.value.access < s.next
    && (forall hash :: hash in s.tokens ==> hash < s.next)
    && s.requests == [] && s.mutex == None && s.presented == [] && s.unanswered == 0
  }

  // ---------------------------------------------------------------- the invariant

  predicate Holds(phase: Phase) {
    phase.Locked? || phase.Refreshing? || phase.Answered?
  }

  ghost predicate Exclusive(s: System) {
    && (forall id :: 0 <= id < |s.requests| && Holds(s.requests[id]) ==> s.mutex == Some(id))
    && (s.mutex.Some? ==> s.mutex.value < |s.requests| && Holds(s.requests[s.mutex.value]))
  }

  /** The phase of the request that holds the mutex. */
  function Holder(s: System): Phase {
    if s.mutex.Some? && s.mutex.value < |s.requests| then s.requests[s.mutex.value] else Returned
  }

  /** The session has been presented, and the answer is not known yet. */
  predicate InDoubt(s: System) {
    Holder(s).Refreshing? || Holder(s).Answered?
  }

  ghost predicate Issued(s: System, session: Session) {
    session.access < s.next && session.refresh < s.next
  }

  /** All earlier sessions differ from this one in both tokens. */
  ghost predicate FreshAmong(session: Session, presented: seq<Session>, bound: nat) {
    forall i :: 0 <= i < bound && i < |presented| ==>
      presented[i].access != session.access && presented[i].refresh != session.refresh
  }

  ghost predicate NoneTwice(presented: seq<Session>) {
    forall i :: 0 <= i < |presented| ==> FreshAmong(presented[i], presented, i)
  }

  ghost predicate AllIssued(s: System) {
    && (forall i :: 0 <= i < |s.presented| ==> Issued(s, s.presented[i]))
    && (forall hash :: hash in s.tokens ==> hash < s.next)
    && (s.session.Some? ==> Issued(s, s.session.value))
  }

  ghost predicate InDoubtOnce(s: System)
    requires InDoubt(s)
  {
    && s.session == Some(Holder(s).before) && s.presented != []
    && s.presented[|s.presented| - 1] == s.session.value
    && (Holder(s).Refreshing? ==> s.session.value.refresh in s.tokens)
    && (Holder(s).Answered? && Holder(s).answer.Some? ==>
          && Holder(s).answer.value.refresh in s.tokens && Issued(s, Holder(s).answer.value)
          && FreshAmong(Holder(s).answer.value, s.presented, |s.presented|))
    && (Holder(s).Answered? && Holder(s).answer == None ==> s.unanswered > 0)
  }

  ghost predicate Invariant(s: System) {
    && Exclusive(s) && NoneTwice(s.presented) && AllIssued(s)
    && (if InDoubt(s) then InDoubtOnce(s)
        else s.session.Some? ==>
               s.session.value.refresh in s.tokens && FreshAmong(s.session.value, s.presented, |s.presented|))
    && (s.session == None ==> s.unanswered > 0)
    && (s.unanswered == 0 ==>
          forall id :: 0 <= id < |s.requests| ==> !s.requests[id].NotAuthenticated? && !s.requests[id].RefreshFailed?)
  }

  lemma OutsideTheMutex(s: System, t: System, id: nat)
    requires Invariant(s) && id < |s.requests| == |t.requests| && !Holds(s.requests[id]) && !Holds(t.requests[id])
    requires t == Moved(s, id, t.requests[id])
    requires s.session.Some? ==> !t.requests[id].NotAuthenticated?
    requires !t.requests[id].RefreshFailed?
    ensures Invariant(t)
  {
    assert Holder(t) == Holder(s);
  }

  lemma LockKeeps(s: System, id: nat)
    requires Invariant(s) && Enabled(s, Lock(id))
    ensures Invariant(Do(s, Lock(id)))
  {
    assert !Holds(s.requests[id]);
  }

  lemma CompareKeeps(s: System, id: nat)
    requires Invariant(s) && Enabled(s, Compare(id))
    ensures Invariant(Do(s, Compare(id)))
  {
    assert Holds(s.requests[id]);
  }

  lemma ServeKeeps(s: System, id: nat, expiresAt: nat, heard: bool)
    requires Invariant(s) && Enabled(s, Serve(id, expiresAt, heard))
    ensures Invariant(Do(s, Serve(id, expiresAt, heard)))
  {
    assert Holds(s.requests[id]);
  }

  lemma LoseRequestKeeps(s: System, id: nat)
    requires Invariant(s) && Enabled(s, LoseRequest(id))
    ensures Invariant(Do(s, LoseRequest(id)))
  {
    assert Holds(s.requests[id]);
  }

  lemma ConcludeKeeps(s: System, id: nat)
    requires Invariant(s) && Enabled(s, Conclude(id))
    ensures Invariant(Do(s, Conclude(id)))
  {
    assert Holds(s.requests[id]);
  }

  lemma ArriveKeeps(s: System)
    requires Invariant(s)
    ensures Invariant(Do(s, Arrive))
  {
    assert Holder(Do(s, Arrive)) == Holder(s);
  }

  lemma InvariantIsKept(s: System, step: Step)
    requires Invariant(s) && Enabled(s, step)
    ensures Invariant(Do(s, step))
  {
    match step
    case Clock =>
    case Arrive => ArriveKeeps(s);
    case Copy(id) => OutsideTheMutex(s, Do(s, step), id);
    case Respond(id, _) => OutsideTheMutex(s, Do(s, step), id);
    case Lock(id) => LockKeeps(s, id);
    case Compare(id) => CompareKeeps(s, id);
    case Serve(id, expiresAt, heard) => ServeKeeps(s, id, expiresAt, heard);
    case LoseRequest(id) => LoseRequestKeeps(s, id);
    case Conclude(id) => ConcludeKeeps(s, id);
    case CopyAgain(id) => OutsideTheMutex(s, Do(s, step), id);
    case RespondAgain(id) => OutsideTheMutex(s, Do(s, step), id);
  }

  lemma {:induction false} InvariantAlways(start: System, steps: seq<Step>)
    requires LoggedIn(start) && Play(start, steps).Some?
    ensures Invariant(Play(start, steps).value)
    decreases |steps|
  {
    if steps != [] {
      var n := |steps| - 1;
      InvariantAlways(start, steps[..n]);
      InvariantIsKept(Play(start, steps[..n]).value, steps[n]);
    }
  }

  // ---------------------------------------------------------------- the results

  /** No token is presented twice: not by two requests rejected with the same session, and not after a lost answer. */
  lemma NoReplay(start: System, steps: seq<Step>, i: nat, j: nat)
    requires LoggedIn(start) && Play(start, steps).Some? && i < j < |Play(start, steps).value.presented|
    ensures var presented := Play(start, steps).value.presented;
            presented[i].refresh != presented[j].refresh && presented[i].access != presented[j].access
  {
    InvariantAlways(start, steps);
    assert FreshAmong(Play(start, steps).value.presented[j], Play(start, steps).value.presented, j);
  }

  /** The token a refresh presents is always in the store, so the gateway refuses it only because it has expired. */
  lemma PresentedTokensAreLive(start: System, steps: seq<Step>, id: nat)
    requires LoggedIn(start) && Play(start, steps).Some? && id < |Play(start, steps).value.requests|
    requires Play(start, steps).value.requests[id].Refreshing?
    ensures var s := Play(start, steps).value; var hash := s.requests[id].before.refresh;
            hash in s.tokens && (Good(s.tokens, hash, s.now) <==> s.now < s.tokens[hash].expiresAt)
  {
    InvariantAlways(start, steps);
    assert Holds(Play(start, steps).value.requests[id]);
  }

  /** Unless a refresh goes unanswered, nobody is ever logged out and no request fails for want of a session. */
  lemma SessionSurvives(start: System, steps: seq<Step>)
    requires LoggedIn(start) && Play(start, steps).Some? && Play(start, steps).value.unanswered == 0
    ensures var s := Play(start, steps).value;
            && s.session.Some?
            && (!InDoubt(s) ==> s.session.value.refresh in s.tokens)
            && forall id :: 0 <= id < |s.requests| ==>
                 !s.requests[id].NotAuthenticated? && !s.requests[id].RefreshFailed?
  {
    InvariantAlways(start, steps);
  }

  /** The step that brings the holder of the mutex closer to releasing it. */
  function Onward(s: System): Step
    requires s.mutex.Some?
  {
    match Holder(s)
    case Locked(_) => Compare(s.mutex.value)
    case Refreshing(_) => LoseRequest(s.mutex.value)
    case _ => Conclude(s.mutex.value)
  }

  /** How many steps the holder has still to take. */
  function ToGo(s: System): nat {
    match Holder(s)
    case Locked(_) => 3
    case Refreshing(_) => 2
    case Answered(_, _) => 1
    case _ => 0
  }

  /** The mutex is never stuck: its holder can always go on, and each of at most three steps brings it closer. */
  lemma MutexIsReleased(start: System, steps: seq<Step>)
    requires LoggedIn(start) && Play(start, steps).Some? && Play(start, steps).value.mutex.Some?
    ensures var s := Play(start, steps).value;
            && Enabled(s, Onward(s)) && ToGo(s) > 0
            && (var t := Do(s, Onward(s)); t.mutex == None || (t.mutex == s.mutex && ToGo(t) < ToGo(s)))
  {
    InvariantAlways(start, steps);
  }

  // ---------------------------------------------------------------- a rejected request and its retry

  /** Neither the session nor the one about to take its place has this access token. */
  ghost predicate Superseded(s: System, access: nat) {
    && access < s.next && (s.session.Some? ==> s.session.value.access != access)
    && (Holder(s).Answered? && Holder(s).answer.Some? ==> Holder(s).answer.value.access != access)
  }

  ghost predicate RetriesWithNewer(s: System, phase: Phase) {
    match phase
    case Sending(access) => access < s.next
    case Rejected(access) => access < s.next
    case Locked(access) => access < s.next
    case Retrying(rejected) => Superseded(s, rejected)
    case Resending(rejected, access) => access != rejected
    case _ => true
  }

  ghost predicate AllRetryWithNewer(s: System) {
    forall id :: 0 <= id < |s.requests| ==> RetriesWithNewer(s, s.requests[id])
  }

  /** A step that moves one request, and leaves superseded tokens superseded. */
  lemma OneRequestMoves(s: System, t: System, id: nat)
    requires AllRetryWithNewer(s) && id < |s.requests| == |t.requests| && t.requests == s.requests[id := t.requests[id]]
    requires s.next <= t.next && forall access :: Superseded(s, access) ==> Superseded(t, access)
    requires RetriesWithNewer(t, t.requests[id])
    ensures AllRetryWithNewer(t)
  {
    forall i | 0 <= i < |t.requests| ensures RetriesWithNewer(t, t.requests[i]) {
      assert RetriesWithNewer(s, s.requests[i]);
    }
  }

  lemma StepRetriesWithNewer(s: System, step: Step)
    requires Invariant(s) && AllRetryWithNewer(s) && Enabled(s, step)
    ensures AllRetryWithNewer(Do(s, step))
  {
    match step
    case Clock => WaitingChangesNothing(s, Do(s, step));
    case Arrive => WaitingChangesNothing(s, Do(s, step));
    case Copy(id) => OutsideRetries(s, step, id);
    case Respond(id, _) => OutsideRetries(s, step, id);
    case Lock(id) => InsideRetries(s, step, id);
    case Compare(id) => InsideRetries(s, step, id);
    case Serve(id, _, _) => InsideRetries(s, step, id);
    case LoseRequest(id) => InsideRetries(s, step, id);
    case Conclude(id) => InsideRetries(s, step, id);
    case CopyAgain(id) => OutsideRetries(s, step, id);
    case RespondAgain(id) => OutsideRetries(s, step, id);
  }

  lemma WaitingChangesNothing(s: System, t: System)
    requires Invariant(s) && AllRetryWithNewer(s) && s.requests <= t.requests && t.next == s.next
    requires t.session == s.session && t.mutex == s.mutex && |t.requests| <= |s.requests| + 1
    requires |t.requests| > |s.requests| ==> t.requests[|s.requests|].Starting?
    ensures AllRetryWithNewer(t)
  {
    assert Holder(t) == Holder(s);
    forall i | 0 <= i < |t.requests| ensures RetriesWithNewer(t, t.requests[i]) {
      assert i < |s.requests| ==> RetriesWithNewer(s, s.requests[i]) && t.requests[i] == s.requests[i];
    }
  }

  lemma OutsideRetries(s: System, step: Step, id: nat)
    requires Invariant(s) && AllRetryWithNewer(s) && Enabled(s, step)
    requires step == Copy(id) || (step.Respond? && step.id == id) || step == CopyAgain(id) || step == RespondAgain(id)
    ensures AllRetryWithNewer(Do(s, step))
  {
    var t := Do(s, step);
    assert !Holds(s.requests[id]) && Holder(t) == Holder(s);
    assert RetriesWithNewer(s, s.requests[id]);
    OneRequestMoves(s, t, id);
  }

  lemma InsideRetries(s: System, step: Step, id: nat)
    requires Invariant(s) && AllRetryWithNewer(s) && Enabled(s, step)
    requires || step == Lock(id) || step == Compare(id) || (step.Serve? && step.id == id) || step == LoseRequest(id)
             || step == Conclude(id)
    ensures AllRetryWithNewer(Do(s, step))
  {
    assert RetriesWithNewer(s, s.requests[id]);
    if !step.Lock? {
      assert Holds(s.requests[id]) && s.mutex == Some(id);
    }
    OneRequestMoves(s, Do(s, step), id);
  }

  lemma {:induction false} AlwaysRetryWithNewer(start: System, steps: seq<Step>)
    requires LoggedIn(start) && Play(start, steps).Some?
    ensures AllRetryWithNewer(Play(start, steps).value)
    decreases |steps|
  {
    if steps != [] {
      var n := |steps| - 1;
      AlwaysRetryWithNewer(start, steps[..n]);
      InvariantAlways(start, steps[..n]);
      StepRetriesWithNewer(Play(start, steps[..n]).value, steps[n]);
    }
  }

  /** In every interleaving, a request that is sent again is sent with another access token than was rejected. */
  lemma RetriesUseANewerToken(start: System, steps: seq<Step>, id: nat)
    requires LoggedIn(start) && Play(start, steps).Some? && id < |Play(start, steps).value.requests|
    requires Play(start, steps).value.requests[id].Resending?
    ensures Play(start, steps).value.requests[id].access != Play(start, steps).value.requests[id].rejected
  {
    AlwaysRetryWithNewer(start, steps);
    assert RetriesWithNewer(Play(start, steps).value, Play(start, steps).value.requests[id]);
  }

  /**
   A request returns only with an answer: to its first attempt, unless that was rejected, or to its second; and a
   rejected one goes on to the refresh with the token it was rejected with.
   */
  lemma OnlyAnswersReturn(s: System, step: Step, id: nat)
    requires Enabled(s, step) && id < |s.requests|
    ensures var p, q := s.requests[id], Do(s, step).requests[id];
            && (q.Returned? && !p.Returned? ==> step == Respond(id, false) || step == RespondAgain(id))
            && (step == Respond(id, true) ==> q == Rejected(p.access))
            && (step == Lock(id) ==> q == Locked(p.access))
            && (p.Retrying? && q != p ==> q == NotAuthenticated || (q.Resending? && q.rejected == p.rejected))
  {
  }

  /** A session is handed in for a refresh only on behalf of a request that was rejected with it. */
  lemma OnlyTheRejectedIsRefreshed(s: System, step: Step)
    requires Enabled(s, step) && Do(s, step).presented != s.presented
    ensures step.Compare? && step.id < |s.requests| && s.requests[step.id].Locked? && s.session.Some?
    ensures s.session.value.access == s.requests[step.id].access
    ensures Do(s, step).presented == s.presented + [s.session.value]
  {
  }
}
