/** Concurrent requests on one session inside maybeRefresh, as interleaved atomic steps (pkg/auth/session/store.go), with
    the identity provider they call (pkg/server/oauth2.go) and a logout that may happen at any point.

    A refresh token is identified by a number. A provider with rotation, section 6 of RFC 6749, accepts one token at a
    time: when it renews a credential it may retire that token and hand out a new one. */
module RefreshProtocol {
  import opened Wrappers

  const WINDOW := 60

  type Token = nat

  datatype Answer = Failure | Success(expiresAt: int, newToken: Option<Token>)

  /** Where a request stands. */
  datatype Pc =
    | Idle
    | Found(now: int)                 // has the session from the store, and Get's clock reading
    | Waiting                         // found it inside the window, wants refreshMutex
    | Holding                         // has refreshMutex
    | Checked                         // found it inside the window again
    | Calling(token: Option<Token>)   // has copied the refresh token and is inside Refresh
    | Answered(answer: Answer)        // back from Refresh
    | Releasing                       // done, about to release refreshMutex

  datatype State = State(
    pcs: seq<Pc>,
    lock: Option<nat>,
    clock: int,
    expiresAt: Option<int>,     // the credential's expiry
    token: Option<Token>,       // the session's refresh token
    material: bool,             // whether the session holds credential material
    deleted: bool,
    inFlightAtDelete: bool,     // whether a request was inside Refresh, or back from it, when the session was deleted
    current: Token,             // the token the provider accepts
    nextToken: Token,               // the next token the provider will hand out
    lost: bool,                 // whether an answer that retired a token has been lost
    calls: nat)

  datatype Action =
    | Tick(clock: int)
    | Lookup(i: nat)
    | Enter(i: nat)
    | Acquire(i: nat)
    | Recheck(i: nat)
    | Copy(i: nat)
    | Renewed(i: nat, expiresAt: int, rotates: bool)
    | Failed(i: nat)
    | Lost(i: nat)
    | Apply(i: nat)
    | Release(i: nat)
    | Delete

  predicate NeedsRefresh(s: State, now: int) {
    s.expiresAt.Some? && now + WINDOW >= s.expiresAt.value
  }

  function Move(s: State, i: nat, pc: Pc): State
    requires i < |s.pcs|
  {
    s.(pcs := s.pcs[i := pc])
  }

  /** A failed refresh changes nothing; a successful one replaces the credential, and the refresh token if there is a new one. */
  function Applied(s: State, answer: Answer): State {
    match answer
    case Failure => s
    case Success(expiresAt, newToken) =>
      s.(expiresAt := Some(expiresAt), material := true, token := if newToken.Some? then newToken else s.token)
  }

  ghost predicate InFlight(pc: Pc) {
    pc.Calling? || (pc.Answered? && pc.answer.Success?)
  }

  ghost predicate AnyInFlight(s: State) {
    exists i :: 0 <= i < |s.pcs| && InFlight(s.pcs[i])
  }

  /** The store's Delete: the session is out of the map and zeroed, whatever requests still hold it. */
  ghost function Deleted(s: State): State {
    s.(deleted := true, token := None, material := false, inFlightAtDelete := AnyInFlight(s))
  }

  ghost predicate Next(s: State, a: Action, s': State) {
    match a
    case Tick(clock) =>
      s.clock <= clock && s' == s.(clock := clock)
    case Lookup(i) =>
      i < |s.pcs| && s.pcs[i].Idle? && !s.deleted && s' == Move(s, i, Found(s.clock))
    case Enter(i) =>
      i < |s.pcs| && s.pcs[i].Found? && s' == Move(s, i, if NeedsRefresh(s, s.pcs[i].now) then Waiting else Idle)
    case Acquire(i) =>
      i < |s.pcs| && s.pcs[i].Waiting? && s.lock.None? && s' == Move(s, i, Holding).(lock := Some(i))
    case Recheck(i) =>
      i < |s.pcs| && s.pcs[i].Holding? && s' == Move(s, i, if NeedsRefresh(s, s.clock) then Checked else Releasing)
    case Copy(i) =>
      i < |s.pcs| && s.pcs[i].Checked? && s' == Move(s, i, Calling(s.token)).(calls := s.calls + 1)
    case Renewed(i, expiresAt, rotates) =>
      && i < |s.pcs| && s.pcs[i] == Calling(Some(s.current))
      && s' == if rotates
               then Move(s, i, Answered(Success(expiresAt, Some(s.nextToken)))).(current := s.nextToken, nextToken := s.nextToken + 1)
               else Move(s, i, Answered(Success(expiresAt, None)))
    case Failed(i) =>
      i < |s.pcs| && s.pcs[i].Calling? && s' == Move(s, i, Answered(Failure))
    case Lost(i) =>
      && i < |s.pcs| && s.pcs[i] == Calling(Some(s.current))
      && s' == Move(s, i, Answered(Failure)).(current := s.nextToken, nextToken := s.nextToken + 1, lost := true)
    case Apply(i) =>
      && i < |s.pcs| && s.pcs[i].Answered?
      && s' == Applied(Move(s, i, Releasing), s.pcs[i].answer)
    case Release(i) =>
      i < |s.pcs| && s.pcs[i].Releasing? && s' == Move(s, i, Idle).(lock := None)
    case Delete =>
      !s.deleted && s' == Deleted(s)
  }

  ghost predicate Init(s: State) {
    && (forall i | 0 <= i < |s.pcs| :: s.pcs[i].Idle?)
    && s.lock.None? && s.token == Some(s.current) && s.current < s.nextToken
    && s.material && !s.deleted && !s.inFlightAtDelete && !s.lost && s.calls == 0
  }

  ghost predicate IsPath(states: seq<State>, actions: seq<Action>) {
    && |states| == |actions| + 1
    && forall k | 0 <= k < |actions| :: Next(states[k], actions[k], states[k + 1])
  }

  ghost predicate IsRun(states: seq<State>, actions: seq<Action>) {
    IsPath(states, actions) && Init(states[0])
  }

  ghost predicate Reachable(s: State) {
    exists states: seq<State>, actions: seq<Action> :: IsRun(states, actions) && states[|actions|] == s
  }

  lemma ReachableNext(s: State, a: Action, s': State)
    requires Reachable(s) && Next(s, a, s')
    ensures Reachable(s')
  {
    var states: seq<State>, actions: seq<Action> :| IsRun(states, actions) && states[|actions|] == s;
    assert IsRun(states + [s'], actions + [a]);
  }

  // ---------------------------------------------------------------- single flight

  predicate Inside(pc: Pc) {
    pc.Holding? || pc.Checked? || pc.Calling? || pc.Answered? || pc.Releasing?
  }

  /** refreshMutex is held by exactly the request that is between taking and releasing it. */
  ghost predicate Locked(s: State) {
    && (forall i | 0 <= i < |s.pcs| :: Inside(s.pcs[i]) <==> s.lock == Some(i))
    && (s.lock.Some? ==> s.lock.value < |s.pcs|)
  }

  predicate ByRequest(a: Action) {
    !a.Tick? && !a.Delete?
  }

  /** A step of one request leaves the others where they are. */
  lemma OneMoves(s: State, a: Action, s': State)
    requires Next(s, a, s') && ByRequest(a)
    ensures a.i < |s.pcs| == |s'.pcs| && s'.pcs == s.pcs[a.i := s'.pcs[a.i]]
  {
  }

  /** Only Acquire and Release touch the lock, and only they enter and leave the section it protects. */
  lemma LockMoves(s: State, a: Action, s': State)
    requires Next(s, a, s') && ByRequest(a) && a.i < |s.pcs| == |s'.pcs|
    ensures a.Acquire? ==> s.lock.None? && s'.lock == Some(a.i) && Inside(s'.pcs[a.i])
    ensures a.Release? ==> Inside(s.pcs[a.i]) && s'.lock.None? && !Inside(s'.pcs[a.i])
    ensures !a.Acquire? && !a.Release? ==> s'.lock == s.lock && (Inside(s'.pcs[a.i]) <==> Inside(s.pcs[a.i]))
  {
  }

  lemma StepOf(s: State, s': State, i: nat)
    requires Locked(s) && |s.pcs| == |s'.pcs| && i < |s.pcs| && s'.pcs == s.pcs[i := s'.pcs[i]]
    requires Inside(s'.pcs[i]) <==> s'.lock == Some(i)
    requires s'.lock == s.lock || s.lock.None? || s.lock == Some(i)
    requires s'.lock == s.lock || s'.lock.None? || s'.lock == Some(i)
    ensures Locked(s')
  {
  }

  lemma LockedNext(s: State, a: Action, s': State)
    requires Locked(s) && Next(s, a, s')
    ensures Locked(s')
  {
    if ByRequest(a) {
      OneMoves(s, a, s');
      LockMoves(s, a, s');
      StepOf(s, s', a.i);
    }
  }

  lemma {:induction false} RunLocked(states: seq<State>, actions: seq<Action>, k: nat)
    requires IsRun(states, actions) && k <= |actions|
    ensures Locked(states[k])
  {
    if k > 0 {
      RunLocked(states, actions, k - 1);
      LockedNext(states[k - 1], actions[k - 1], states[k]);
    }
  }

  /** At most one request of a session is ever inside Refresh, whatever else happens. */
  lemma SingleFlight(states: seq<State>, actions: seq<Action>, k: nat, i: nat, j: nat)
    requires IsRun(states, actions) && k <= |actions|
    requires i < |states[k].pcs| && j < |states[k].pcs| && states[k].pcs[i].Calling? && states[k].pcs[j].Calling?
    ensures i == j
  {
    RunLocked(states, actions, k);
    assert Inside(states[k].pcs[i]) && Inside(states[k].pcs[j]);
  }

  // ---------------------------------------------------------------- the token presented

  /** A request on its way back with a new token. */
  predicate Brings(pc: Pc) {
    pc.Answered? && pc.answer.Success? && pc.answer.newToken.Some?
  }

  ghost predicate NobodyBrings(s: State) {
    forall i | 0 <= i < |s.pcs| :: !Brings(s.pcs[i])
  }

  /** As long as the session is there: until an answer has been lost, the token in use, or the one an answer brings, is the
      provider's current one; from then on the session's token is stale. */
  ghost predicate TokenTracked(s: State) {
    && s.current < s.nextToken
    && (s.token.Some? ==> s.token.value < s.nextToken)
    && (forall i | 0 <= i < |s.pcs| && s.pcs[i].Calling? :: s.pcs[i].token == s.token)
    && (!s.lost ==>
          && (forall i | 0 <= i < |s.pcs| && Brings(s.pcs[i]) :: s.pcs[i].answer.newToken.value == s.current)
          && (NobodyBrings(s) ==> s.token == Some(s.current)))
    && (s.lost ==>
          && s.token.Some? && s.token.value != s.current
          && forall i | 0 <= i < |s.pcs| && s.pcs[i].Answered? :: s.pcs[i].answer.Failure?)
  }

  lemma OnlyOneInside(s: State, i: nat)
    requires Locked(s) && i < |s.pcs| && Inside(s.pcs[i])
    ensures forall j | 0 <= j < |s.pcs| && Inside(s.pcs[j]) :: j == i
  {
  }

  predicate Busy(pc: Pc) {
    pc.Calling? || pc.Answered?
  }

  /** Nothing to do with the provider. */
  predicate Quiet(a: Action) {
    a.Tick? || a.Lookup? || a.Enter? || a.Acquire? || a.Recheck? || a.Release?
  }

  lemma QuietStep(s: State, a: Action, s': State)
    requires Next(s, a, s') && Quiet(a)
    ensures |s'.pcs| == |s.pcs| && s'.token == s.token && s'.current == s.current && s'.nextToken == s.nextToken && s'.lost == s.lost
    ensures forall j | 0 <= j < |s.pcs| :: s'.pcs[j] == s.pcs[j] || (!Busy(s.pcs[j]) && !Busy(s'.pcs[j]))
  {
    if ByRequest(a) { OneMoves(s, a, s'); }
  }

  lemma TokenTrackedQuiet(s: State, s': State)
    requires TokenTracked(s) && |s'.pcs| == |s.pcs|
    requires s'.token == s.token && s'.current == s.current && s'.nextToken == s.nextToken && s'.lost == s.lost
    requires forall j | 0 <= j < |s.pcs| :: s'.pcs[j] == s.pcs[j] || (!Busy(s.pcs[j]) && !Busy(s'.pcs[j]))
    ensures TokenTracked(s')
  {
    if NobodyBrings(s') {
      forall j | 0 <= j < |s.pcs| ensures !Brings(s.pcs[j]) {
        assert !Brings(s'.pcs[j]);
      }
    }
  }

  /** With nobody else busy, it is enough to look at the request that moves. */
  lemma TokenTrackedMove(s: State, s': State, i: nat)
    requires Locked(s) && i < |s.pcs| && Inside(s.pcs[i]) && |s'.pcs| == |s.pcs| && s'.pcs == s.pcs[i := s'.pcs[i]]
    requires s'.current < s'.nextToken && (s'.token.Some? ==> s'.token.value < s'.nextToken)
    requires s'.pcs[i].Calling? ==> s'.pcs[i].token == s'.token
    requires !s'.lost ==> if Brings(s'.pcs[i]) then s'.pcs[i].answer.newToken.value == s'.current else s'.token == Some(s'.current)
    requires s'.lost ==> s'.token.Some? && s'.token.value != s'.current && (s'.pcs[i].Answered? ==> s'.pcs[i].answer.Failure?)
    ensures TokenTracked(s')
  {
    OnlyOneInside(s, i);
    assert forall j | 0 <= j < |s.pcs| && j != i :: s'.pcs[j] == s.pcs[j] && !Busy(s.pcs[j]);
  }

  lemma NobodyBringsBut(s: State, i: nat)
    requires Locked(s) && TokenTracked(s) && i < |s.pcs| && Inside(s.pcs[i])
    ensures !s.lost && !Brings(s.pcs[i]) ==> s.token == Some(s.current)
  {
    OnlyOneInside(s, i);
    assert !Brings(s.pcs[i]) ==> NobodyBrings(s);
  }

  lemma TokenTrackedNext(s: State, a: Action, s': State)
    requires Locked(s) && TokenTracked(s) && Next(s, a, s') && !s'.deleted
    ensures TokenTracked(s')
  {
    if Quiet(a) {
      QuietStep(s, a, s');
      TokenTrackedQuiet(s, s');
    } else if a.Renewed? {
      TokenTrackedRenewed(s, a, s');
    } else if a.Apply? {
      TokenTrackedApply(s, a, s');
    } else {
      TokenTrackedOther(s, a, s');
    }
  }

  lemma TokenTrackedRenewed(s: State, a: Action, s': State)
    requires Locked(s) && TokenTracked(s) && Next(s, a, s') && a.Renewed?
    ensures TokenTracked(s')
  {
    NobodyBringsBut(s, a.i);
    TokenTrackedMove(s, s', a.i);
  }

  lemma TokenTrackedApply(s: State, a: Action, s': State)
    requires Locked(s) && TokenTracked(s) && Next(s, a, s') && a.Apply?
    ensures TokenTracked(s')
  {
    NobodyBringsBut(s, a.i);
    TokenTrackedMove(s, s', a.i);
  }

  lemma TokenTrackedOther(s: State, a: Action, s': State)
    requires Locked(s) && TokenTracked(s) && Next(s, a, s') && (a.Copy? || a.Failed? || a.Lost?)
    ensures TokenTracked(s')
  {
    NobodyBringsBut(s, a.i);
    TokenTrackedMove(s, s', a.i);
  }

  lemma {:induction false} RunTokenTracked(states: seq<State>, actions: seq<Action>, k: nat)
    requires IsRun(states, actions) && k <= |actions| && !states[k].deleted
    ensures TokenTracked(states[k])
  {
    if k > 0 {
      assert Next(states[k - 1], actions[k - 1], states[k]);
      RunTokenTracked(states, actions, k - 1);
      RunLocked(states, actions, k - 1);
      TokenTrackedNext(states[k - 1], actions[k - 1], states[k]);
    }
  }

  /** With a session that has not been deleted, every Refresh presents the provider's current refresh token exactly as long
      as no answer that retired a token has been lost. */
  lemma PresentsCurrentTokenUnlessLost(states: seq<State>, actions: seq<Action>, k: nat, i: nat)
    requires IsRun(states, actions) && k <= |actions| && !states[k].deleted
    requires i < |states[k].pcs| && states[k].pcs[i].Calling?
    ensures states[k].pcs[i].token == Some(states[k].current) <==> !states[k].lost
  {
    RunTokenTracked(states, actions, k);
    RunLocked(states, actions, k);
    assert Inside(states[k].pcs[i]);
    assert forall j | 0 <= j < |states[k].pcs| && Inside(states[k].pcs[j]) :: j == i;
  }

  /** And a lost answer is final: from then on no call of this session succeeds. */
  lemma LostAnswerIsFinal(states: seq<State>, actions: seq<Action>, k: nat)
    requires IsRun(states, actions) && k < |actions| && states[k].lost && !states[k].deleted
    ensures !actions[k].Renewed?
  {
    RunTokenTracked(states, actions, k);
    assert Next(states[k], actions[k], states[k + 1]);
  }

  // ---------------------------------------------------------------- how often the provider is called

  predicate PastTheCheck(pc: Pc) {
    pc.Checked? || Busy(pc)
  }

  ghost predicate NobodyPastTheCheck(s: State) {
    forall i | 0 <= i < |s.pcs| :: !PastTheCheck(s.pcs[i])
  }

  /** While nobody is past the check, a step makes no call and leaves the credential; and it takes somebody past the check
      only inside the window. */
  lemma NoCallStep(s: State, a: Action, s': State)
    requires Next(s, a, s') && NobodyPastTheCheck(s) && s.expiresAt.Some? && s'.clock + WINDOW < s.expiresAt.value
    ensures s'.calls == s.calls && s'.expiresAt == s.expiresAt && s.clock <= s'.clock && NobodyPastTheCheck(s')
  {
    if ByRequest(a) {
      OneMoves(s, a, s');
      NotPastTheCheck(s, a, s');
    }
  }

  lemma NotPastTheCheck(s: State, a: Action, s': State)
    requires Next(s, a, s') && ByRequest(a) && a.i < |s.pcs| == |s'.pcs| && !PastTheCheck(s.pcs[a.i])
    requires s.expiresAt.Some? && s'.clock + WINDOW < s.expiresAt.value
    ensures s'.calls == s.calls && s'.expiresAt == s.expiresAt && s.clock == s'.clock && !PastTheCheck(s'.pcs[a.i])
  {
  }

  /** One refresh serves everybody: from a state with the credential outside its window and nobody past the check, no
      further call is made until the clock reaches the window, however many requests come and go. */
  lemma {:induction false} NoCallBeforeTheWindow(states: seq<State>, actions: seq<Action>, k: nat, l: nat)
    requires IsRun(states, actions) && k <= l <= |actions|
    requires NobodyPastTheCheck(states[k]) && states[k].expiresAt.Some?
    requires states[l].clock + 60 < states[k].expiresAt.value
    ensures states[l].calls == states[k].calls && states[l].expiresAt == states[k].expiresAt
    ensures NobodyPastTheCheck(states[l])
    decreases l
  {
    if k < l {
      assert Next(states[l - 1], actions[l - 1], states[l]);
      assert states[l - 1].clock <= states[l].clock;
      NoCallBeforeTheWindow(states, actions, k, l - 1);
      NoCallStep(states[l - 1], actions[l - 1], states[l]);
    }
  }

  /** A request that holds refreshMutex goes on to call Refresh exactly if the credential then runs out within 60 seconds. */
  lemma RecheckDecides(states: seq<State>, actions: seq<Action>, k: nat)
    requires IsPath(states, actions) && k < |actions| && actions[k].Recheck?
    ensures actions[k].i < |states[k].pcs| == |states[k + 1].pcs|
    ensures states[k + 1].pcs[actions[k].i].Checked? <==>
              states[k].expiresAt.Some? && states[k].expiresAt.value - states[k].clock <= 60
  {
    assert Next(states[k], actions[k], states[k + 1]);
  }

  /** So a renewal serves everybody who was waiting for it: once it is applied, no further call is made until the clock comes
      within 60 seconds of the new expiry. */
  lemma RenewalServesTheWaiting(states: seq<State>, actions: seq<Action>, k: nat, l: nat, i: nat, expiresAt: int, newToken: Option<Token>)
    requires IsRun(states, actions) && k < l <= |actions| && actions[k] == Apply(i)
    requires i < |states[k].pcs| && states[k].pcs[i] == Answered(Success(expiresAt, newToken))
    requires states[l].clock + 60 < expiresAt
    ensures states[l].calls == states[k].calls && states[l].expiresAt == Some(expiresAt)
  {
    assert Next(states[k], actions[k], states[k + 1]);
    RunLocked(states, actions, k);
    OnlyOneInside(states[k], i);
    NoCallBeforeTheWindow(states, actions, k + 1, l);
  }

  // ---------------------------------------------------------------- a logout during a refresh

  /** A session deleted while nobody was in flight has no refresh token to present, so nothing can renew it. */
  ghost predicate EmptyUnlessInFlight(s: State) {
    s.deleted && !s.inFlightAtDelete ==>
      s.token.None? && !s.material && forall i | 0 <= i < |s.pcs| && InFlight(s.pcs[i]) :: s.pcs[i] == Calling(None)
  }

  lemma EmptyUnlessInFlightNext(s: State, a: Action, s': State)
    requires EmptyUnlessInFlight(s) && Next(s, a, s')
    ensures EmptyUnlessInFlight(s')
  {
    if a.Apply? {
      assert s.pcs[a.i].answer.Success? ==> InFlight(s.pcs[a.i]);
    }
  }

  lemma {:induction false} RunEmptyUnlessInFlight(states: seq<State>, actions: seq<Action>, k: nat)
    requires IsRun(states, actions) && k <= |actions|
    ensures EmptyUnlessInFlight(states[k])
  {
    if k > 0 {
      RunEmptyUnlessInFlight(states, actions, k - 1);
      EmptyUnlessInFlightNext(states[k - 1], actions[k - 1], states[k]);
    }
  }

  /** A deleted session stays empty if nobody was in flight at the Delete. */
  lemma DeletedSessionStaysEmpty(states: seq<State>, actions: seq<Action>, k: nat)
    requires IsRun(states, actions) && k <= |actions| && states[k].deleted && !states[k].inFlightAtDelete
    ensures !states[k].material && states[k].token.None?
  {
    RunEmptyUnlessInFlight(states, actions, k);
  }

  /** Some refresh that was under way at the Delete has been applied to the deleted session. */
  ghost predicate AppliedAfterDelete(states: seq<State>, actions: seq<Action>, k: nat)
    requires IsRun(states, actions) && k <= |actions|
  {
    exists l | 0 <= l < k :: AppliesToDeleted(states, actions, l)
  }

  ghost predicate AppliesToDeleted(states: seq<State>, actions: seq<Action>, l: nat)
    requires IsRun(states, actions) && l < |actions|
  {
    assert Next(states[l], actions[l], states[l + 1]);
    states[l].deleted && actions[l].Apply? && states[l].pcs[actions[l].i].answer.Success?
  }

  /** Exactly when a deleted session is not empty: when a refresh that was in flight across the Delete came back with
      a credential, which is then put into the session nobody can find any more. */
  lemma {:induction false} DeletedSessionRefilledExactlyWhen(states: seq<State>, actions: seq<Action>, k: nat)
    requires IsRun(states, actions) && k <= |actions| && states[k].deleted
    ensures states[k].material <==> AppliedAfterDelete(states, actions, k)
    ensures states[k].material ==> states[k].inFlightAtDelete
  {
    assert Init(states[0]);
    assert Next(states[k - 1], actions[k - 1], states[k]);
    if states[k - 1].deleted {
      DeletedSessionRefilledExactlyWhen(states, actions, k - 1);
      assert AppliedAfterDelete(states, actions, k) <==>
             AppliedAfterDelete(states, actions, k - 1) || AppliesToDeleted(states, actions, k - 1);
    } else {
      NeverDeletedBefore(states, actions, k - 1);
    }
    RunEmptyUnlessInFlight(states, actions, k);
  }

  lemma {:induction false} NeverDeletedBefore(states: seq<State>, actions: seq<Action>, k: nat)
    requires IsRun(states, actions) && k <= |actions| && !states[k].deleted
    ensures forall l | 0 <= l <= k :: !states[l].deleted
  {
    if k > 0 {
      assert Next(states[k - 1], actions[k - 1], states[k]);
      NeverDeletedBefore(states, actions, k - 1);
    }
  }

  /** A deleted session that nothing can refill: it is empty, and nobody holds a token or an answer that is any good. */
  ghost predicate Barren(s: State) {
    && s.deleted && !s.material && s.token.None?
    && (forall i | 0 <= i < |s.pcs| :: s.pcs[i] != Calling(Some(s.current)) && !SucceededWith(s.pcs[i]))
  }

  predicate SucceededWith(pc: Pc) {
    pc.Answered? && pc.answer.Success?
  }

  lemma BarrenNext(s: State, a: Action, s': State)
    requires Barren(s) && Next(s, a, s')
    ensures Barren(s')
  {
    if ByRequest(a) {
      OneMoves(s, a, s');
      BarrenMove(s, a, s');
    }
  }

  lemma BarrenMove(s: State, a: Action, s': State)
    requires Barren(s) && Next(s, a, s') && ByRequest(a) && a.i < |s.pcs| == |s'.pcs|
    ensures s'.deleted && !s'.material && s'.token.None? && s'.current == s.current
    ensures s'.pcs[a.i] != Calling(Some(s.current)) && !SucceededWith(s'.pcs[a.i])
  {
  }

  lemma {:induction false} BarrenForEver(states: seq<State>, actions: seq<Action>, k: nat)
    requires IsPath(states, actions) && k <= |actions| && Barren(states[0])
    ensures Barren(states[k])
  {
    if k > 0 {
      BarrenForEver(states, actions, k - 1);
      BarrenNext(states[k - 1], actions[k - 1], states[k]);
    }
  }

  ghost predicate Leads(s: State, t: State) {
    exists states: seq<State>, actions: seq<Action> :: IsPath(states, actions) && states[0] == s && states[|actions|] == t
  }

  /** At the Delete: if nobody is in flight, or the answer that would be good has been lost, the session is barren. */
  lemma BarrenUnlessInFlight(s: State)
    requires Locked(s) && TokenTracked(s) && !(AnyInFlight(s) && !s.lost)
    ensures Barren(Deleted(s))
  {
    forall i | 0 <= i < |s.pcs| ensures s.pcs[i] != Calling(Some(s.current)) && !SucceededWith(s.pcs[i]) {
      assert InFlight(s.pcs[i]) ==> AnyInFlight(s);
    }
  }

  /** Otherwise the provider can still renew, and the answer be applied. */
  lemma RefillAfterDelete(s: State, i: nat) returns (t: State)
    requires Locked(s) && TokenTracked(s) && !s.lost && i < |s.pcs| && InFlight(s.pcs[i])
    ensures Leads(Deleted(s), t) && t.material
  {
    var d := Deleted(s);
    var renewed := if s.pcs[i].Calling? then Move(d, i, Answered(Success(0, None))) else d;
    t := Applied(Move(renewed, i, Releasing), renewed.pcs[i].answer);
    assert Next(renewed, Apply(i), t);
    if s.pcs[i].Calling? {
      NobodyBringsBut(s, i);
      assert Next(d, Renewed(i, 0, false), renewed);
      assert IsPath([d, renewed, t], [Renewed(i, 0, false), Apply(i)]);
    } else {
      assert IsPath([d, t], [Apply(i)]);
    }
  }

  /** Whether a logout is complete can be told at the logout: a session deleted in a reachable state can come to hold a
      credential again if and only if a request is in flight at that moment and no answer has been lost. */
  lemma RefillPossibleExactlyWhen(s: State)
    requires Reachable(s) && !s.deleted
    ensures (exists t :: Leads(Deleted(s), t) && t.material) <==> AnyInFlight(s) && !s.lost
  {
    var states: seq<State>, actions: seq<Action> :| IsRun(states, actions) && states[|actions|] == s;
    RunLocked(states, actions, |actions|);
    RunTokenTracked(states, actions, |actions|);
    if AnyInFlight(s) && !s.lost {
      var i :| 0 <= i < |s.pcs| && InFlight(s.pcs[i]);
      var t := RefillAfterDelete(s, i);
    } else {
      BarrenUnlessInFlight(s);
      forall t | Leads(Deleted(s), t) ensures !t.material {
        var after: seq<State>, steps: seq<Action> :| IsPath(after, steps) && after[0] == Deleted(s) && after[|steps|] == t;
        BarrenForEver(after, steps, |steps|);
      }
    }
  }

  // ---------------------------------------------------------------- both exceptions happen

  function OneRequest(): State {
    State([Idle], None, 0, Some(10), Some(0), true, false, false, 0, 1, false, 0)
  }

  /** Request 0 goes from nowhere into Refresh, while the credential is inside its window. */
  lemma IntoRefresh(s: State)
    requires Reachable(s) && |s.pcs| == 1 && s.pcs[0].Idle? && s.lock.None? && !s.deleted && NeedsRefresh(s, s.clock)
    ensures Reachable(Move(s, 0, Calling(s.token)).(lock := Some(0), calls := s.calls + 1))
  {
    var s1 := Move(s, 0, Found(s.clock));
    var s2 := Move(s1, 0, Waiting);
    var s3 := Move(s2, 0, Holding).(lock := Some(0));
    var s4 := Move(s3, 0, Checked);
    ReachableNext(s, Lookup(0), s1);
    ReachableNext(s1, Enter(0), s2);
    ReachableNext(s2, Acquire(0), s3);
    ReachableNext(s3, Recheck(0), s4);
    ReachableNext(s4, Copy(0), Move(s4, 0, Calling(s.token)).(calls := s.calls + 1));
  }

  lemma OneRequestReachable()
    ensures Reachable(OneRequest())
  {
    var states: seq<State>, actions: seq<Action> := [OneRequest()], [];
    assert IsRun(states, actions);
  }

  /** A deleted session can end up holding a credential and a refresh token that the provider accepts. */
  lemma LogoutDuringRefreshRefills()
    ensures exists s :: Reachable(s) && s.deleted && s.material && s.token == Some(s.current)
  {
    var s := OneRequest();
    OneRequestReachable();
    IntoRefresh(s);
    var s1 := Move(s, 0, Calling(s.token)).(lock := Some(0), calls := 1);
    assert InFlight(s1.pcs[0]);
    var s2 := s1.(deleted := true, token := None, material := false, inFlightAtDelete := true);
    var s3 := Move(s2, 0, Answered(Success(1000, Some(1)))).(current := 1, nextToken := 2);
    var s4 := Applied(Move(s3, 0, Releasing), s3.pcs[0].answer);
    ReachableNext(s1, Delete, s2);
    ReachableNext(s2, Renewed(0, 1000, true), s3);
    ReachableNext(s3, Apply(0), s4);
  }

  /** After the provider has rotated and its answer is lost, the next call can present a stale token. */
  lemma LostAnswerLeavesStaleToken()
    ensures exists s :: Reachable(s) && !s.deleted && |s.pcs| == 1 && s.pcs[0].Calling? && s.pcs[0].token != Some(s.current)
  {
    var s := OneRequest();
    OneRequestReachable();
    IntoRefresh(s);
    var s1 := Move(s, 0, Calling(s.token)).(lock := Some(0), calls := 1);
    var s2 := Move(s1, 0, Answered(Failure)).(current := 1, nextToken := 2, lost := true);
    var s3 := Move(s2, 0, Releasing);
    var s4 := Move(s3, 0, Idle).(lock := None);
    ReachableNext(s1, Lost(0), s2);
    ReachableNext(s2, Apply(0), s3);
    ReachableNext(s3, Release(0), s4);
    IntoRefresh(s4);
  }
}
