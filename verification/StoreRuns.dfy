/** Theorems about every run of the session store: how long a session lives, what ends it, and what a failing
    identity provider costs it (pkg/auth/session/store.go, pkg/auth/session/context.go). */
module StoreRuns {
  import opened Wrappers
  import opened StoreModel

  // ---------------------------------------------------------------- reading a run's history

  predicate Creates(e: Event, id: SessionId) {
    e.Created? && e.id == id
  }

  predicate Renews(e: Event, id: SessionId) {
    e.Got? && e.id == id && e.result.Live?
  }

  /** When the session was created, as the log tells it. */
  function CreationTime(log: seq<Event>, id: SessionId): Option<int> {
    if log == [] then None
    else
      var e := log[|log| - 1];
      if Creates(e, id) then Some(e.now) else CreationTime(log[..|log| - 1], id)
  }

  /** When the session was last created or successfully looked up, as the log tells it. */
  function LastContact(log: seq<Event>, id: SessionId): Option<int> {
    if log == [] then None
    else
      var e := log[|log| - 1];
      if Creates(e, id) then Some(e.now)
      else if Renews(e, id) then Some(e.at.stamp)
      else LastContact(log[..|log| - 1], id)
  }

  /** A stored session records exactly what the log says about it, and its expiry is never stale. */
  lemma {:induction false} RecordsMatchLog(o: Options, states: seq<State>, log: seq<Event>, i: nat, id: SessionId)
    requires IsRun(o, states, log) && i <= |log| && id in states[i].sessions
    ensures var s := states[i].sessions[id];
            && CreationTime(log[..i], id) == Some(s.createdAt)
            && LastContact(log[..i], id) == Some(s.lastSeen)
            && s.expiresAt == EffectiveExpiry(s.createdAt, o.maxLifetime, s.credential.expiresAt)
  {
    assert i > 0;
    var e := log[i - 1];
    assert log[..i][..i - 1] == log[..i - 1];
    assert Step(o, states[i - 1], e, states[i]);
    if !Creates(e, id) {
      RecordsMatchLog(o, states, log, i - 1, id);
    }
  }

  // ---------------------------------------------------------------- lifetime

  /** Every successful Get starts within MaxLifetime of the session's creation and within IdleTimeout of the last
      successful contact, and hands out a credential that had not expired when it was checked; when its clock
      readings agree, that is no later than the expiry the session then reports. */
  lemma SuccessfulGetIsInTime(o: Options, states: seq<State>, log: seq<Event>, i: nat)
    requires IsRun(o, states, log) && i < |log| && log[i].Got? && log[i].result.Live?
    ensures var id, at := log[i].id, log[i].at;
            && CreationTime(log[..i], id).Some? && LastContact(log[..i], id).Some?
            && at.start <= CreationTime(log[..i], id).value + o.maxLifetime
            && at.start <= LastContact(log[..i], id).value + o.idleTimeout
            && id in states[i + 1].sessions
            && var s := states[i + 1].sessions[id];
               && s.lastSeen == at.stamp
               && (s.credential.expiresAt.None? || at.check <= s.credential.expiresAt.value)
               && (at.start == at.check ==> at.check <= s.expiresAt)
  {
    var id := log[i].id;
    assert Step(o, states[i], log[i], states[i + 1]);
    RecordsMatchLog(o, states, log, i, id);
    RecordsMatchLog(o, states, log, i + 1, id);
    assert log[..i + 1][..i] == log[..i];
  }

  lemma DeathIsPermanent(o: Options, s: Snapshot, t: int, t': int)
    requires t <= t' && !Alive(o, s, t)
    ensures !Alive(o, s, t')
  {
  }

  ghost predicate Gone(o: Options, s: State, id: SessionId, t: int) {
    id in s.used && (id in s.sessions ==> !Alive(o, s.sessions[id], t))
  }

  lemma StepKeepsGone(o: Options, s: State, e: Event, s': State, id: SessionId, t: int, hi: int)
    requires Step(o, s, e, s') && Gone(o, s, id, t) && ReadBetween(e, t, hi)
    ensures Gone(o, s', id, t)
    ensures e.Got? && e.id == id ==> !e.result.Live?
  {
    if e.Got? && e.id == id && id in s.sessions {
      DeathIsPermanent(o, s.sessions[id], t, e.at.start);
    }
  }

  lemma {:induction false} RunKeepsGone(o: Options, states: seq<State>, log: seq<Event>, ticks: seq<int>, id: SessionId, i: nat, j: nat)
    requires IsRun(o, states, log) && ClockedBy(log, ticks)
    requires i <= j <= |log| && Gone(o, states[i], id, ticks[i])
    ensures Gone(o, states[j], id, ticks[i])
    decreases j
  {
    if i < j {
      RunKeepsGone(o, states, log, ticks, id, i, j - 1);
      assert ReadBetween(log[j - 1], ticks[j - 1], ticks[j]);
      assert ticks[i] <= ticks[j - 1];
      StepKeepsGone(o, states[j - 1], log[j - 1], states[j], id, ticks[i], ticks[j]);
    }
  }

  /** Dead sessions never come back: once an ID has been issued and its session is gone, or is no longer alive,
      every later Get of that ID fails, whatever happens in between. */
  lemma DeadStaysDead(o: Options, states: seq<State>, log: seq<Event>, ticks: seq<int>, id: SessionId, i: nat, j: nat)
    requires IsRun(o, states, log) && ClockedBy(log, ticks)
    requires i <= j < |log| && Gone(o, states[i], id, ticks[i])
    requires log[j].Got? && log[j].id == id
    ensures log[j].result != Live && id !in states[j + 1].sessions
  {
    RunKeepsGone(o, states, log, ticks, id, i, j);
    assert ReadBetween(log[j], ticks[j], ticks[j + 1]);
    assert ticks[i] <= ticks[j];
    StepKeepsGone(o, states[j], log[j], states[j + 1], id, ticks[i], ticks[j + 1]);
  }

  // ---------------------------------------------------------------- what ends a session

  /** Everything that removes a session: a login that displaces or reclaims it, a Get that finds it dead or expired, a
      Delete, and a sweep that finds it dead. */
  ghost predicate Ended(o: Options, s: Snapshot, e: Event, id: SessionId) {
    match e
    case Created(_, _, _, displaced, reclaimed) => id in displaced + reclaimed
    case Refused(_, _, _) => false
    case Got(id', at, outcome, _) =>
      id' == id && (!Alive(o, s, at.start) || CredentialExpired(AfterRefresh(o, s, at, outcome), at.check))
    case Deleted(id') => id' == id
    case Swept(now) => !Alive(o, s, now)
  }

  /** A session leaves the store exactly when one of those happens to it; and what stays is untouched unless the
      event is a Get of that very session. */
  lemma SessionEndsExactlyWhen(o: Options, s: State, e: Event, s': State, id: SessionId)
    requires Step(o, s, e, s') && id in s.sessions && s.sessions.Keys <= s.used
    ensures id !in s'.sessions <==> Ended(o, s.sessions[id], e, id)
    ensures id in s'.sessions && !(e.Got? && e.id == id) ==> s'.sessions[id] == s.sessions[id]
  {
  }

  /** Whom a login displaces or reclaims: its own user's sessions, and otherwise dead ones. */
  lemma LoginEnds(o: Options, s: State, e: Event, s': State, id: SessionId)
    requires Step(o, s, e, s') && e.Created? && id in s.sessions && id !in s'.sessions
    ensures id in e.displaced + e.reclaimed
    ensures id in e.displaced ==> s.sessions[id].capKey == PerUserCapKey(e.spec) != ""
    ensures id in e.reclaimed ==> !Alive(o, s.sessions[id], e.now) && e.reclaimed == {id}
  {
  }

  /** A login at the limit reclaims nobody. */
  lemma DisplacesOnly(o: Options, s: State, e: Event, s': State)
    requires o.Sound() && WithinCapacity(o, s.sessions) && s.sessions.Keys <= s.used
    requires Step(o, s, e, s') && e.Created? && AtUserLimit(o, s.sessions, PerUserCapKey(e.spec))
    ensures e.reclaimed == {}
    ensures forall id | id in s.sessions :: id !in s'.sessions <==> id in e.displaced
  {
    var m, left := s.sessions, s.sessions - e.displaced;
    assert left.Keys == m.Keys - e.displaced && |left| == |left.Keys| && |m| == |m.Keys|;
    assert |m.Keys - e.displaced| == |m.Keys| - |e.displaced|;
    assert e.reclaimed == {};
    forall id | id in m
      ensures id !in s'.sessions <==> id in e.displaced
    {
      SessionEndsExactlyWhen(o, s, e, s', id);
    }
  }

  /** At the limit a user pays for a login alone, in every reachable store: the sessions that go are exactly n - cap + 1 of
      the user's own, each of them seen no later than any that stays, and created no later where that is a tie; and none is
      reclaimed, even from a full store. */
  lemma LoginAtTheLimit(o: Options, states: seq<State>, log: seq<Event>, i: nat)
    requires o.Sound() && IsRun(o, states, log) && i < |log| && log[i].Created?
    requires !log[i].spec.mode.Admin? && log[i].spec.username != ""
    requires |SessionsOfUser(states[i].sessions, log[i].spec.username)| >= o.maxSessionsPerUser
    ensures var s, s', e, own := states[i].sessions, states[i + 1].sessions, log[i],
                                 SessionsOfUser(states[i].sessions, log[i].spec.username);
            && (forall id | id in s :: id !in s' <==> id in e.displaced)
            && e.displaced <= own && |e.displaced| == |own| - o.maxSessionsPerUser + 1 && e.reclaimed == {}
            && forall d, k | d in e.displaced && k in own - e.displaced ::
                 s[d].lastSeen < s[k].lastSeen || (s[d].lastSeen == s[k].lastSeen && s[d].createdAt <= s[k].createdAt)
  {
    var s, s', e := states[i], states[i + 1], log[i];
    assert Step(o, s, e, s');
    RunWithinCapacity(o, states, log, i);
    RunCappedByUser(o, states, log, i);
    AtUserLimitMeans(o, s.sessions, e.spec);
    OwnedByUser(s.sessions, e.spec.username);
    DisplacesOnly(o, s, e, s');
  }

  /** Below the limit a login costs nobody, unless the store is full: then one session goes that has outlived its cap, been
      idle too long, or holds an expired credential nobody can renew. */
  lemma LoginBelowTheLimit(o: Options, states: seq<State>, log: seq<Event>, i: nat)
    requires IsRun(o, states, log) && i < |log| && log[i].Created?
    requires log[i].spec.mode.Admin? || log[i].spec.username == ""
             || |SessionsOfUser(states[i].sessions, log[i].spec.username)| < o.maxSessionsPerUser
    ensures var s, e := states[i].sessions, log[i];
            && e.displaced == {}
            && (|s| < o.maxSessions ==> e.reclaimed == {})
            && (|s| >= o.maxSessions ==>
                  exists id :: id in s && e.reclaimed == {id}
                    && (e.now > s[id].createdAt + o.maxLifetime || e.now - s[id].lastSeen > o.idleTimeout
                        || (!s[id].refreshable && s[id].credential.expiresAt.Some? && e.now > s[id].credential.expiresAt.value)))
  {
    var s, e := states[i].sessions, log[i];
    assert Step(o, states[i], e, states[i + 1]);
    RunCappedByUser(o, states, log, i);
    AtUserLimitMeans(o, s, e.spec);
    assert s - {} == s;
  }

  /** What a login opens: a session that is as the spec says, seen at its creation, with the earlier of its cap and its
      credential's expiry to live. */
  lemma LoginOpens(o: Options, states: seq<State>, log: seq<Event>, i: nat)
    requires IsRun(o, states, log) && i < |log| && log[i].Created?
    ensures var s', e := states[i + 1].sessions, log[i];
            && e.id !in states[i].used && e.id in s'
            && var n := s'[e.id];
               && n.mode == e.spec.mode && n.username == e.spec.username && n.refreshable == e.spec.refreshable
               && n.credential == e.spec.credential && n.refreshToken == e.spec.refreshToken
               && n.createdAt == n.lastSeen == e.now
               && n.expiresAt == EffectiveExpiry(e.now, o.maxLifetime, e.spec.credential.expiresAt)
  {
    assert Step(o, states[i], log[i], states[i + 1]);
  }

  /** A login is refused exactly when the store is full, every session in it is in time, and the user has none to give up. */
  lemma LoginRefusedExactlyWhen(o: Options, states: seq<State>, log: seq<Event>, i: nat)
    requires IsRun(o, states, log) && i < |log| && (log[i].Created? || log[i].Refused?)
    ensures var s, spec, now := states[i].sessions, log[i].spec, log[i].now;
            log[i].Refused? <==>
              && |s| >= o.maxSessions
              && (spec.mode.Admin? || spec.username == "" || |SessionsOfUser(s, spec.username)| < o.maxSessionsPerUser)
              && forall id | id in s ::
                   && now <= s[id].createdAt + o.maxLifetime && now - s[id].lastSeen <= o.idleTimeout
                   && (s[id].refreshable || s[id].credential.expiresAt.None? || now <= s[id].credential.expiresAt.value)
    ensures log[i].Refused? ==> states[i + 1].sessions == states[i].sessions
  {
    var s, e := states[i].sessions, log[i];
    assert Step(o, states[i], e, states[i + 1]);
    RunCappedByUser(o, states, log, i);
    RefusalOnFields(o, s, e.spec, e.now);
    assert s - {} == s;
  }

  /** A sweep keeps exactly the sessions that are within their cap, have not been idle too long, and can be renewed or hold a
      credential that has not expired; and it leaves them as they are. */
  lemma SweepKeepsExactly(o: Options, states: seq<State>, log: seq<Event>, i: nat)
    requires IsRun(o, states, log) && i < |log| && log[i].Swept?
    ensures var s, s', now := states[i].sessions, states[i + 1].sessions, log[i].now;
            && (forall id :: id in s' <==>
                  && id in s
                  && now <= s[id].createdAt + o.maxLifetime && now - s[id].lastSeen <= o.idleTimeout
                  && (s[id].refreshable || s[id].credential.expiresAt.None? || now <= s[id].credential.expiresAt.value))
            && forall id | id in s' :: s'[id] == s[id]
  {
    assert Step(o, states[i], log[i], states[i + 1]);
  }

  /** A lookup renews a credential exactly if its session can be renewed and is in time, the credential runs out within 60
      seconds of both readings, and the provider renews it: then the session holds what the provider gave, and otherwise what
      it held. */
  lemma GetRenewsExactlyWhen(o: Options, states: seq<State>, log: seq<Event>, i: nat)
    requires IsRun(o, states, log) && i < |log| && log[i].Got? && log[i].result.Live?
    ensures log[i].id in states[i].sessions && log[i].id in states[i + 1].sessions
    ensures var s, s', at, outcome := states[i].sessions[log[i].id], states[i + 1].sessions[log[i].id], log[i].at, log[i].outcome;
            var renews := outcome.Renewed? && s.refreshable && s.credential.expiresAt.Some?
                          && at.start + 60 * SECOND >= s.credential.expiresAt.value
                          && at.recheck + 60 * SECOND >= s.credential.expiresAt.value;
            && s'.credential == (if renews then outcome.credential else s.credential)
            && s'.refreshToken == (if renews && outcome.refreshToken != null then outcome.refreshToken else s.refreshToken)
  {
    assert Step(o, states[i], log[i], states[i + 1]);
    GetOnFields(o, states[i].sessions, log[i].id, log[i].at, log[i].outcome);
  }

  /** One login's effect on the sessions of others, in every reachable store: at most one of them goes, only if it is dead,
      and none at all if the caller is at the limit; logins without a cap key (the admin password, an empty username) end no
      live session. */
  lemma LoginSparesOthers(o: Options, states: seq<State>, log: seq<Event>, i: nat)
    requires o.Sound() && IsRun(o, states, log) && i < |log| && log[i].Created?
    ensures var s, s', e := states[i].sessions, states[i + 1].sessions, log[i];
            var capKey := PerUserCapKey(e.spec);
            && (forall id | id in s && id !in s' && s[id].capKey != capKey :: !Alive(o, s[id], e.now) && !AtUserLimit(o, s, capKey))
            && (forall a, b | a in s && a !in s' && s[a].capKey != capKey && b in s && b !in s' && s[b].capKey != capKey :: a == b)
            && (capKey == "" ==> forall id | id in s && Alive(o, s[id], e.now) :: id in s')
  {
    RunWithinCapacity(o, states, log, i);
    var s, s', e := states[i], states[i + 1], log[i];
    assert Step(o, s, e, s');
    forall id | id in s.sessions && id !in s'.sessions
      ensures id in e.displaced + e.reclaimed
      ensures id in e.displaced ==> s.sessions[id].capKey == PerUserCapKey(e.spec) != ""
      ensures id in e.reclaimed ==> !Alive(o, s.sessions[id], e.now) && e.reclaimed == {id}
    {
      LoginEnds(o, s, e, s', id);
    }
    if AtUserLimit(o, s.sessions, PerUserCapKey(e.spec)) {
      DisplacesOnly(o, s, e, s');
    }
  }

  // ---------------------------------------------------------------- a failing identity provider

  /** At event k the provider fails to renew this session, nobody deletes it or logs it out by logging in elsewhere, and it
      has not been left idle, nor past its cap, nor past its credential's expiry. */
  ghost predicate FailsInTime(o: Options, log: seq<Event>, ticks: seq<int>, id: SessionId, s: Snapshot, k: nat)
    requires k < |log| && |ticks| == |log| + 1
  {
    && log[k] != Deleted(id)
    && !(log[k].Created? && id in log[k].displaced)
    && (log[k].Got? && log[k].id == id ==> log[k].outcome.Failed?)
    && ticks[k + 1] <= s.createdAt + o.maxLifetime
    && LastContact(log[..k], id).Some?
    && ticks[k + 1] <= LastContact(log[..k], id).value + o.idleTimeout
    && (s.credential.expiresAt.None? || ticks[k + 1] <= s.credential.expiresAt.value)
  }

  /** And so it is from event i to event j. */
  ghost predicate FailingButInTime(o: Options, log: seq<Event>, ticks: seq<int>, id: SessionId, s: Snapshot, i: nat, j: nat)
    requires i <= j <= |log| && |ticks| == |log| + 1
  {
    forall k | i <= k < j :: FailsInTime(o, log, ticks, id, s, k)
  }

  /** The session is there, with the credential and all other fields it had, except for when it was last seen. */
  ghost predicate Unharmed(states: seq<State>, id: SessionId, s: Snapshot, k: nat)
    requires k < |states|
  {
    id in states[k].sessions && states[k].sessions[id] == s.(lastSeen := states[k].sessions[id].lastSeen)
  }

  lemma FailingGet(o: Options, s: State, at: Reads, id: SessionId, result: GetResult, s': State)
    requires Step(o, s, Got(id, at, Failed, result), s') && id in s.sessions
    requires Alive(o, s.sessions[id], at.start)
    ensures result.Live? <==> !CredentialExpired(s.sessions[id], at.check)
    ensures result.Live? ==> s'.sessions == s.sessions[id := s.sessions[id].(lastSeen := at.stamp)]
    ensures !result.Live? ==> result.Expired? && s'.sessions == s.sessions - {id}
  {
  }

  lemma StepOfFailingRun(o: Options, states: seq<State>, log: seq<Event>, ticks: seq<int>, id: SessionId, s: Snapshot, k: nat)
    requires IsRun(o, states, log) && ClockedBy(log, ticks) && k < |log|
    requires states[k].sessions.Keys <= states[k].used && Unharmed(states, id, s, k)
    requires FailsInTime(o, log, ticks, id, s, k)
    ensures Unharmed(states, id, s, k + 1)
    ensures log[k].Got? && log[k].id == id ==> log[k].result.Live?
  {
    var cur := states[k].sessions[id];
    RecordsMatchLog(o, states, log, k, id);
    assert Alive(o, cur, ticks[k + 1]);
    assert ReadBetween(log[k], ticks[k], ticks[k + 1]);
    SessionEndsExactlyWhen(o, states[k], log[k], states[k + 1], id);
    if log[k].Got? && log[k].id == id {
      FailingGet(o, states[k], log[k].at, id, log[k].result, states[k + 1]);
    }
  }

  /** A failed refresh is a retry budget: while the provider keeps failing, the session and its credential survive
      unchanged and every Get succeeds, for as long as the credential itself is good. */
  lemma {:induction false} FailedRefreshIsARetryBudget(o: Options, states: seq<State>, log: seq<Event>, ticks: seq<int>, id: SessionId,
                                                       s: Snapshot, i: nat, j: nat)
    requires o.Sound() && IsRun(o, states, log) && ClockedBy(log, ticks)
    requires i <= j <= |log| && id in states[i].sessions && states[i].sessions[id] == s
    requires FailingButInTime(o, log, ticks, id, s, i, j)
    ensures forall k | i <= k <= j :: Unharmed(states, id, s, k)
    ensures forall k | i <= k < j && log[k].Got? && log[k].id == id :: log[k].result.Live?
    decreases j
  {
    if i < j {
      FailedRefreshIsARetryBudget(o, states, log, ticks, id, s, i, j - 1);
      RunWithinCapacity(o, states, log, j - 1);
      assert Unharmed(states, id, s, j - 1) && FailsInTime(o, log, ticks, id, s, j - 1);
      StepOfFailingRun(o, states, log, ticks, id, s, j - 1);
    }
  }

  /** And the budget ends with the credential: the first Get that finds it expired and cannot renew it removes the
      session, and no Get of that ID ever succeeds again. */
  lemma ExpiredCredentialEndsTheSession(o: Options, states: seq<State>, log: seq<Event>, ticks: seq<int>, id: SessionId, i: nat, j: nat)
    requires o.Sound() && IsRun(o, states, log) && ClockedBy(log, ticks) && i < j < |log|
    requires log[i].Got? && log[i].id == id && log[i].outcome.Failed?
    requires id in states[i].sessions && states[i].sessions[id].credential.expiresAt.Some?
    requires log[i].at.check > states[i].sessions[id].credential.expiresAt.value
    requires log[j].Got? && log[j].id == id
    ensures log[i].result == Expired && id !in states[i + 1].sessions
    ensures log[j].result != Live
  {
    assert Step(o, states[i], log[i], states[i + 1]);
    RunWithinCapacity(o, states, log, i);
    DeadStaysDead(o, states, log, ticks, id, i + 1, j);
  }
}
