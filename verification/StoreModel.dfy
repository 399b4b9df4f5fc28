/** The session store on values: what each call does to the table of sessions, and what that makes true of
    every run (pkg/auth/session/store.go). The class SessionStore.Store keeps a run of this model as ghost
    state, so each lemma about runs here is a statement about every store that can be reached. */
module StoreModel {
  import opened Wrappers
  import opened Credentials

  const SECOND := 1_000_000_000
  const MINUTE := 60 * SECOND
  const HOUR := 60 * MINUTE
  const DEFAULT_IDLE_TIMEOUT := 30 * MINUTE
  const DEFAULT_MAX_LIFETIME := 12 * HOUR
  const DEFAULT_MAX_SESSIONS := 1000
  const DEFAULT_MAX_SESSIONS_PER_USER := 10
  const REFRESH_WINDOW := 60 * SECOND

  datatype Options = Options(idleTimeout: int, maxLifetime: int, maxSessions: int, maxSessionsPerUser: int)
  {
    predicate Sound() {
      0 < idleTimeout && 0 < maxLifetime && 0 < maxSessionsPerUser <= maxSessions
    }
  }

  /** Options.setDefaults: whatever is asked for, the store runs with positive bounds and a per-user bound that
      fits in the global one; a bound that is positive is kept if it fits, any other is replaced. */
  function SetDefaults(o: Options): (r: Options)
    ensures r.Sound()
    ensures o.Sound() ==> r == o
    ensures if o.idleTimeout > 0 then r.idleTimeout == o.idleTimeout else r.idleTimeout == 30 * MINUTE
    ensures if o.maxLifetime > 0 then r.maxLifetime == o.maxLifetime else r.maxLifetime == 12 * HOUR
    ensures if o.maxSessions > 0 then r.maxSessions == o.maxSessions else r.maxSessions == 1000
    ensures r.maxSessionsPerUser < r.maxSessions ==>
              r.maxSessionsPerUser == if o.maxSessionsPerUser > 0 then o.maxSessionsPerUser else 10
    ensures r.maxSessionsPerUser == r.maxSessions ==>
              r.maxSessions <= if o.maxSessionsPerUser > 0 then o.maxSessionsPerUser else 10
  {
    var idle := if o.idleTimeout <= 0 then DEFAULT_IDLE_TIMEOUT else o.idleTimeout;
    var life := if o.maxLifetime <= 0 then DEFAULT_MAX_LIFETIME else o.maxLifetime;
    var total := if o.maxSessions <= 0 then DEFAULT_MAX_SESSIONS else o.maxSessions;
    var each := if o.maxSessionsPerUser <= 0 then DEFAULT_MAX_SESSIONS_PER_USER else o.maxSessionsPerUser;
    Options(idle, life, total, if each > total then total else each)
  }

  /** A session ID is 32 random bytes; all that matters here is that IDs can be told apart. */
  type SessionId = nat

  /** The fields of a session at one instant. */
  datatype Snapshot = Snapshot(
    mode: Mode,
    username: string,
    capKey: string,
    refreshable: bool,
    createdAt: int,
    lastSeen: int,
    expiresAt: int,
    credential: Credential,
    refreshToken: array?<byte>)

  type Table = map<SessionId, Snapshot>

  // ---------------------------------------------------------------- the pure helpers of the store

  /** The earlier of the absolute cap and the credential's own expiry. */
  function EffectiveExpiry(createdAt: int, maxLifetime: int, credExpiry: Option<int>): (e: int)
    ensures e <= createdAt + maxLifetime
    ensures credExpiry.Some? ==> e <= credExpiry.value
    ensures e == createdAt + maxLifetime || credExpiry == Some(e)
  {
    var absolute := createdAt + maxLifetime;
    if credExpiry.None? || credExpiry.value > absolute then absolute else credExpiry.value
  }

  function PerUserCapKey(spec: Spec): string {
    if spec.mode.Admin? then "" else spec.username
  }

  predicate CredentialExpired(s: Snapshot, now: int) {
    s.credential.expiresAt.Some? && now > s.credential.expiresAt.value
  }

  predicate Alive(o: Options, s: Snapshot, now: int) {
    && now <= s.createdAt + o.maxLifetime
    && !(!s.refreshable && CredentialExpired(s, now))
    && now - s.lastSeen <= o.idleTimeout
  }

  predicate NeedsRefresh(s: Snapshot, now: int) {
    && s.refreshable
    && s.credential.expiresAt.Some?
    && now + REFRESH_WINDOW >= s.credential.expiresAt.value
  }

  function Opened(o: Options, spec: Spec, now: int): Snapshot {
    Snapshot(spec.mode, spec.username, PerUserCapKey(spec), spec.refreshable, now, now,
             EffectiveExpiry(now, o.maxLifetime, spec.credential.expiresAt), spec.credential, spec.refreshToken)
  }

  /** What the identity provider answers. A rotating one hands out a new refresh token, another one none. */
  datatype RefreshOutcome = Failed | Renewed(credential: Credential, refreshToken: array?<byte>)
  {
    ghost function Material(): set<array<byte>> {
      if Failed? then {} else credential.Material() + Backing(refreshToken)
    }

    ghost predicate Separate() {
      Renewed? ==> credential.Material() !! Backing(refreshToken)
    }
  }

  function Renew(o: Options, s: Snapshot, outcome: RefreshOutcome): Snapshot
    requires outcome.Renewed?
  {
    s.(credential := outcome.credential,
       refreshToken := if outcome.refreshToken != null then outcome.refreshToken else s.refreshToken,
       expiresAt := EffectiveExpiry(s.createdAt, o.maxLifetime, outcome.credential.expiresAt))
  }

  /** The four clock readings of one Get: on entry, under the refresh lock, after the refresh, and for last-seen. */
  datatype Reads = Reads(start: int, recheck: int, check: int, stamp: int)

  datatype GetResult = Live | NotFound | Expired

  /** Whether a Get of this session calls the identity provider. */
  predicate Refreshes(s: Snapshot, r: Reads) {
    NeedsRefresh(s, r.start) && NeedsRefresh(s, r.recheck)
  }

  function AfterRefresh(o: Options, s: Snapshot, r: Reads, outcome: RefreshOutcome): Snapshot {
    if Refreshes(s, r) && outcome.Renewed? then Renew(o, s, outcome) else s
  }

  function GetTable(o: Options, m: Table, id: SessionId, r: Reads, outcome: RefreshOutcome): (Table, GetResult) {
    if id !in m then (m, NotFound)
    else if !Alive(o, m[id], r.start) then (m - {id}, Expired)
    else
      var s := AfterRefresh(o, m[id], r, outcome);
      if CredentialExpired(s, r.check) then (m - {id}, Expired)
      else (m[id := s.(lastSeen := r.stamp)], Live)
  }

  /** What a Get of a stored session comes to, told by the fields alone: the provider is asked exactly for a session that is
      in time and whose credential runs out within 60 seconds of both readings; the lookup succeeds exactly if the credential
      then held has not run out; and the session is left with what the provider gave, if it gave anything. */
  lemma GetOnFields(o: Options, m: Table, id: SessionId, r: Reads, outcome: RefreshOutcome)
    requires id in m
    ensures var s := m[id];
            var inTime := r.start <= s.createdAt + o.maxLifetime && r.start - s.lastSeen <= o.idleTimeout
                          && (s.refreshable || s.credential.expiresAt.None? || r.start <= s.credential.expiresAt.value);
            var asked := inTime && s.refreshable && s.credential.expiresAt.Some?
                         && r.start + 60 * SECOND >= s.credential.expiresAt.value
                         && r.recheck + 60 * SECOND >= s.credential.expiresAt.value;
            var s' := if !asked || outcome.Failed? then s
                      else s.(credential := outcome.credential,
                              refreshToken := if outcome.refreshToken == null then s.refreshToken else outcome.refreshToken,
                              expiresAt := EffectiveExpiry(s.createdAt, o.maxLifetime, outcome.credential.expiresAt));
            var live := inTime && (s'.credential.expiresAt.None? || r.check <= s'.credential.expiresAt.value);
            && (asked <==> Alive(o, s, r.start) && Refreshes(s, r))
            && GetTable(o, m, id, r, outcome) == if live then (m[id := s'.(lastSeen := r.stamp)], Live) else (m - {id}, Expired)
  {
  }

  lemma GetTableInSteps(o: Options, m: Table, id: SessionId, r: Reads, outcome: RefreshOutcome, refreshed: Table)
    requires id in m && Alive(o, m[id], r.start)
    requires refreshed == m[id := AfterRefresh(o, m[id], r, outcome)]
    ensures GetTable(o, m, id, r, outcome) ==
            if CredentialExpired(refreshed[id], r.check) then (refreshed - {id}, Expired)
            else (refreshed[id := refreshed[id].(lastSeen := r.stamp)], Live)
  {
    var s := refreshed[id].(lastSeen := r.stamp);
    assert refreshed - {id} == m - {id} && refreshed[id := s] == m[id := s];
  }

  function SweptTable(o: Options, m: Table, now: int): Table {
    map id | id in m && Alive(o, m[id], now) :: m[id]
  }

  ghost function OwnedBy(m: Table, capKey: string): set<SessionId> {
    set id | id in m && m[id].capKey == capKey
  }

  /** Least recently seen first, creation time breaking ties. */
  predicate Older(a: Snapshot, b: Snapshot) {
    a.lastSeen < b.lastSeen || (a.lastSeen == b.lastSeen && a.createdAt <= b.createdAt)
  }

  ghost predicate AtUserLimit(o: Options, m: Table, capKey: string) {
    capKey != "" && |OwnedBy(m, capKey)| >= o.maxSessionsPerUser
  }

  /** `displaced` are the sessions a login under `capKey` costs its own user: none below the limit, otherwise the
      n - cap + 1 oldest of them, up to exact ties. */
  ghost predicate DisplacesOldest(o: Options, m: Table, capKey: string, displaced: set<SessionId>) {
    && displaced <= OwnedBy(m, capKey)
    && (!AtUserLimit(o, m, capKey) ==> displaced == {})
    && (AtUserLimit(o, m, capKey) ==>
          && |displaced| == |OwnedBy(m, capKey)| - o.maxSessionsPerUser + 1
          && forall d, k | d in displaced && k in OwnedBy(m, capKey) - displaced :: Older(m[d], m[k]))
  }

  ghost predicate OneDead(o: Options, m: Table, now: int, dead: set<SessionId>) {
    exists id :: id in m && !Alive(o, m[id], now) && dead == {id}
  }

  /** `reclaimed` is what makes room in a full store: one session that is no longer alive. */
  ghost predicate ReclaimsOneDead(o: Options, m: Table, now: int, reclaimed: set<SessionId>) {
    if |m| < o.maxSessions then reclaimed == {} else OneDead(o, m, now, reclaimed)
  }

  /** There is no room for a login under `capKey`: the store is full of live sessions, and the login has none of its
      own to displace. */
  ghost predicate RefusesLogin(o: Options, m: Table, capKey: string, now: int) {
    && |m| >= o.maxSessions
    && !AtUserLimit(o, m, capKey)
    && forall id | id in m :: Alive(o, m[id], now)
  }

  /** What makes room for a login under `capKey`. */
  ghost predicate GiveWay(o: Options, m: Table, capKey: string, now: int, displaced: set<SessionId>, reclaimed: set<SessionId>) {
    DisplacesOldest(o, m, capKey, displaced) && ReclaimsOneDead(o, m - displaced, now, reclaimed)
  }

  /** A login that is let in: the table m' is m without whatever had to make room, and with the new session. */
  ghost predicate Opens(o: Options, m: Table, id: SessionId, spec: Spec, now: int,
                        displaced: set<SessionId>, reclaimed: set<SessionId>, m': Table)
  {
    && GiveWay(o, m, PerUserCapKey(spec), now, displaced, reclaimed)
    && m' == (m - displaced - reclaimed)[id := Opened(o, spec, now)]
  }

  // ---------------------------------------------------------------- whose session it is

  /** The sessions opened under a user name; those of the shared admin login are nobody's. */
  ghost function SessionsOfUser(m: Table, username: string): set<SessionId> {
    set id | id in m && !m[id].mode.Admin? && m[id].username == username
  }

  /** Every session is capped under its user's name, one of the admin login under none. */
  ghost predicate CappedByUser(m: Table) {
    forall id | id in m :: m[id].capKey == if m[id].mode.Admin? then "" else m[id].username
  }

  lemma OwnedByUser(m: Table, username: string)
    requires CappedByUser(m) && username != ""
    ensures OwnedBy(m, username) == SessionsOfUser(m, username)
  {
  }

  /** The login is one of a user who has as many sessions as a user may have. */
  lemma AtUserLimitMeans(o: Options, m: Table, spec: Spec)
    requires CappedByUser(m)
    ensures AtUserLimit(o, m, PerUserCapKey(spec)) <==>
              !spec.mode.Admin? && spec.username != "" && |SessionsOfUser(m, spec.username)| >= o.maxSessionsPerUser
  {
    if spec.username != "" {
      OwnedByUser(m, spec.username);
    }
  }

  /** Whom a login displaces, told by the fields: sessions of its own user only, each seen no later than any of that user's
      that stays, and created no later where that is a tie. */
  lemma DisplacedAreStalest(o: Options, m: Table, spec: Spec, displaced: set<SessionId>)
    requires CappedByUser(m) && DisplacesOldest(o, m, PerUserCapKey(spec), displaced)
    ensures displaced <= SessionsOfUser(m, spec.username)
    ensures forall d, k | d in displaced && k in SessionsOfUser(m, spec.username) - displaced ::
              m[d].lastSeen < m[k].lastSeen || (m[d].lastSeen == m[k].lastSeen && m[d].createdAt <= m[k].createdAt)
    ensures |displaced| == if spec.mode.Admin? || spec.username == "" || |SessionsOfUser(m, spec.username)| < o.maxSessionsPerUser
                           then 0 else |SessionsOfUser(m, spec.username)| - o.maxSessionsPerUser + 1
  {
    AtUserLimitMeans(o, m, spec);
    if PerUserCapKey(spec) != "" {
      OwnedByUser(m, spec.username);
    }
  }

  /** When a login is refused, told by the fields: the store is full, every session in it is in time, and the user has none
      to give up. */
  lemma RefusalOnFields(o: Options, m: Table, spec: Spec, now: int)
    requires CappedByUser(m)
    ensures RefusesLogin(o, m, PerUserCapKey(spec), now) <==>
              && |m| >= o.maxSessions
              && (spec.mode.Admin? || spec.username == "" || |SessionsOfUser(m, spec.username)| < o.maxSessionsPerUser)
              && forall id | id in m ::
                   && now <= m[id].createdAt + o.maxLifetime && now - m[id].lastSeen <= o.idleTimeout
                   && (m[id].refreshable || m[id].credential.expiresAt.None? || now <= m[id].credential.expiresAt.value)
  {
    AtUserLimitMeans(o, m, spec);
    assert forall id | id in m :: Alive(o, m[id], now) <==>
             && now <= m[id].createdAt + o.maxLifetime && now - m[id].lastSeen <= o.idleTimeout
             && (m[id].refreshable || m[id].credential.expiresAt.None? || now <= m[id].credential.expiresAt.value);
  }

  // ---------------------------------------------------------------- runs

  /** The table, and every session ID ever drawn. */
  datatype State = State(sessions: Table, used: set<SessionId>)

  datatype Event =
    | Created(id: SessionId, spec: Spec, now: int, displaced: set<SessionId>, reclaimed: set<SessionId>)
    | Refused(id: SessionId, spec: Spec, now: int)
    | Got(id: SessionId, at: Reads, outcome: RefreshOutcome, result: GetResult)
    | Deleted(id: SessionId)
    | Swept(now: int)

  ghost predicate Step(o: Options, s: State, e: Event, s': State) {
    match e
    case Created(id, spec, now, displaced, reclaimed) =>
      && id !in s.used
      && s'.used == s.used + {id}
      && Opens(o, s.sessions, id, spec, now, displaced, reclaimed, s'.sessions)
    case Refused(id, spec, now) =>
      && id !in s.used
      && s'.used == s.used + {id}
      && RefusesLogin(o, s.sessions, PerUserCapKey(spec), now)
      && s'.sessions == s.sessions
    case Got(id, at, outcome, result) =>
      && s'.used == s.used
      && (s'.sessions, result) == GetTable(o, s.sessions, id, at, outcome)
    case Deleted(id) =>
      s' == s.(sessions := s.sessions - {id})
    case Swept(now) =>
      s' == s.(sessions := SweptTable(o, s.sessions, now))
  }

  const EMPTY := State(map[], {})

  ghost predicate IsRun(o: Options, states: seq<State>, log: seq<Event>) {
    && |states| == |log| + 1
    && states[0] == EMPTY
    && forall i | 0 <= i < |log| :: Step(o, states[i], log[i], states[i + 1])
  }

  /** Every clock reading of e lies between lo and hi, and those of a Get are in order. */
  predicate ReadBetween(e: Event, lo: int, hi: int) {
    match e
    case Created(_, _, now, _, _) => lo <= now <= hi
    case Refused(_, _, now) => lo <= now <= hi
    case Got(_, r, _, _) => lo <= r.start <= r.recheck <= r.check <= r.stamp <= hi
    case Deleted(_) => true
    case Swept(now) => lo <= now <= hi
  }

  /** The clock never runs backwards: event i takes place between ticks[i] and ticks[i + 1]. */
  ghost predicate ClockedBy(log: seq<Event>, ticks: seq<int>) {
    && |ticks| == |log| + 1
    && (forall i, j | 0 <= i <= j < |ticks| :: ticks[i] <= ticks[j])
    && forall i | 0 <= i < |log| :: ReadBetween(log[i], ticks[i], ticks[i + 1])
  }

  lemma Extended<T>(xs: seq<T>, x: T, i: nat)
    requires i <= |xs|
    ensures (xs + [x])[i] == if i < |xs| then xs[i] else x
  {
  }

  lemma RunExtended(o: Options, states: seq<State>, log: seq<Event>, e: Event, s': State)
    requires IsRun(o, states, log) && Step(o, states[|log|], e, s')
    ensures IsRun(o, states + [s'], log + [e])
  {
    forall i | 0 <= i < |log + [e]|
      ensures Step(o, (states + [s'])[i], (log + [e])[i], (states + [s'])[i + 1])
    {
      Extended(states, s', i);
      Extended(states, s', i + 1);
      Extended(log, e, i);
    }
  }

  // ---------------------------------------------------------------- capacity

  ghost predicate WithinCapacity(o: Options, m: Table) {
    && |m| <= o.maxSessions
    && forall capKey | capKey != "" :: |OwnedBy(m, capKey)| <= o.maxSessionsPerUser
  }

  lemma {:induction false} SubsetCardinality<T>(a: set<T>, b: set<T>)
    requires a <= b
    ensures |a| <= |b|
    decreases a
  {
    if x :| x in a {
      SubsetCardinality(a - {x}, b - {x});
    }
  }

  lemma SubtableCapacity(o: Options, m: Table, m': Table)
    requires WithinCapacity(o, m)
    requires m'.Keys <= m.Keys && forall id | id in m' :: m'[id].capKey == m[id].capKey
    ensures WithinCapacity(o, m')
  {
    SubsetCardinality(m'.Keys, m.Keys);
    assert |m'| == |m'.Keys| && |m| == |m.Keys|;
    forall capKey | capKey != ""
      ensures |OwnedBy(m', capKey)| <= o.maxSessionsPerUser
    {
      SubsetCardinality(OwnedBy(m', capKey), OwnedBy(m, capKey));
    }
  }

  lemma RoomAfterDisplacing(o: Options, m: Table, capKey: string, displaced: set<SessionId>)
    requires o.Sound() && WithinCapacity(o, m) && capKey != ""
    requires DisplacesOldest(o, m, capKey, displaced)
    ensures |OwnedBy(m - displaced, capKey)| < o.maxSessionsPerUser
  {
    assert OwnedBy(m - displaced, capKey) == OwnedBy(m, capKey) - displaced;
  }

  lemma InsertWithinCapacity(o: Options, m: Table, id: SessionId, s: Snapshot)
    requires WithinCapacity(o, m) && id !in m && |m| < o.maxSessions
    requires s.capKey != "" ==> |OwnedBy(m, s.capKey)| < o.maxSessionsPerUser
    ensures WithinCapacity(o, m[id := s])
  {
    var m' := m[id := s];
    assert m'.Keys == m.Keys + {id} && |m'| == |m'.Keys| && |m| == |m.Keys|;
    forall capKey | capKey != ""
      ensures |OwnedBy(m', capKey)| <= o.maxSessionsPerUser
    {
      assert OwnedBy(m', capKey) == if capKey == s.capKey then OwnedBy(m, capKey) + {id} else OwnedBy(m, capKey);
    }
  }

  /** A store that is still full of live sessions after displacing the caller's own has displaced none, so that it may
      as well be asked beforehand whether there is room. */
  lemma RefusalDecided(o: Options, m: Table, capKey: string, displaced: set<SessionId>, now: int)
    requires o.Sound() && WithinCapacity(o, m) && DisplacesOldest(o, m, capKey, displaced)
    ensures var mid := m - displaced;
            RefusesLogin(o, m, capKey, now) <==> |mid| >= o.maxSessions && forall id | id in mid :: Alive(o, mid[id], now)
    ensures RefusesLogin(o, m, capKey, now) ==> displaced == {} && m - displaced == m
  {
    var mid := m - displaced;
    assert mid.Keys == m.Keys - displaced && |mid| == |mid.Keys| && |m| == |m.Keys|;
    assert |m.Keys - displaced| == |m.Keys| - |displaced|;
    if displaced == {} {
      assert mid == m;
    }
  }

  lemma ReclaimingMakesRoom(o: Options, m: Table, now: int, reclaimed: set<SessionId>)
    requires WithinCapacity(o, m) && ReclaimsOneDead(o, m, now, reclaimed)
    ensures |m - reclaimed| < o.maxSessions
  {
    assert (m - reclaimed).Keys == m.Keys - reclaimed;
    assert |m - reclaimed| == |(m - reclaimed).Keys| && |m| == |m.Keys|;
  }

  lemma CreatedWithinCapacity(o: Options, m: Table, id: SessionId, spec: Spec, now: int, displaced: set<SessionId>, reclaimed: set<SessionId>,
                              m': Table)
    requires o.Sound() && WithinCapacity(o, m) && id !in m
    requires Opens(o, m, id, spec, now, displaced, reclaimed, m')
    ensures WithinCapacity(o, m') && m'.Keys <= m.Keys + {id}
  {
    var mid := m - displaced;
    var kept := mid - reclaimed;
    SubtableCapacity(o, m, mid);
    SubtableCapacity(o, mid, kept);
    ReclaimingMakesRoom(o, mid, now, reclaimed);
    var capKey := PerUserCapKey(spec);
    if capKey != "" {
      RoomAfterDisplacing(o, m, capKey, displaced);
      SubsetCardinality(OwnedBy(kept, capKey), OwnedBy(mid, capKey));
    }
    InsertWithinCapacity(o, kept, id, Opened(o, spec, now));
  }

  lemma StepWithinCapacity(o: Options, s: State, e: Event, s': State)
    requires o.Sound() && WithinCapacity(o, s.sessions) && s.sessions.Keys <= s.used && Step(o, s, e, s')
    ensures WithinCapacity(o, s'.sessions) && s'.sessions.Keys <= s'.used
  {
    match e
    case Created(id, spec, now, displaced, reclaimed) =>
      CreatedWithinCapacity(o, s.sessions, id, spec, now, displaced, reclaimed, s'.sessions);
    case _ =>
      SubtableCapacity(o, s.sessions, s'.sessions);
  }

  lemma StepCappedByUser(o: Options, s: State, e: Event, s': State)
    requires CappedByUser(s.sessions) && Step(o, s, e, s')
    ensures CappedByUser(s'.sessions)
  {
  }

  lemma {:induction false} RunCappedByUser(o: Options, states: seq<State>, log: seq<Event>, i: nat)
    requires IsRun(o, states, log) && i <= |log|
    ensures CappedByUser(states[i].sessions)
  {
    if i > 0 {
      RunCappedByUser(o, states, log, i - 1);
      StepCappedByUser(o, states[i - 1], log[i - 1], states[i]);
    }
  }

  lemma EmptyWithinCapacity(o: Options)
    requires o.Sound()
    ensures WithinCapacity(o, EMPTY.sessions)
  {
    assert forall capKey :: OwnedBy(map[], capKey) == {};
  }

  /** Every reachable store holds at most maxSessions sessions, and at most maxSessionsPerUser of any one user. */
  lemma RunWithinCaps(o: Options, states: seq<State>, log: seq<Event>, i: nat)
    requires o.Sound() && IsRun(o, states, log) && i <= |log|
    ensures |states[i].sessions| <= o.maxSessions
    ensures forall username | username != "" :: |SessionsOfUser(states[i].sessions, username)| <= o.maxSessionsPerUser
  {
    RunWithinCapacity(o, states, log, i);
    RunCappedByUser(o, states, log, i);
    forall username | username != ""
      ensures |SessionsOfUser(states[i].sessions, username)| <= o.maxSessionsPerUser
    {
      OwnedByUser(states[i].sessions, username);
    }
  }

  lemma {:induction false} RunWithinCapacity(o: Options, states: seq<State>, log: seq<Event>, i: nat)
    requires o.Sound() && IsRun(o, states, log) && i <= |log|
    ensures WithinCapacity(o, states[i].sessions) && states[i].sessions.Keys <= states[i].used
  {
    if i == 0 {
      EmptyWithinCapacity(o);
    } else {
      RunWithinCapacity(o, states, log, i - 1);
      StepWithinCapacity(o, states[i - 1], log[i - 1], states[i]);
    }
  }
}
