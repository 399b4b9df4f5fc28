/** The validation of bearer tokens, cached (pkg/server/authn/bearer.go).

    validate takes no lock of its own, so requests interleave around their calls to the API server: Begin is what runs
    before the call, Finish what runs after it, and the LRU may evict anything in between. */
module BearerCache {
  import opened Wrappers

  const TTL := 60

  /** A token, with the expiry its "exp" claim gives (section 4.1.4 of RFC 7519), if any. */
  datatype Token = Token(text: string, exp: Option<int>)

  /** SHA-256 of a token, taken to have no collisions. */
  datatype Digest = Digest(of: Token)

  function CacheKey(token: Token): Digest {
    Digest(token)
  }

  datatype CacheEntry = CacheEntry(username: string, validUntil: int)

  /** What the API server answers. */
  datatype Answer = Accepts(username: string) | Refuses | Fails

  datatype Result = Accepted(username: string) | TooManyRequests | ServiceUnavailable | Unauthorized

  /** An acceptance by the API server: decided at one time, and recorded when its answer had arrived. */
  datatype Verdict = Verdict(token: Token, username: string, decided: int, recorded: int)

  /** A request accepted by validate, at the clock reading it was accepted on. */
  datatype Acceptance = Acceptance(token: Token, username: string, at: int, cached: bool)

  function ValidUntil(token: Token, recorded: int): (t: int)
    ensures t <= recorded + TTL
    ensures token.exp.Some? ==> t <= token.exp.value
  {
    if token.exp.Some? && token.exp.value < recorded + TTL then token.exp.value else recorded + TTL
  }

  /** A call to the API server that is under way. */
  datatype Call = Call(token: Token, began: int)

  /** The cache, and what has happened so far. */
  datatype State = State(
    cache: map<Digest, CacheEntry>,
    clock: int,
    calls: multiset<Call>,
    verdicts: seq<Verdict>,
    accepted: seq<Acceptance>)

  datatype Event =
    | Began(token: Token, now: int, allowed: bool)
    | Finished(call: Call, answer: Answer, now: int, decided: int)
    | Evicted(key: Digest)

  // ---------------------------------------------------------------- runs

  predicate Hit(s: State, token: Token, now: int) {
    CacheKey(token) in s.cache && now < s.cache[CacheKey(token)].validUntil
  }

  function AfterBegin(s: State, token: Token, now: int, allowed: bool): State {
    if Hit(s, token, now) then
      var a := Acceptance(token, s.cache[CacheKey(token)].username, now, true);
      s.(clock := now, accepted := s.accepted + [a])
    else s.(clock := now, calls := if allowed then s.calls + multiset{Call(token, now)} else s.calls)
  }

  function AfterAnswer(s: State, call: Call, answer: Answer, now: int, decided: int): State {
    var s' := s.(clock := now, calls := s.calls - multiset{call});
    if answer.Accepts? then
      s'.(cache := s.cache[CacheKey(call.token) := CacheEntry(answer.username, ValidUntil(call.token, now))],
          verdicts := s.verdicts + [Verdict(call.token, answer.username, decided, now)],
          accepted := s.accepted + [Acceptance(call.token, answer.username, now, false)])
    else s'
  }

  ghost predicate Next(s: State, e: Event, s': State) {
    match e
    case Began(token, now, allowed) =>
      s.clock <= now && s' == AfterBegin(s, token, now, allowed)
    case Finished(call, answer, now, decided) =>
      call in s.calls && s.clock <= now && call.began <= decided <= now && s' == AfterAnswer(s, call, answer, now, decided)
    case Evicted(key) =>
      s' == s.(cache := s.cache - {key})
  }

  ghost predicate IsRun(states: seq<State>, events: seq<Event>) {
    && |states| == |events| + 1
    && states[0] == State(map[], states[0].clock, multiset{}, [], [])
    && forall k | 0 <= k < |events| :: Next(states[k], events[k], states[k + 1])
  }

  ghost predicate Reachable(s: State) {
    exists states: seq<State>, events: seq<Event> :: IsRun(states, events) && states[|events|] == s
  }

  lemma ReachableInit(clock: int)
    ensures Reachable(State(map[], clock, multiset{}, [], []))
  {
    var states: seq<State>, events: seq<Event> := [State(map[], clock, multiset{}, [], [])], [];
    assert IsRun(states, events);
  }

  lemma ReachableNext(s: State, e: Event, s': State)
    requires Reachable(s) && Next(s, e, s')
    ensures Reachable(s')
  {
    var states: seq<State>, events: seq<Event> :| IsRun(states, events) && states[|events|] == s;
    assert IsRun(states + [s'], events + [e]);
  }

  // ---------------------------------------------------------------- the invariant

  /** The verdict a cache entry rests on. */
  ghost predicate Vouches(v: Verdict, d: Digest, e: CacheEntry) {
    v.token == d.of && v.username == e.username && e.validUntil == ValidUntil(v.token, v.recorded)
  }

  /** The verdict an accepted request rests on. */
  ghost predicate Backs(v: Verdict, a: Acceptance) {
    && v.token == a.token && v.username == a.username
    && (if a.cached then v.recorded <= a.at < ValidUntil(v.token, v.recorded) else a.at == v.recorded)
  }

  ghost predicate Vouched(d: Digest, e: CacheEntry, verdicts: seq<Verdict>) {
    exists v :: v in verdicts && Vouches(v, d, e)
  }

  ghost predicate Backed(a: Acceptance, verdicts: seq<Verdict>) {
    exists v :: v in verdicts && Backs(v, a)
  }

  ghost predicate Inv(s: State) {
    && (forall v <- s.verdicts :: v.decided <= v.recorded <= s.clock)
    && (forall d | d in s.cache :: Vouched(d, s.cache[d], s.verdicts))
    && (forall a <- s.accepted :: Backed(a, s.verdicts))
  }

  lemma StillSupported(verdicts: seq<Verdict>, more: Verdict)
    ensures forall d, e | Vouched(d, e, verdicts) :: Vouched(d, e, verdicts + [more])
    ensures forall a | Backed(a, verdicts) :: Backed(a, verdicts + [more])
  {
    assert forall v | v in verdicts :: v in verdicts + [more];
  }

  lemma InvBegin(s: State, token: Token, now: int, allowed: bool)
    requires Inv(s) && s.clock <= now
    ensures Inv(AfterBegin(s, token, now, allowed))
  {
    if Hit(s, token, now) {
      var e := s.cache[CacheKey(token)];
      var v :| v in s.verdicts && Vouches(v, CacheKey(token), e);
      assert Backs(v, Acceptance(token, e.username, now, true));
    }
  }

  lemma InvAnswer(s: State, call: Call, answer: Answer, now: int, decided: int)
    requires Inv(s) && s.clock <= now && decided <= now
    ensures Inv(AfterAnswer(s, call, answer, now, decided))
  {
    if answer.Accepts? {
      var v := Verdict(call.token, answer.username, decided, now);
      StillSupported(s.verdicts, v);
      assert v in s.verdicts + [v];
      assert Vouches(v, CacheKey(call.token), CacheEntry(answer.username, ValidUntil(call.token, now)));
      assert Backs(v, Acceptance(call.token, answer.username, now, false));
    }
  }

  lemma {:induction false} RunInv(states: seq<State>, events: seq<Event>, k: nat)
    requires IsRun(states, events) && k <= |events|
    ensures Inv(states[k])
  {
    if k > 0 {
      RunInv(states, events, k - 1);
      assert Next(states[k - 1], events[k - 1], states[k]);
      match events[k - 1]
      case Began(token, now, allowed) => InvBegin(states[k - 1], token, now, allowed);
      case Finished(call, answer, now, decided) => InvAnswer(states[k - 1], call, answer, now, decided);
      case Evicted(_) =>
    }
  }

  lemma ReachableInv(s: State)
    requires Reachable(s)
    ensures Inv(s)
  {
    var states: seq<State>, events: seq<Event> :| IsRun(states, events) && states[|events|] == s;
    RunInv(states, events, |events|);
  }

  // ---------------------------------------------------------------- the validator

  class BearerValidator {
    var cache: map<Digest, CacheEntry>

    ghost var clock: int
    ghost var calls: multiset<Call>
    ghost var verdicts: seq<Verdict>
    ghost var accepted: seq<Acceptance>

    ghost function View(): State
      reads this
    {
      State(cache, clock, calls, verdicts, accepted)
    }

    /** What the validator went through is a run. */
    ghost predicate Valid()
      reads this
    {
      Reachable(View())
    }

    constructor (ghost now: int)
      ensures Valid() && View() == State(map[], now, multiset{}, [], [])
    {
      cache, clock, calls, verdicts, accepted := map[], now, multiset{}, [], [];
      ReachableInit(now);
    }

    /** validate, up to the call to the API server; None means that the call is made. */
    method Begin(token: Token, now: int, allowed: bool) returns (r: Option<Result>)
      requires Valid() && clock <= now
      modifies `clock, `calls, `accepted
      ensures Valid() && View() == AfterBegin(old(View()), token, now, allowed)
      ensures r == if Hit(old(View()), token, now) then Some(Accepted(cache[CacheKey(token)].username))
                   else if allowed then None else Some(TooManyRequests)
      ensures r.Some? && r.value.Accepted? ==>
                accepted == old(accepted) + [Acceptance(token, r.value.username, now, true)] && calls == old(calls)
    {
      var key := CacheKey(token);
      ghost var s := View();
      clock := now;
      if key in cache && now < cache[key].validUntil {
        accepted := accepted + [Acceptance(token, cache[key].username, now, true)];
        r := Some(Accepted(cache[key].username));
      } else if allowed {
        calls := calls + multiset{Call(token, now)};
        r := None;
      } else {
        r := Some(TooManyRequests);
      }
      ReachableNext(s, Began(token, now, allowed), View());
    }

    /** validate, from the API server's answer on. */
    method Finish(token: Token, answer: Answer, now: int, ghost began: int, ghost decided: int) returns (r: Result)
      requires Valid() && Call(token, began) in calls && clock <= now && began <= decided <= now
      modifies this
      ensures Valid() && View() == AfterAnswer(old(View()), Call(token, began), answer, now, decided)
      ensures r == match answer case Accepts(username) => Accepted(username) case Refuses => Unauthorized case Fails => ServiceUnavailable
    {
      ghost var s := View();
      clock, calls := now, calls - multiset{Call(token, began)};
      if answer.Accepts? {
        var validUntil := now + TTL;
        if token.exp.Some? && token.exp.value < validUntil {
          validUntil := token.exp.value;
        }
        cache := cache[CacheKey(token) := CacheEntry(answer.username, validUntil)];
        verdicts := verdicts + [Verdict(token, answer.username, decided, now)];
        accepted := accepted + [Acceptance(token, answer.username, now, false)];
        r := Accepted(answer.username);
      } else if answer.Fails? {
        r := ServiceUnavailable;
      } else {
        r := Unauthorized;
      }
      ReachableNext(s, Finished(Call(token, began), answer, now, decided), View());
    }

    /** The LRU makes room. */
    method Evict(key: Digest)
      requires Valid()
      modifies `cache
      ensures Valid() && cache == old(cache) - {key}
    {
      ghost var s := View();
      cache := cache - {key};
      ReachableNext(s, Evicted(key), View());
    }
  }

  // ---------------------------------------------------------------- revocation

  /** In every run, each accepted request rests on an acceptance of the same token, for the same user, by the API server; a
      cached one less than a minute after that was recorded, and strictly before the token's own expiry. */
  lemma AcceptedMeansVouched(s: State, a: Acceptance) returns (v: Verdict)
    requires Reachable(s) && a in s.accepted
    ensures v in s.verdicts && v.token == a.token && v.username == a.username && v.decided <= v.recorded
    ensures v.recorded <= a.at < v.recorded + 60 && (!a.cached ==> a.at == v.recorded)
    ensures a.cached && a.token.exp.Some? ==> a.at < a.token.exp.value
  {
    ReachableInv(s);
    v :| v in s.verdicts && Backs(v, a);
  }

  ghost predicate RevokedAt(s: State, token: Token, r: int) {
    forall v <- s.verdicts :: v.token == token ==> v.decided < r
  }

  ghost predicate RecordedBy(s: State, token: Token, t: int) {
    forall v <- s.verdicts :: v.token == token ==> v.recorded <= t
  }

  /** A token that the API server refuses from time r on is accepted for a minute more, counted from when the last
      acceptance was recorded: by time r if none was on its way then, and later by no more than such an answer takes. */
  lemma RevocationBound(s: State, token: Token, r: int, latency: nat)
    requires Reachable(s) && RevokedAt(s, token, r)
    requires forall v <- s.verdicts :: v.token == token ==> v.recorded - v.decided <= latency
    ensures forall a <- s.accepted :: a.token == token ==> a.at < r + latency + 60
    ensures RecordedBy(s, token, r) ==> forall a <- s.accepted :: a.token == token ==> a.at < r + 60
  {
    forall a <- s.accepted | a.token == token
      ensures a.at < r + latency + TTL && (RecordedBy(s, token, r) ==> a.at < r + TTL)
    {
      var v := AcceptedMeansVouched(s, a);
    }
  }

  /** An acceptance decided before r whose answer arrived after r, for a token that does not expire by the end of the minute
      unless the answer itself arrived that late. */
  predicate Outlives(v: Verdict, r: int) {
    r < v.recorded && (r + 60 <= v.recorded || v.token.exp.None? || r + 60 < v.token.exp.value)
  }

  /** In this state v is all that the API server ever said in favour of its token, and yet the token has been accepted a
      minute after r or later. */
  ghost predicate AcceptedLate(s: State, v: Verdict, r: int) {
    && v in s.verdicts && (forall w <- s.verdicts :: w.token == v.token ==> w == v)
    && exists a <- s.accepted :: a.token == v.token && r + 60 <= a.at
  }

  /** The minute counted from r itself is not kept: a validator on which a request is accepted at r + 60 or later, for every
      acceptance that outlives r. */
  method AcceptPastTheMinute(v: Verdict, r: int) returns (validator: BearerValidator)
    requires v.decided < r && Outlives(v, r)
    ensures validator.Valid() && AcceptedLate(validator.View(), v, r)
  {
    validator := new BearerValidator(v.decided);
    var asked := validator.Begin(v.token, v.decided, true);
    var direct := validator.Finish(v.token, Accepts(v.username), v.recorded, v.decided, v.decided);
    assert validator.verdicts == [v];
    if v.recorded < r + TTL {
      var late := validator.Begin(v.token, r + TTL, true);
      assert Acceptance(v.token, v.username, r + TTL, true) in validator.accepted;
    } else {
      assert Acceptance(v.token, v.username, v.recorded, false) in validator.accepted;
    }
  }

  /** The states of the same run, for an acceptance that outlives r. */
  lemma LateRun(v: Verdict, r: int) returns (s: State)
    requires v.decided < r && Outlives(v, r)
    ensures Reachable(s) && AcceptedLate(s, v, r)
  {
    var s0 := State(map[], v.decided, multiset{}, [], []);
    var s1 := AfterBegin(s0, v.token, v.decided, true);
    var s2 := AfterAnswer(s1, Call(v.token, v.decided), Accepts(v.username), v.recorded, v.decided);
    ReachableInit(v.decided);
    ReachableNext(s0, Began(v.token, v.decided, true), s1);
    ReachableNext(s1, Finished(Call(v.token, v.decided), Accepts(v.username), v.recorded, v.decided), s2);
    assert s2.verdicts == [v];
    if v.recorded < r + TTL {
      s := AfterBegin(s2, v.token, r + TTL, true);
      ReachableNext(s2, Began(v.token, r + TTL, true), s);
      assert Acceptance(v.token, v.username, r + TTL, true) in s.accepted;
    } else {
      s := s2;
      assert Acceptance(v.token, v.username, v.recorded, false) in s.accepted;
    }
  }

  /** For any acceptance decided before r, a run in which it alone gets its token accepted at r + 60 or later exists if and
      only if it outlives r. */
  lemma LateAcceptanceExactlyWhen(v: Verdict, r: int)
    requires v.decided < r && v.decided <= v.recorded
    ensures (exists s :: Reachable(s) && AcceptedLate(s, v, r)) <==> Outlives(v, r)
  {
    if Outlives(v, r) {
      var s := LateRun(v, r);
    }
    forall s | Reachable(s) && AcceptedLate(s, v, r) ensures Outlives(v, r) {
      var a :| a in s.accepted && a.token == v.token && r + TTL <= a.at;
      var w := AcceptedMeansVouched(s, a);
    }
  }
}
