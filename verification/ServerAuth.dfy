/** The clients of the session store: the login handlers, which hand a credential over (pkg/server/auth.go), and the
    identity of one request (pkg/auth/session/context.go, pkg/handlers/antreasvc/handler.go). */
module ServerAuth {
  import opened Wrappers
  import opened Credentials
  import opened KubeCredentials
  import opened Transports
  import opened StoreModel
  import opened Sessions
  import opened SessionStore

  lemma CreatedHoldsSpec(store: Store, id: SessionId, spec: Spec)
    requires store.Valid() && id in store.sessions && store.table[id].credential == spec.credential
    requires store.table[id].refreshToken == spec.refreshToken
    ensures store.sessions[id].held == spec.Material() && store.sessions[id].View() == store.table[id]
  {
    store.HeldIsMaterial(id);
    assert store.sessions[id].View() == store.table[id];
  }

  ghost predicate OneMoreAtMost(before: set<SessionId>, random: Option<SessionId>, after: set<SessionId>) {
    forall id | id in after :: id in before || random == Some(id)
  }

  lemma LoggedInKeys(before: map<SessionId, Session>, displaced: set<SessionId>, reclaimed: set<SessionId>, id: SessionId, s: Session)
    ensures OneMoreAtMost(before.Keys, Some(id), (before - displaced - reclaimed)[id := s].Keys)
  {
  }

  class Server {
    const sessionStore: Store

    constructor (store: Store)
      ensures sessionStore == store
    {
      sessionStore := store;
    }

    method DropNamed(cookie: Option<SessionId>)
      requires sessionStore.Valid()
      modifies sessionStore, sessionStore.books.Keys, sessionStore.accepted.Keys
      ensures sessionStore.Valid() && sessionStore.accepted == old(sessionStore.accepted)
      ensures sessionStore.Used() == old(sessionStore.Used()) && sessionStore.books.Keys <= old(sessionStore.books.Keys)
      ensures cookie.Some? ==> cookie.value !in sessionStore.sessions
    {
      if cookie.Some? {
        sessionStore.Delete(cookie.value);
      }
    }

    method Open(spec: Spec, random: Option<SessionId>, now: int) returns (s: Session?, error: Option<CreateError>)
      requires sessionStore.Valid()
      requires random.Some? ==> random.value !in sessionStore.Used()
      requires spec.Separate() && spec.Material() !! sessionStore.accepted.Keys
      modifies sessionStore, sessionStore.books.Keys, sessionStore.accepted.Keys
      ensures sessionStore.Valid()
      ensures s == null <==> error.Some?
      ensures s != null ==> random.Some? && random.value in sessionStore.sessions && sessionStore.sessions[random.value] == s
      ensures s != null ==> s.held == spec.Material() && s.View() == Opened(sessionStore.opts, spec, now)
      ensures s == null ==> sessionStore.accepted == old(sessionStore.accepted)
      ensures OneMoreAtMost(old(sessionStore.sessions.Keys), random, sessionStore.sessions.Keys)
      ensures fresh(sessionStore.books.Keys - old(sessionStore.books.Keys))
    {
      ghost var displaced, reclaimed;
      s, error, displaced, reclaimed := sessionStore.Create(spec, random, now);
      if s != null {
        CreatedHoldsSpec(sessionStore, random.value, spec);
        LoggedInKeys(old(sessionStore.sessions), displaced, reclaimed, random.value, s);
      }
    }

    /** createSession up to its error path: drops the session the caller's cookie still names, then opens the new one,
        which holds the arrays of the spec as they are. */
    method ReplaceSession(cookie: Option<SessionId>, spec: Spec, random: Option<SessionId>, now: int)
      returns (s: Session?, error: Option<CreateError>)
      requires sessionStore.Valid()
      requires random.Some? ==> random.value !in sessionStore.Used()
      requires spec.Separate() && spec.Material() !! sessionStore.accepted.Keys
      modifies sessionStore, sessionStore.books.Keys, sessionStore.accepted.Keys
      ensures sessionStore.Valid()
      ensures s == null <==> error.Some?
      ensures s != null ==> random.Some? && random.value in sessionStore.sessions && sessionStore.sessions[random.value] == s
      ensures s != null ==> s.held == spec.Material() && s.View() == Opened(sessionStore.opts, spec, now)
      ensures s == null ==> sessionStore.accepted == old(sessionStore.accepted)
      ensures cookie.Some? && cookie != random ==> cookie.value !in sessionStore.sessions
      ensures fresh(sessionStore.books.Keys - old(sessionStore.books.Keys))
    {
      DropNamed(cookie);
      s, error := Open(spec, random, now);
    }

    /** createSession: whatever happens, the material of the spec ends up either intact in the new session or erased. */
    method CreateSession(cookie: Option<SessionId>, spec: Spec, random: Option<SessionId>, now: int)
      returns (s: Session?, error: Option<CreateError>)
      requires sessionStore.Valid()
      requires random.Some? ==> random.value !in sessionStore.Used()
      requires spec.Separate() && spec.Material() !! sessionStore.accepted.Keys
      modifies sessionStore, sessionStore.books.Keys, sessionStore.accepted.Keys, spec.Material()
      ensures sessionStore.Valid()
      ensures s == null <==> error.Some?
      ensures s == null ==> forall a <- spec.Material() :: Erased(a)
      ensures s != null ==> s.held == spec.Material() && s in sessionStore.sessions.Values
      ensures s != null ==> s.View() == Opened(sessionStore.opts, spec, now)
      ensures s != null ==> forall a <- spec.Material() :: a[..] == old(a[..])
      ensures cookie.Some? && cookie != random ==> cookie.value !in sessionStore.sessions
      ensures fresh(sessionStore.books.Keys - old(sessionStore.books.Keys))
    {
      s, error := ReplaceSession(cookie, spec, random, now);
      if s == null {
        var _ := ZeroSpec(spec);
      }
    }

    /** LoginWithToken and LoginWithKubeconfig once there is a credential: `username` is what the API server resolved it to,
        if it accepted it. A login that it or the store refuses leaves no credential behind; one that succeeds opens a session
        that dies with its credential, since it has nothing to renew it with. */
    method LoginWithCredential(mode: Mode, cred: Credential, username: Option<string>,
                               cookie: Option<SessionId>, random: Option<SessionId>, now: int) returns (s: Session?)
      requires sessionStore.Valid()
      requires random.Some? ==> random.value !in sessionStore.Used()
      requires cred.Material() !! sessionStore.accepted.Keys
      modifies sessionStore, sessionStore.books.Keys, sessionStore.accepted.Keys, cred.Material()
      ensures sessionStore.Valid()
      ensures s == null ==> forall a <- cred.Material() :: Erased(a)
      ensures s != null ==> username.Some? && s in sessionStore.sessions.Values && s.held == cred.Material()
      ensures s != null ==>
                && s.mode == mode && s.username == username.value && !s.refreshable
                && s.credential == cred && s.refreshToken == null && s.createdAt == s.lastSeen == now
      ensures s != null ==> forall a <- cred.Material() :: a[..] == old(a[..])
      ensures username == None ==> sessionStore.sessions == old(sessionStore.sessions)
      ensures fresh(sessionStore.books.Keys - old(sessionStore.books.Keys))
    {
      if username == None {
        Reject(cred);
        s := null;
      } else {
        var spec := Spec(mode, cred, null, username.value, false);
        OnlyCredential(spec);
        var error;
        s, error := CreateSession(cookie, spec, random, now);
      }
    }

    /** What the two handlers do with a credential, or the lack of one, found in what was pasted. */
    method LoginDecoded(mode: Mode, r: Decoded, ghost pasted: set<array<byte>>, username: Option<string>,
                        cookie: Option<SessionId>, random: Option<SessionId>, now: int) returns (s: Session?)
      requires sessionStore.Valid()
      requires random.Some? ==> random.value !in sessionStore.Used()
      requires pasted !! sessionStore.accepted.Keys && (r.Ok? ==> r.credential.Material() <= pasted)
      modifies sessionStore, sessionStore.books.Keys, sessionStore.accepted.Keys, if r.Ok? then r.credential.Material() else {}
      ensures sessionStore.Valid()
      ensures s != null ==> username.Some? && s in sessionStore.sessions.Values && r.Ok? && s.held == r.credential.Material()
      ensures s != null ==> s.mode == mode && s.username == username.value && !s.refreshable && s.credential == r.credential
      ensures s == null && r.Ok? ==> forall a <- r.credential.Material() :: Erased(a)
      ensures forall a <- pasted :: s != null || r.Failed? || a !in r.credential.Material() ==> a[..] == old(a[..])
      ensures r.Failed? ==> s == null && sessionStore.sessions == old(sessionStore.sessions)
    {
      if r.Failed? {
        return null;
      }
      s := LoginWithCredential(mode, r.credential, username, cookie, random, now);
    }

    /** LoginWithToken. A token that is refused is erased, unless it is refused for being blank. */
    method LoginWithToken(lib: Libraries, token: array<byte>, username: Option<string>,
                          cookie: Option<SessionId>, random: Option<SessionId>, now: int) returns (s: Session?)
      requires sessionStore.Valid()
      requires random.Some? ==> random.value !in sessionStore.Used()
      requires token !in sessionStore.accepted
      modifies sessionStore, sessionStore.books.Keys, sessionStore.accepted.Keys, token
      ensures sessionStore.Valid()
      ensures s != null ==> username.Some? && s in sessionStore.sessions.Values && s.held == {token}
      ensures s != null ==> s.mode == SAToken && s.username == username.value && !s.refreshable && s.credential.token == token
      ensures s == null && !old(lib.blank(token[..])) ==> Erased(token)
      ensures s != null || old(lib.blank(token[..])) ==> token[..] == old(token[..])
      ensures old(lib.blank(token[..])) ==> s == null && sessionStore.sessions == old(sessionStore.sessions)
    {
      var r := BearerCredential(lib, token);
      s := LoginDecoded(SAToken, r, {token}, username, cookie, random, now);
    }

    /** LoginWithKubeconfig. Exactly when the kubeconfig holds a usable credential does a login that fails erase anything, and
        then just that credential: what else was pasted, and all of it if the kubeconfig is refused, stays in memory as it
        is. */
    method LoginWithKubeconfig(lib: Libraries, cfg: Option<Config>, ghost pasted: set<array<byte>>, parsedAt: int,
                               username: Option<string>, cookie: Option<SessionId>, random: Option<SessionId>, now: int)
      returns (s: Session?, ghost material: set<array<byte>>)
      requires sessionStore.Valid()
      requires random.Some? ==> random.value !in sessionStore.Used()
      requires pasted == Pasted(cfg) && pasted !! sessionStore.accepted.Keys
      modifies sessionStore, sessionStore.books.Keys, sessionStore.accepted.Keys, pasted
      ensures sessionStore.Valid()
      ensures material == if old(Usable(lib, cfg, parsedAt)) then Presented(CurrentUser(cfg.value)) else {}
      ensures s != null ==> username.Some? && s in sessionStore.sessions.Values && s.held == material
      ensures s != null ==> s.mode == Kubeconfig && s.username == username.value && !s.refreshable
      ensures s == null ==> forall a <- material :: Erased(a)
      ensures forall a <- pasted :: s != null || a !in material ==> a[..] == old(a[..])
      ensures !old(Usable(lib, cfg, parsedAt)) ==> s == null && sessionStore.sessions == old(sessionStore.sessions)
    {
      var r := CredentialFromKubeconfig(lib, cfg, parsedAt);
      material := if r.Ok? then r.credential.Material() else {};
      s := LoginDecoded(Kubeconfig, r, pasted, username, cookie, random, now);
    }

    /** cred.Zero() on a credential the API server refused; the store has nothing to do with it. */
    method Reject(cred: Credential)
      requires sessionStore.Valid() && cred.Material() !! sessionStore.accepted.Keys
      modifies cred.Material()
      ensures sessionStore.Valid() && forall a <- cred.Material() :: Erased(a)
    {
      var _ := ZeroCredential(cred);
    }
  }

  lemma OnlyCredential(spec: Spec)
    requires spec.refreshToken == null
    ensures spec.Material() == spec.credential.Material() && spec.Separate()
  {
  }

  // ---------------------------------------------------------------- one request

  class RequestAuth {
    const store: Store
    const session: Session?
    const ephemeralCredential: Credential

    constructor ForSession(store: Store, s: Session)
      ensures this.store == store && session == s
    {
      this.store, session := store, s;
      ephemeralCredential := Credential(Bearer, null, null, null, "", None);
    }

    constructor ForBearer(store: Store, cred: Credential)
      ensures this.store == store && session == null && ephemeralCredential == cred
    {
      this.store, session, ephemeralCredential := store, null, cred;
    }

    /** KeepAlive: a request is alive as long as a Get of its session succeeds; without a session, as long as its
        credential is not past its expiry. */
    method KeepAlive(at: Reads, outcome: RefreshOutcome) returns (alive: bool, ghost result: GetResult)
      requires store.Valid()
      requires outcome.Separate() && outcome.Material() !! store.accepted.Keys
      modifies store, store.books.Keys, store.accepted.Keys, outcome.Material()
      ensures store.Valid() && store.books.Keys <= old(store.books.Keys)
      ensures session != null ==> store.log == old(store.log) + [Got(session.id, at, outcome, result)]
      ensures session != null ==> (alive <==> result.Live?)
      ensures session == null ==>
                store.log == old(store.log)
                && (alive <==> ephemeralCredential.expiresAt.None? || at.start < ephemeralCredential.expiresAt.value)
    {
      if session == null {
        alive := ephemeralCredential.expiresAt.None? || at.start < ephemeralCredential.expiresAt.value;
        result := NotFound;
        return;
      }
      var answer, s;
      ghost var presented;
      answer, s, presented := store.Get(session.id, at, outcome);
      alive, result := answer.Live?, answer;
    }

    /** Invalidate: an upstream that refused the credential ends the session. */
    method Invalidate()
      requires store.Valid()
      modifies store, store.books.Keys, store.accepted.Keys
      ensures store.Valid() && store.books.Keys <= old(store.books.Keys)
      ensures session != null ==> session.id !in store.sessions && store.log == old(store.log) + [Deleted(session.id)]
      ensures session != null && session in old(store.books) ==>
                && session in store.removed && session !in store.lingering
                && session.credential == old(session.credential).Stripped()
      ensures session == null ==> store.sessions == old(store.sessions)
    {
      if session != null {
        if session in store.books {
          assert store.Stored(session);
          NeverLingering(store, session);
        }
        store.Delete(session.id);
      }
    }

    /** The session is one of the store's, whether or not it is still stored: between its Get and its end a request can see its
        session logged out. */
    ghost predicate Known()
      reads store
    {
      session != null ==> session in store.books || session in store.removed
    }

    /** TransportFor: cached with the session if there is one, and built for this request alone otherwise. */
    method TransportFor(key: string, factory: ClientFactory, pemOk: bool) returns (rt: Option<RoundTripper>)
      requires store.Valid() && Known() && BuiltFor(key, factory)
      modifies store`lingering, if session != null then {session} else {}
      ensures store.Valid()
      ensures session != null ==>
                Answers(old(session.transports), key, factory, pemOk, session.credential, rt, session.transports)
                && session.credential == old(session.credential)
      ensures session != null && session in store.removed ==> session.late == old(session.late) + [Attempt(key, pemOk)]
      ensures session == null ==>
                && (rt.Some? <==> Builds(ephemeralCredential.kind, pemOk))
                && (rt.Some? ==> rt.value.builtFrom == ephemeralCredential && rt.value.generation == factory.generation)
    {
      if session == null {
        rt := factory.TransportFor(ephemeralCredential, pemOk, key, 0);
      } else {
        rt := store.TransportFor(session, key, factory, pemOk);
      }
    }
  }

  lemma NeverLingering(store: Store, s: Session)
    requires store.Valid() && s in store.books
    ensures s !in store.lingering
  {
    assert Unlocked(StoreSeal);
  }

  /** The Antrea Service request: it uses the factory and the generation the provider offers at that moment. In every state
      of the store, whatever the session has cached, the transport it gets was built by the factory of that very generation,
      from the credential the session holds now; it is the one cached for that generation if there is one, and is cached as
      the only one of the Antrea Service otherwise. */
  method AntreaTransport(ra: RequestAuth, provider: AntreaClientFactoryProvider, pemOk: bool) returns (rt: Option<RoundTripper>)
    requires provider.Valid() && ra.store.Valid() && ra.Known()
    modifies ra.store`lingering, if ra.session != null then {ra.session} else {}
    ensures ra.store.Valid()
    ensures provider.factory.None? ==> rt.None?
    ensures provider.factory.Some? && ra.session == null ==>
              && (rt.Some? <==> Builds(ra.ephemeralCredential.kind, pemOk))
              && (rt.Some? ==> rt.value.builtFrom == ra.ephemeralCredential && rt.value.generation == provider.generation)
    ensures provider.factory.Some? && ra.session != null ==>
              AntreaAnswer(old(ra.session.transports), provider.generation, pemOk, ra.session.credential, rt, ra.session.transports)
  {
    rt := None;
    var offer := provider.GetClientFactory();
    if offer.Some? {
      var (factory, generation) := offer.value;
      OfferedTogether(generation);
      rt := ra.TransportFor(TransportKey(generation), factory, pemOk);
      if ra.session != null {
        ra.store.KnownIsCoherent(ra.session);
        AntreaAnswered(old(ra.session.transports), generation, pemOk, ra.session.credential, rt, ra.session.transports);
      }
    }
  }

  /** A request that still has its session when the session is logged out, and then wants a transport. Exactly if one can be
      built for the kind of credential the session had, one is, and stays cached with a session nobody can find any more;
      and one for a certificate, the kind that owns a connection pool, is never cleaned up by it. */
  method TransportAfterLogout(ra: RequestAuth, key: string, factory: ClientFactory, pemOk: bool) returns (rt: Option<RoundTripper>)
    requires ra.store.Valid() && ra.session != null && ra.session in ra.store.books && BuiltFor(key, factory)
    modifies ra.store, ra.store.books.Keys, ra.store.accepted.Keys
    ensures ra.store.Valid() && ra.session in ra.store.removed && ra.session.id !in ra.store.sessions
    ensures rt.Some? <==> Builds(old(ra.session.credential).kind, pemOk)
    ensures ra.session.transports != map[] <==> Builds(old(ra.session.credential).kind, pemOk)
    ensures ra.session.transports == if rt.Some? then map[key := rt.value] else map[]
    ensures old(ra.session.credential).kind.Cert? && pemOk ==>
              rt.Some? && rt.value.ownsPool && ra.session.cleanups[rt.value] == 0
  {
    ra.Invalidate();
    ra.store.GoneIsGone(ra.session);
    rt := ra.TransportFor(key, factory, pemOk);
    ra.store.GoneIsGone(ra.session);
    if rt.Some? {
      ra.store.KnownIsCoherent(ra.session);
      assert ra.session.transports[key] in ra.session.built;
    }
  }
}
