/** One logged-in user's session and the operations that change it in place (pkg/auth/session/session.go). */
module Sessions {
  import opened Wrappers
  import opened Credentials
  import opened Transports
  import opened StoreModel

  /** What the store's books say about a session: its fields and the arrays it holds. */
  datatype Entry = Entry(view: Snapshot, held: set<array<byte>>)

  class Session {
    const id: SessionId
    const mode: Mode
    const username: string
    const capKey: string
    const refreshable: bool
    const createdAt: int

    var credential: Credential
    var refreshToken: array?<byte>
    var lastSeen: int
    var expiresAt: int
    var transports: map<string, RoundTripper>

    /** Every transport ever built for this session, the cleanups that have run, and how often it was zeroed. */
    ghost var built: set<RoundTripper>
    ghost var cleanups: multiset<RoundTripper>
    ghost var zeroings: nat
    /** The arrays whose bytes this session holds. */
    ghost var held: set<array<byte>>

    /** The calls for a transport since it was zeroed, and every transport built before. */
    ghost var late: seq<Attempt>
    ghost var builtInService: set<RoundTripper>

    /** The next transport's identity. */
    var serial: nat

    constructor (id: SessionId, spec: Spec, now: int, maxLifetime: int)
      ensures Coherent() && AfterwardsTracked() && transports == map[] && zeroings == 0
      ensures Tracked() && held == spec.Material()
      ensures spec.Separate() ==> InService()
      ensures this.id == id && createdAt == now && lastSeen == now
      ensures mode == spec.mode && username == spec.username && capKey == PerUserCapKey(spec)
      ensures refreshable == spec.refreshable
      ensures credential == spec.credential && refreshToken == spec.refreshToken
      ensures expiresAt == EffectiveExpiry(now, maxLifetime, spec.credential.expiresAt)
    {
      this.id := id;
      mode, username, capKey := spec.mode, spec.username, PerUserCapKey(spec);
      refreshable, createdAt, lastSeen := spec.refreshable, now, now;
      credential, refreshToken := spec.credential, spec.refreshToken;
      expiresAt := EffectiveExpiry(now, maxLifetime, spec.credential.expiresAt);
      transports, serial := map[], 0;
      built, cleanups, zeroings, held, late, builtInService := {}, multiset{}, 0, spec.Material(), [], {};
    }

    ghost function Material(): set<array<byte>>
      reads `credential, `refreshToken
    {
      credential.Material() + Backing(refreshToken)
    }

    ghost predicate Tracked()
      reads `held, `credential, `refreshToken
    {
      held == Material()
    }

    /** No array serves both as credential material and as refresh token. */
    ghost predicate Separate()
      reads `credential, `refreshToken
    {
      credential.Material() !! Backing(refreshToken)
    }

    function View(): Snapshot
      reads this
    {
      Snapshot(mode, username, capKey, refreshable, createdAt, lastSeen, expiresAt, credential, refreshToken)
    }

    ghost predicate Cached(rt: RoundTripper)
      reads `transports
    {
      rt.key in transports && transports[rt.key] == rt
    }

    /** A versioned upstream has at most one version cached, and every transport ever built that owns a connection
        pool is either still cached or has been cleaned up exactly once. */
    ghost predicate Accounted()
      reads `transports, `built, `cleanups, `serial
    {
      && (forall k | k in transports :: transports[k] in built && transports[k].key == k)
      && (forall j, k | j in transports && k in transports :: !Superseded(j, k))
      && (forall rt <- built :: rt.serial < serial)
      && (forall rt <- cleanups :: rt in built)
      && (forall rt <- built :: cleanups[rt] == if rt.ownsPool && !Cached(rt) then 1 else 0)
    }

    /** What holds of the transport cache whenever the session's lock is free: every cached transport was built from
        the credential the session holds now, by the factory its key names, besides being accounted for. */
    ghost predicate Coherent()
      reads `transports, `built, `cleanups, `serial, `credential
    {
      && Accounted()
      && GenerationsMatch(transports)
      && forall k | k in transports ::
           transports[k].builtFrom == credential && (transports[k].ownsPool <==> credential.kind.Cert?)
    }

    /** A session that has been zeroed caches exactly what was built for it afterwards. */
    ghost predicate AfterwardsTracked()
      reads `transports, `built, `credential, `zeroings, `late, `builtInService
    {
      if zeroings == 0 then late == []
      else
        && CachedLate(transports, credential.kind, late)
        && builtInService <= built
        && forall k | k in transports :: transports[k] !in builtInService
    }

    /** A session that has never been zeroed. */
    ghost predicate InService()
      reads this
    {
      forall k: Seal {:trigger Unlocked(k)} :: k.SessionSeal? && Unlocked(k) ==>
        zeroings == 0 && late == [] && Tracked() && Separate() && Coherent()
    }

    lemma InServiceMeans()
      requires InService()
      ensures zeroings == 0 && late == [] && Tracked() && Separate() && Coherent()
    {
      assert Unlocked(SessionSeal);
    }

    lemma MeansInService()
      requires zeroings == 0 && late == [] && Tracked() && Separate() && Coherent()
      ensures InService()
    {
    }

    /** A session that was zeroed exactly once, and holds no material, and no transport but what was built for it since. */
    ghost predicate Retired()
      reads this
    {
      forall k: Seal {:trigger Unlocked(k)} :: k.SessionSeal? && Unlocked(k) ==>
        zeroings == 1 && Tracked() && held == {} && Material() == {} && Coherent() && AfterwardsTracked()
    }

    lemma RetiredMeans()
      requires Retired()
      ensures zeroings == 1 && Tracked() && held == {} && Material() == {} && Coherent() && AfterwardsTracked()
    {
      assert Unlocked(SessionSeal);
    }

    lemma MeansRetired()
      requires zeroings == 1 && Tracked() && held == {} && Material() == {} && Coherent() && AfterwardsTracked()
      ensures Retired()
    {
    }

    /** A session in service that is as the books say. */
    ghost predicate Matches(e: Entry)
      reads this
    {
      forall k: Seal {:trigger Unlocked(k)} :: k.EntrySeal? && Unlocked(k) ==>
        InService() && View() == e.view && held == e.held
    }

    // -------------------------------------------------------------- transports

    /** Runs the cleanups of the transports under `keys` and forgets them. */
    method ReleaseTransports(keys: set<string>)
      requires Accounted() && keys <= transports.Keys
      modifies this`transports, this`cleanups
      ensures Accounted()
      ensures transports == old(transports) - keys
    {
      var todo := keys;
      while todo != {}
        invariant todo <= keys
        invariant transports == old(transports) - (keys - todo)
        invariant Accounted()
      {
        var k :| k in todo;
        todo := todo - {k};
        if transports[k].ownsPool {
          cleanups := cleanups + multiset{transports[k]};
        }
        transports := transports - {k};
      }
    }

    /** dropTransportsLocked: with nothing cached, every transport ever built that owns a connection pool has been cleaned up
        exactly once. */
    method DropTransports()
      requires Accounted()
      modifies this`transports, this`cleanups
      ensures Coherent() && transports == map[]
      ensures forall rt <- built :: cleanups[rt] == if rt.ownsPool then 1 else 0
    {
      ReleaseTransports(transports.Keys);
      assert transports == map[];
    }

    /** dropSupersededTransportsLocked. */
    method DropSuperseded(key: string)
      requires Accounted()
      modifies this`transports, this`cleanups
      ensures Accounted() && transports == WithoutSuperseded(old(transports), key)
    {
      ReleaseTransports(set k | k in transports && Superseded(k, key));
    }

    /** Caches a transport just built under a key nothing cached clashes with. */
    method Cache(rt: RoundTripper)
      requires Accounted() && rt.serial == serial && rt.key !in transports
      requires forall k | k in transports :: !Superseded(k, rt.key) && !Superseded(rt.key, k)
      modifies this`transports, this`built, this`serial
      ensures Accounted() && transports == old(transports)[rt.key := rt] && rt !in old(built) && old(built) <= built
    {
      serial := serial + 1;
      built := built + {rt};
      transports := transports[rt.key := rt];
    }

    /** What transportFor does when nothing is cached for `key`: older versions of the upstream go, and one is built from the
        current credential. */
    method Build(key: string, factory: ClientFactory, pemOk: bool) returns (result: Option<RoundTripper>)
      requires Coherent() && key !in transports && BuiltFor(key, factory)
      modifies this`transports, this`cleanups, this`built, this`serial
      ensures Coherent()
      ensures Answers(old(transports), key, factory, pemOk, credential, result, transports)
      ensures old(built) <= built && (result.Some? ==> result.value !in old(built))
    {
      DropSuperseded(key);
      result := factory.TransportFor(credential, pemOk, key, serial);
      StillMatched(old(transports), key, factory, result);
      if result.Some? {
        Cache(result.value);
      }
    }

    /** transportFor: the cached transport for `key`, or one built now. The session may have been zeroed in the meantime;
        nothing in the source asks. */
    method TransportFor(key: string, factory: ClientFactory, pemOk: bool) returns (result: Option<RoundTripper>)
      requires Coherent() && AfterwardsTracked() && BuiltFor(key, factory)
      modifies this`transports, this`cleanups, this`built, this`serial, this`late
      ensures Coherent() && AfterwardsTracked()
      ensures Answers(old(transports), key, factory, pemOk, credential, result, transports)
      ensures key !in old(transports) && result.Some? ==> result.value !in old(built)
      ensures late == if zeroings == 0 then [] else old(late) + [Attempt(key, pemOk)]
    {
      if key in transports {
        result := Some(transports[key]);
      } else {
        result := Build(key, factory, pemOk);
      }
      if zeroings > 0 {
        CachedLateAfter(old(transports), key, factory, pemOk, credential, result, transports, late);
        late := late + [Attempt(key, pemOk)];
      }
    }

    /** The same, seen from the store: asking for a transport keeps a session in service, and does not bring one back. */
    method KnownTransportFor(key: string, factory: ClientFactory, pemOk: bool) returns (result: Option<RoundTripper>)
      requires InService() || Retired()
      requires BuiltFor(key, factory)
      modifies this`transports, this`cleanups, this`built, this`serial, this`late
      ensures old(InService()) ==> InService()
      ensures old(Retired()) ==> Retired() && late == old(late) + [Attempt(key, pemOk)]
      ensures View() == old(View())
      ensures Answers(old(transports), key, factory, pemOk, credential, result, transports)
      ensures key !in old(transports) && result.Some? ==> result.value !in old(built)
    {
      ghost var serving, retired := InService(), Retired();
      if serving { InServiceMeans(); }
      if retired { RetiredMeans(); }
      result := TransportFor(key, factory, pemOk);
      if serving { MeansInService(); }
      if retired { MeansRetired(); }
    }

    // -------------------------------------------------------------- credential

    method RefreshTokenCopy() returns (copy: array?<byte>)
      ensures copy == null <==> refreshToken == null
      ensures copy != null ==> fresh(copy) && copy[..] == refreshToken[..]
    {
      if refreshToken == null {
        return null;
      }
      var out := new byte[refreshToken.Length];
      for i := 0 to out.Length
        invariant out[..i] == refreshToken[..i]
      {
        out[i] := refreshToken[i];
      }
      copy := out;
    }

    method ReplaceMaterial(cred: Credential, newRefreshToken: array?<byte>)
      requires Tracked() && Separate() && held !! cred.Material() + Backing(newRefreshToken)
      requires cred.Material() !! Backing(newRefreshToken)
      modifies `credential, `refreshToken, `held, held
      ensures Tracked() && Separate() && credential == cred
      ensures cred.Material() + Backing(newRefreshToken) <= held <= old(held) + cred.Material() + Backing(newRefreshToken)
      ensures refreshToken == if newRefreshToken != null then newRefreshToken else old(refreshToken)
      ensures forall a <- old(held) :: if a in held then a[..] == old(a[..]) else Erased(a)
    {
      credential := ZeroCredential(credential);
      credential := cred;
      if newRefreshToken != null {
        ZeroBytes(refreshToken);
        refreshToken := newRefreshToken;
      }
      held := Material();
    }

    method RenewMaterial(cred: Credential, newRefreshToken: array?<byte>)
      requires InService() && held !! cred.Material() + Backing(newRefreshToken)
      requires cred.Material() !! Backing(newRefreshToken)
      modifies `credential, `refreshToken, `held, held
      ensures zeroings == 0 && late == [] && Tracked() && Separate() && Accounted() && credential == cred
      ensures cred.Material() + Backing(newRefreshToken) <= held <= old(held) + cred.Material() + Backing(newRefreshToken)
      ensures refreshToken == if newRefreshToken != null then newRefreshToken else old(refreshToken)
      ensures forall a <- old(held) :: if a in held then a[..] == old(a[..]) else Erased(a)
    {
      InServiceMeans();
      ReplaceMaterial(cred, newRefreshToken);
    }

    /** applyRefresh: the old credential is erased, the old refresh token only if the provider sent a new one, and
        every transport goes, since it embeds the old token. */
    method ApplyRefresh(cred: Credential, newRefreshToken: array?<byte>, maxLifetime: int)
      requires InService() && held !! cred.Material() + Backing(newRefreshToken)
      requires cred.Material() !! Backing(newRefreshToken)
      modifies `credential, `refreshToken, `held, `transports, `cleanups, `expiresAt, held
      ensures InService() && transports == map[] && late == old(late)
      ensures cred.Material() + Backing(newRefreshToken) <= held <= old(held) + cred.Material() + Backing(newRefreshToken)
      ensures forall a <- old(held) :: if a in held then a[..] == old(a[..]) else Erased(a)
      ensures credential == cred
      ensures refreshToken == if newRefreshToken != null then newRefreshToken else old(refreshToken)
      ensures lastSeen == old(lastSeen)
      ensures expiresAt == EffectiveExpiry(createdAt, maxLifetime, cred.expiresAt)
    {
      RenewMaterial(cred, newRefreshToken);
      DropTransports();
      expiresAt := EffectiveExpiry(createdAt, maxLifetime, cred.expiresAt);
      MeansInService();
    }

    method Touch(stamp: int)
      requires InService()
      modifies `lastSeen
      ensures InService() && lastSeen == stamp
    {
      assert Unlocked(SessionSeal);
      lastSeen := stamp;
    }

    method WipeMaterial()
      requires Tracked()
      modifies `credential, `refreshToken, `held, held
      ensures credential == old(credential).Stripped() && refreshToken == null
      ensures Tracked() && held == {}
      ensures forall a <- old(held) :: Erased(a)
    {
      credential := ZeroCredential(credential);
      ZeroBytes(refreshToken);
      refreshToken := null;
      held := {};
    }

    method Empty()
      requires InService()
      modifies `credential, `refreshToken, `held, `transports, `cleanups, held
      ensures zeroings == 0 && late == [] && Tracked() && held == {} && Material() == {} && Coherent() && transports == map[]
      ensures forall a <- old(held) :: Erased(a)
      ensures credential == old(credential).Stripped()
    {
      InServiceMeans();
      WipeMaterial();
      DropTransports();
    }

    /** zero: wipes every piece of credential material and releases the transports. */
    method Zero()
      requires InService()
      modifies `credential, `refreshToken, `held, `transports, `cleanups, `zeroings, `builtInService, held
      ensures Retired() && late == [] && transports == map[] && builtInService == built
      ensures forall a <- old(held) :: Erased(a)
      ensures credential == old(credential).Stripped() && lastSeen == old(lastSeen) && expiresAt == old(expiresAt)
    {
      Empty();
      zeroings, builtInService := zeroings + 1, built;
      NothingLate(credential.kind);
      MeansRetired();
    }
  }
}
