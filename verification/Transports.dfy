/** Transports built from a credential, the keys a session caches them under, and the provider of the
    Antrea Service's client factory (pkg/k8s/factory.go, pkg/handlers/antreasvc/client.go). */
module Transports {
  import opened Wrappers
  import opened Credentials

  /** An http.RoundTripper. `serial` is its identity; `ownsPool` says whether it comes with a cleanup function. */
  datatype RoundTripper = RoundTripper(
    serial: nat,
    key: string,
    builtFrom: Credential,
    generation: nat,
    ownsPool: bool)

  /** Whether a transport can be built for a kind of credential: a bearer or an impersonating one always, one for a
      certificate when client-go accepts its PEM (`pemOk`). */
  predicate Builds(kind: Kind, pemOk: bool) {
    kind.Bearer? || kind.Impersonate? || (kind.Cert? && pemOk)
  }

  /** A k8s.ClientFactory, identified by the CA bundle generation it was built for. */
  datatype ClientFactory = ClientFactory(generation: nat)
  {
    /** ClientFactory.TransportFor. A bearer or an impersonating transport always succeeds and shares a pool; a
        certificate transport owns its pool and is refused when its PEM does not parse (`pemOk`). */
    function TransportFor(cred: Credential, pemOk: bool, key: string, serial: nat): (rt: Option<RoundTripper>)
      ensures rt.Some? <==> Builds(cred.kind, pemOk)
      ensures rt.Some? ==> rt.value.builtFrom == cred && rt.value.generation == generation
      ensures rt.Some? ==> (rt.value.ownsPool <==> cred.kind.Cert?)
    {
      match cred.kind
      case Bearer => Some(RoundTripper(serial, key, cred, generation, false))
      case Cert => if pemOk then Some(RoundTripper(serial, key, cred, generation, true)) else None
      case Impersonate => Some(RoundTripper(serial, key, cred, generation, false))
      case Unsupported => None
    }
  }

  // ---------------------------------------------------------------- keys

  /** strings.Cut(key, "/"): the part before the first slash, and whether there is a slash at all. */
  function TransportUpstream(key: string): (result: (string, bool))
    ensures result.1 <==> '/' in key
    ensures '/' !in result.0
    ensures result.1 ==> |result.0| < |key| && key[..|result.0| + 1] == result.0 + "/"
    ensures !result.1 ==> result.0 == key
  {
    if key == "" then ("", false)
    else if key[0] == '/' then ("", true)
    else
      var (upstream, versioned) := TransportUpstream(key[1..]);
      ([key[0]] + upstream, versioned)
  }

  function Decimal(n: nat): (digits: string)
    ensures digits != ""
    ensures forall c <- digits :: '0' <= c <= '9'
  {
    var digit := [('0' as int + n % 10) as char];
    if n < 10 then digit else Decimal(n / 10) + digit
  }

  /** Two generations never print alike, so a rotation always changes the cache key. */
  lemma {:induction false} DecimalInjective(m: nat, n: nat)
    requires Decimal(m) == Decimal(n)
    ensures m == n
  {
    var s := Decimal(m);
    assert s[|s| - 1] == ('0' as int + m % 10) as char == ('0' as int + n % 10) as char;
    if m < 10 || n < 10 {
    } else {
      assert s[..|s| - 1] == Decimal(m / 10) == Decimal(n / 10);
      DecimalInjective(m / 10, n / 10);
    }
  }

  const TRANSPORT_KEY_K8S := "k8s"

  const ANTREA_UPSTREAM := "antreasvc"

  /** transportKey: the Antrea Service's key for one CA bundle generation. */
  function TransportKey(generation: nat): string {
    ANTREA_UPSTREAM + "/" + Decimal(generation)
  }

  lemma UpstreamOfPrefixed(upstream: string, version: string)
    requires '/' !in upstream
    ensures TransportUpstream(upstream + "/" + version) == (upstream, true)
  {
    var key := upstream + "/" + version;
    var n := |upstream|;
    assert key[n] == '/' && key[..n] == upstream;
    var u := TransportUpstream(key).0;
    var prefix := key[..|u| + 1];
    assert prefix == u + "/" && prefix[|u|] == '/' && prefix[..|u|] == u;
  }

  /** All Antrea keys name one versioned upstream, distinct generations have distinct keys, and the API
      server's key is unversioned, so it neither supersedes nor is superseded. */
  lemma TransportKeys(g: nat, h: nat)
    ensures TransportUpstream(TransportKey(g)) == (ANTREA_UPSTREAM, true)
    ensures TransportKey(g) == TransportKey(h) <==> g == h
    ensures !TransportUpstream(TRANSPORT_KEY_K8S).1 && TransportKey(g) != TRANSPORT_KEY_K8S
  {
    UpstreamOfPrefixed(ANTREA_UPSTREAM, Decimal(g));
    if TransportKey(g) == TransportKey(h) {
      var n := |ANTREA_UPSTREAM| + 1;
      assert Decimal(g) == TransportKey(g)[n..] == TransportKey(h)[n..] == Decimal(h);
      DecimalInjective(g, h);
    }
  }

  /** Whether a transport cached under `cached` gives way to one built for `key`. */
  predicate Superseded(cached: string, key: string) {
    TransportUpstream(key).1 && cached != key && TransportUpstream(cached) == TransportUpstream(key)
  }

  /** Superseding is a matter of one versioned upstream: its other versions, and nothing else. */
  lemma SupersededIsAnotherVersion(upstream: string, version: string, upstream': string, version': string)
    requires '/' !in upstream && '/' !in upstream'
    ensures Superseded(upstream + "/" + version, upstream' + "/" + version') <==> upstream == upstream' && version != version'
    ensures !Superseded(upstream, upstream' + "/" + version') && !Superseded(upstream + "/" + version, upstream')
    ensures !Superseded(upstream, upstream')
  {
    var cached, key := upstream + "/" + version, upstream' + "/" + version';
    UpstreamOfPrefixed(upstream, version);
    UpstreamOfPrefixed(upstream', version');
    assert cached[|upstream| + 1..] == version && key[|upstream'| + 1..] == version';
  }

  /** What is left of a transport cache once a new version of key's upstream has superseded the others. */
  function WithoutSuperseded(cache: map<string, RoundTripper>, key: string): map<string, RoundTripper> {
    map k | k in cache && !Superseded(k, key) :: cache[k]
  }

  /** What transportFor leaves cached when it finds nothing under a key. */
  function AfterMiss(cache: map<string, RoundTripper>, key: string, built: Option<RoundTripper>): map<string, RoundTripper> {
    if built.Some? then WithoutSuperseded(cache, key)[key := built.value] else WithoutSuperseded(cache, key)
  }

  /** Antrea Service transports sit under the key of the factory generation that built them. */
  ghost predicate GenerationsMatch(cache: map<string, RoundTripper>) {
    forall p: Seal {:trigger Unlocked(p)} :: p.GenerationSeal? && Unlocked(p) ==>
      forall g: nat | TransportKey(g) in cache :: cache[TransportKey(g)].generation == g
  }

  /** Caching a transport keeps that true if an Antrea key only ever goes with its own generation, whatever is cached
      under the API server's key; and it leaves the API server's transport alone. */
  lemma GenerationsStayMatched(cache: map<string, RoundTripper>, key: string, rt: RoundTripper)
    requires GenerationsMatch(cache) && forall g: nat | key == TransportKey(g) :: rt.generation == g
    ensures GenerationsMatch(WithoutSuperseded(cache, key)) && GenerationsMatch(WithoutSuperseded(cache, key)[key := rt])
    ensures TRANSPORT_KEY_K8S in cache ==> TRANSPORT_KEY_K8S in WithoutSuperseded(cache, key)
    ensures forall g: nat, h: nat | key == TransportKey(g) && TransportKey(h) in WithoutSuperseded(cache, key) :: g == h
  {
    assert Unlocked(GenerationSeal);
    TransportKeys(0, 0);
    forall g: nat, h: nat | key == TransportKey(g) && TransportKey(h) in WithoutSuperseded(cache, key)
      ensures g == h
    {
      TransportKeys(g, h);
      TransportKeys(h, g);
    }
  }

  /** What callers see to: an Antrea key goes with the factory of its own generation. */
  ghost predicate BuiltFor(key: string, factory: ClientFactory) {
    forall g: nat | key == TransportKey(g) :: factory.generation == g
  }

  lemma StillMatched(cache: map<string, RoundTripper>, key: string, factory: ClientFactory, built: Option<RoundTripper>)
    requires GenerationsMatch(cache) && BuiltFor(key, factory)
    requires built.Some? ==> built.value.generation == factory.generation
    ensures GenerationsMatch(WithoutSuperseded(cache, key)) && GenerationsMatch(AfterMiss(cache, key, built))
  {
    var credential := Credential(Bearer, null, null, null, "", None);
    var rt := if built.Some? then built.value else RoundTripper(0, key, credential, factory.generation, false);
    GenerationsStayMatched(cache, key, rt);
  }

  lemma OfferedTogether(generation: nat)
    ensures BuiltFor(TransportKey(generation), ClientFactory(generation))
  {
    forall g: nat | TransportKey(generation) == TransportKey(g) ensures generation == g {
      TransportKeys(generation, g);
    }
  }

  /** Where no cached version supersedes another, the transport of a generation is the only Antrea one, and of that
      generation. */
  lemma OnlyGeneration(cache: map<string, RoundTripper>, generation: nat)
    requires GenerationsMatch(cache) && TransportKey(generation) in cache
    requires forall j, k | j in cache && k in cache :: !Superseded(j, k)
    ensures cache[TransportKey(generation)].generation == generation
    ensures forall g: nat | TransportKey(g) in cache :: g == generation
  {
    assert Unlocked(GenerationSeal);
    forall g: nat | TransportKey(g) in cache ensures g == generation {
      TransportKeys(g, generation);
      TransportKeys(generation, g);
      assert !Superseded(TransportKey(g), TransportKey(generation));
    }
  }

  /** Asking for an Antrea transport leaves the API server's alone. */
  lemma ApiServerSpared(cache: map<string, RoundTripper>, generation: nat, built: Option<RoundTripper>)
    ensures var after := AfterMiss(cache, TransportKey(generation), built);
            TRANSPORT_KEY_K8S in cache ==> TRANSPORT_KEY_K8S in after && after[TRANSPORT_KEY_K8S] == cache[TRANSPORT_KEY_K8S]
  {
    TransportKeys(generation, generation);
  }

  // ---------------------------------------------------------------- after the session has ended

  /** A call for a transport: what it asks for, and whether client-go would accept a certificate's PEM. */
  datatype Attempt = Attempt(key: string, pemOk: bool)

  /** Some call for this key can build a transport, and none after it asked for another version of the same upstream. */
  ghost predicate Survives(kind: Kind, late: seq<Attempt>, key: string) {
    exists i | 0 <= i < |late| ::
      late[i].key == key && Builds(kind, late[i].pemOk) && forall j | i < j < |late| :: !Superseded(key, late[j].key)
  }

  /** What is cached is what these calls can build and have not superseded since. */
  ghost predicate CachedLate(cache: map<string, RoundTripper>, kind: Kind, late: seq<Attempt>) {
    forall p: Seal {:trigger Unlocked(p)} :: p.LateSeal? && Unlocked(p) ==>
      && (forall k | k in cache :: Survives(kind, late, k))
      && (forall k | Survives(kind, late, k) :: k in cache)
  }

  lemma NothingLate(kind: Kind)
    ensures CachedLate(map[], kind, [])
  {
  }

  lemma SurvivesSnoc(kind: Kind, late: seq<Attempt>, a: Attempt, key: string)
    ensures Survives(kind, late + [a], key)
       <==> (Survives(kind, late, key) && !Superseded(key, a.key)) || (a.key == key && Builds(kind, a.pemOk))
  {
    var late' := late + [a];
    if Survives(kind, late, key) && !Superseded(key, a.key) {
      var i :| 0 <= i < |late| && late[i].key == key && Builds(kind, late[i].pemOk) && forall j | i < j < |late| :: !Superseded(key, late[j].key);
      assert late'[i] == late[i];
      assert forall j | i < j < |late'| :: !Superseded(key, late'[j].key);
    }
    if a.key == key && Builds(kind, a.pemOk) {
      assert late'[|late|] == a;
    }
    if Survives(kind, late', key) {
      var i :| 0 <= i < |late'| && late'[i].key == key && Builds(kind, late'[i].pemOk) && forall j | i < j < |late'| :: !Superseded(key, late'[j].key);
      if i < |late| {
        assert late[i] == late'[i] && late'[|late|] == a;
        assert forall j | i < j < |late| :: late'[j] == late[j];
      }
    }
  }

  /** What transportFor answers, and leaves cached: what is cached already if there is something, and otherwise a transport
      exactly if one can be built. */
  ghost predicate Answers(before: map<string, RoundTripper>, key: string, factory: ClientFactory, pemOk: bool, credential: Credential,
                          rt: Option<RoundTripper>, after: map<string, RoundTripper>)
  {
    && (key in before ==> rt == Some(before[key]) && after == before)
    && (key !in before ==>
          && (rt.Some? <==> Builds(credential.kind, pemOk))
          && after == AfterMiss(before, key, rt)
          && (rt.Some? ==> rt.value.generation == factory.generation))
    && (rt.Some? ==> rt.value.builtFrom == credential && (rt.value.ownsPool <==> credential.kind.Cert?))
  }

  /** What the Antrea Service's request gets that is offered one generation: a transport of that generation, exactly if one is
      cached or can be built, and cached as the only one of the Antrea Service; the API server's stays. */
  ghost predicate AntreaAnswer(before: map<string, RoundTripper>, generation: nat, pemOk: bool, credential: Credential,
                               rt: Option<RoundTripper>, after: map<string, RoundTripper>)
  {
    var key := TransportKey(generation);
    && (rt.Some? <==> key in before || Builds(credential.kind, pemOk))
    && (key in before ==> rt == Some(before[key]) && after == before)
    && (rt.Some? ==>
          && rt.value.generation == generation && rt.value.builtFrom == credential
          && key in after && after[key] == rt.value
          && forall g: nat | TransportKey(g) in after :: g == generation)
    && (TRANSPORT_KEY_K8S in before ==> TRANSPORT_KEY_K8S in after && after[TRANSPORT_KEY_K8S] == before[TRANSPORT_KEY_K8S])
  }

  lemma AntreaAnswered(before: map<string, RoundTripper>, generation: nat, pemOk: bool, credential: Credential,
                       rt: Option<RoundTripper>, after: map<string, RoundTripper>)
    requires Answers(before, TransportKey(generation), ClientFactory(generation), pemOk, credential, rt, after)
    requires GenerationsMatch(after) && forall j, k | j in after && k in after :: !Superseded(j, k)
    ensures AntreaAnswer(before, generation, pemOk, credential, rt, after)
  {
    ApiServerSpared(before, generation, rt);
    if rt.Some? {
      OnlyGeneration(after, generation);
    }
  }

  /** One more call. */
  lemma CachedLateAfter(before: map<string, RoundTripper>, key: string, factory: ClientFactory, pemOk: bool, credential: Credential,
                        rt: Option<RoundTripper>, after: map<string, RoundTripper>, late: seq<Attempt>)
    requires CachedLate(before, credential.kind, late) && Answers(before, key, factory, pemOk, credential, rt, after)
    requires forall j, k | j in before && k in before :: !Superseded(j, k)
    ensures CachedLate(after, credential.kind, late + [Attempt(key, pemOk)])
  {
    assert Unlocked(LateSeal);
    var a := Attempt(key, pemOk);
    forall k | k in after ensures Survives(credential.kind, late + [a], k) {
      SurvivesSnoc(credential.kind, late, a, k);
    }
    forall k | Survives(credential.kind, late + [a], k) ensures k in after {
      SurvivesSnoc(credential.kind, late, a, k);
    }
  }

  // ---------------------------------------------------------------- the Antrea factory provider

  class AntreaClientFactoryProvider {
    var factory: Option<ClientFactory>
    var generation: nat

    /** The factory on offer was built for the generation on offer. */
    ghost predicate Valid()
      reads this
    {
      factory.Some? ==> factory.value.generation == generation
    }

    constructor ()
      ensures Valid() && factory == None && generation == 0
    {
      factory := None;
      generation := 0;
    }

    /** updateClientFactory: `hasBundle` is whether the CA provider has a bundle yet, `built` whether the
        kubeconfig, the SA transport and the factory could all be built from it. */
    method UpdateClientFactory(hasBundle: bool, built: bool)
      requires Valid()
      modifies this
      ensures Valid()
      ensures hasBundle && built ==> factory.Some? && generation == old(generation) + 1
      ensures !(hasBundle && built) ==> factory == old(factory) && generation == old(generation)
    {
      if !hasBundle || !built {
        return;
      }
      generation := generation + 1;
      factory := Some(ClientFactory(generation));
    }

    method GetClientFactory() returns (result: Option<(ClientFactory, nat)>)
      requires Valid()
      ensures result.Some? <==> factory.Some?
      ensures result.Some? ==> result.value.0.generation == result.value.1 == generation
    {
      match factory {
        case None => result := None;
        case Some(f) => result := Some((f, generation));
      }
    }
  }
}
