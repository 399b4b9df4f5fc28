/** What a user may paste to log in, and the credential it holds (pkg/k8s/credentials.go). Whatever is refused here is refused
    as it is: nothing is erased. */
module KubeCredentials {
  import opened Wrappers
  import opened Credentials

  datatype CertReading = NotPem | NotX509 | ValidUntil(notAfter: int)

  /** What the libraries find in some bytes: whether they are only white space, the exp claim of a JWT, a certificate, and
      whether they begin a PEM block. */
  datatype Libraries = Libraries(
    blank: seq<byte> -> bool,
    jwtExpiry: seq<byte> -> Option<int>,
    x509: seq<byte> -> CertReading,
    isPem: seq<byte> -> bool)

  /** A user of a kubeconfig; the token as the array its text is converted to. */
  datatype AuthInfo = AuthInfo(
    exec: bool,
    authProvider: bool,
    token: array?<byte>,
    tokenFile: bool,
    certData: array?<byte>,
    keyData: array?<byte>,
    certFiles: bool,
    basicAuth: bool)
  {
    ghost function Material(): set<array<byte>> {
      Backing(token) + Backing(certData) + Backing(keyData)
    }
  }

  /** A kubeconfig that was loaded. */
  datatype Config = Config(currentContext: string, contexts: map<string, string>, authInfos: map<string, AuthInfo>)
  {
    ghost function Material(): set<array<byte>> {
      set user, a | user in authInfos && a in authInfos[user].Material() :: a
    }
  }

  datatype ParseError =
    | NotLoaded | NoCurrentContext | NoSuchContext | NoSuchUser
    | ExecPlugin | AuthProvider | TokenIsFile | CertIsFiles | BasicAuth | NothingUsable
    | EmptyToken | CertNotPem | CertNotX509 | CertExpired | KeyNotPem

  datatype Decoded = Ok(credential: Credential) | Failed(error: ParseError)

  predicate Given(b: array?<byte>) {
    b != null && b.Length > 0
  }

  // ---------------------------------------------------------------- which credentials are taken

  ghost predicate HasCurrentUser(cfg: Config) {
    && cfg.currentContext != "" && cfg.currentContext in cfg.contexts
    && cfg.contexts[cfg.currentContext] in cfg.authInfos
  }

  /** The user that the current context names. */
  ghost function CurrentUser(cfg: Config): (a: AuthInfo)
    requires HasCurrentUser(cfg)
    ensures a.Material() <= cfg.Material()
  {
    cfg.authInfos[cfg.contexts[cfg.currentContext]]
  }

  /** The user has a token to present, and it is not blank. */
  ghost predicate HasToken(lib: Libraries, a: AuthInfo)
    reads Backing(a.token)
  {
    !a.exec && !a.authProvider && a.token != null && a.token.Length > 0 && !lib.blank(a.token[..])
  }

  /** The user has no token, and a certificate that has not expired, with a key. */
  ghost predicate HasCertificate(lib: Libraries, a: AuthInfo, now: int)
    reads Backing(a.certData), Backing(a.keyData)
  {
    && !a.exec && !a.authProvider && (a.token == null || a.token.Length == 0) && !a.tokenFile
    && a.certData != null && a.certData.Length > 0 && a.keyData != null && a.keyData.Length > 0
    && GoodCertificate(lib, a.certData, a.keyData, now)
  }

  ghost predicate GoodCertificate(lib: Libraries, certPEM: array<byte>, keyPEM: array<byte>, now: int)
    reads certPEM, keyPEM
  {
    lib.x509(certPEM[..]).ValidUntil? && now <= lib.x509(certPEM[..]).notAfter && lib.isPem(keyPEM[..])
  }

  /** The arrays of the credential that is taken. */
  ghost function Presented(a: AuthInfo): set<array<byte>> {
    if a.token != null && a.token.Length > 0 then {a.token} else Backing(a.certData) + Backing(a.keyData)
  }

  method BearerCredential(lib: Libraries, token: array<byte>) returns (r: Decoded)
    ensures r.Ok? <==> !lib.blank(token[..])
    ensures r.Ok? ==> r.credential == Credential(Bearer, token, null, null, "", lib.jwtExpiry(token[..]))
  {
    if lib.blank(token[..]) {
      return Failed(EmptyToken);
    }
    r := Ok(Credential(Bearer, token, null, null, "", lib.jwtExpiry(token[..])));
  }

  method CertCredential(lib: Libraries, certPEM: array<byte>, keyPEM: array<byte>, now: int) returns (r: Decoded)
    ensures r.Ok? <==> GoodCertificate(lib, certPEM, keyPEM, now)
    ensures r.Ok? ==> r.credential == Credential(Cert, null, certPEM, keyPEM, "", Some(lib.x509(certPEM[..]).notAfter))
  {
    match lib.x509(certPEM[..])
    case NotPem => return Failed(CertNotPem);
    case NotX509 => return Failed(CertNotX509);
    case ValidUntil(notAfter) =>
      if now > notAfter {
        return Failed(CertExpired);
      }
      if !lib.isPem(keyPEM[..]) {
        return Failed(KeyNotPem);
      }
      r := Ok(Credential(Cert, null, certPEM, keyPEM, "", Some(notAfter)));
  }

  /** The switch of CredentialFromKubeconfig: a credential exactly if the user has one that can be presented as it is, a token
      before a certificate. It is made of the user's own arrays; a certificate taken has not expired, a token is not asked. */
  method CredentialOf(lib: Libraries, a: AuthInfo, now: int) returns (r: Decoded)
    ensures r.Ok? <==> HasToken(lib, a) || HasCertificate(lib, a, now)
    ensures r.Ok? ==> r.credential.Material() == Presented(a)
    ensures r.Ok? ==> r.credential.kind == if HasToken(lib, a) then Bearer else Cert
    ensures r.Ok? && !HasToken(lib, a) ==> r.credential.expiresAt.Some? && now <= r.credential.expiresAt.value
  {
    if a.exec {
      r := Failed(ExecPlugin);
    } else if a.authProvider {
      r := Failed(AuthProvider);
    } else if Given(a.token) {
      r := BearerCredential(lib, a.token);
    } else if a.tokenFile {
      r := Failed(TokenIsFile);
    } else if Given(a.certData) && Given(a.keyData) {
      r := CertCredential(lib, a.certData, a.keyData, now);
    } else if a.certFiles {
      r := Failed(CertIsFiles);
    } else if a.basicAuth {
      r := Failed(BasicAuth);
    } else {
      r := Failed(NothingUsable);
    }
  }

  ghost function Pasted(cfg: Option<Config>): set<array<byte>> {
    if cfg.Some? then cfg.value.Material() else {}
  }

  /** The kubeconfig holds a credential that can be presented as it is, for the user of its current context. */
  ghost predicate Usable(lib: Libraries, cfg: Option<Config>, now: int)
    reads Pasted(cfg)
  {
    && cfg.Some? && HasCurrentUser(cfg.value)
    && var a := CurrentUser(cfg.value);
       HasToken(lib, a) || HasCertificate(lib, a, now)
  }

  /** CredentialFromKubeconfig; `cfg` is what the text loads to, if it does. */
  method CredentialFromKubeconfig(lib: Libraries, cfg: Option<Config>, now: int) returns (r: Decoded)
    ensures r.Ok? <==> Usable(lib, cfg, now)
    ensures r.Ok? ==> r.credential.Material() == Presented(CurrentUser(cfg.value))
  {
    if cfg == None {
      return Failed(NotLoaded);
    }
    var contextName := cfg.value.currentContext;
    if contextName == "" {
      return Failed(NoCurrentContext);
    }
    if contextName !in cfg.value.contexts {
      return Failed(NoSuchContext);
    }
    var user := cfg.value.contexts[contextName];
    if user !in cfg.value.authInfos {
      return Failed(NoSuchUser);
    }
    var a := cfg.value.authInfos[user];
    assert a == CurrentUser(cfg.value);
    r := CredentialOf(lib, a, now);
  }
}
