/** Credential material and its in-place erasure (pkg/auth/session/session.go).

    A Go byte slice is a nullable array here, so that two holders of the same slice share its bytes and
    erasing one erases the other. Instants are integers (nanoseconds); `None` is the zero time. */
module Credentials {
  import opened Wrappers

  newtype byte = x: int | 0 <= x < 256

  /** The set holding the array a slice refers to, empty for the nil slice. */
  ghost function Backing(b: array?<byte>): set<array<byte>> {
    if b == null then {} else {b}
  }

  ghost predicate Erased(a: array<byte>)
    reads a
  {
    forall i :: 0 <= i < a.Length ==> a[i] == 0
  }

  datatype Kind = Bearer | Cert | Impersonate | Unsupported

  datatype Mode = OIDC | Kubeconfig | Admin | SAToken

  datatype Credential = Credential(
    kind: Kind,
    token: array?<byte>,
    certPEM: array?<byte>,
    keyPEM: array?<byte>,
    userName: string,
    expiresAt: Option<int>)
  {
    ghost function Material(): set<array<byte>> {
      Backing(token) + Backing(certPEM) + Backing(keyPEM)
    }

    /** What is left of a credential once its slices have been dropped. */
    function Stripped(): Credential {
      this.(token := null, certPEM := null, keyPEM := null)
    }
  }

  /** A session to create; `refreshable` says whether the spec carries a Refresher. */
  datatype Spec = Spec(
    mode: Mode,
    credential: Credential,
    refreshToken: array?<byte>,
    username: string,
    refreshable: bool)
  {
    ghost function Material(): set<array<byte>> {
      credential.Material() + Backing(refreshToken)
    }

    /** No array serves both as credential material and as refresh token. */
    ghost predicate Separate() {
      credential.Material() !! Backing(refreshToken)
    }
  }

  method ZeroBytes(b: array?<byte>)
    modifies Backing(b)
    ensures b != null ==> forall i | 0 <= i < b.Length :: b[i] == 0
  {
    if b == null {
      return;
    }
    for i := 0 to b.Length
      invariant forall j :: 0 <= j < i ==> b[j] == 0
    {
      b[i] := 0;
    }
  }

  /** Credential.Zero: overwrites the material in place and drops the references. */
  method ZeroCredential(c: Credential) returns (stripped: Credential)
    modifies c.Material()
    ensures forall a <- c.Material() :: Erased(a)
    ensures (c.token != null ==> Erased(c.token)) && (c.certPEM != null ==> Erased(c.certPEM)) && (c.keyPEM != null ==> Erased(c.keyPEM))
    ensures stripped.token == null && stripped.certPEM == null && stripped.keyPEM == null
    ensures stripped.kind == c.kind && stripped.userName == c.userName && stripped.expiresAt == c.expiresAt
    ensures stripped.Material() == {} && stripped == c.Stripped()
  {
    ZeroBytes(c.token);
    ZeroBytes(c.certPEM);
    ZeroBytes(c.keyPEM);
    stripped := c.Stripped();
  }

  /** Spec.Zero: wipes the refresh token as well as the credential. */
  method ZeroSpec(spec: Spec) returns (stripped: Spec)
    modifies spec.Material()
    ensures forall a <- spec.Material() :: Erased(a)
    ensures spec.refreshToken != null ==> Erased(spec.refreshToken)
    ensures stripped.Material() == {} && stripped.refreshToken == null
    ensures stripped == spec.(credential := spec.credential.Stripped(), refreshToken := null)
  {
    var c := ZeroCredential(spec.credential);
    ZeroBytes(spec.refreshToken);
    stripped := spec.(credential := c, refreshToken := null);
  }
}
