/** The operation handlers of serverhandlers.js, up to the point where they read or change state. What a
    handler learns about a key is a KeyView: its row, with the stored ciphertext replaced by what unwrap
    returns for it. */
module Handlers {
  import opened Text
  import opened Acl
  import opened Kek
  import opened GenerateAcl

  const INVALID_REQUEST_DATA := 1100
  const KEY_NOT_FOUND := 1101
  const INCOMPATIBLE_KEY_TYPE := 1102
  const INVALID_INPUT_TOKEN := 1103
  const OPERATION_DISABLED := 1104
  const INVALID_ACL := 1105
  const KEY_NOT_AVAILABLE := 1106
  const OPERATION_NOT_PERMITTED := 1107
  const INTERNAL_ERROR := 1900

  const JWT_ALGS := ["HS256", "HS384", "HS512", "ES256", "ES384", "ES512", "RS256", "RS384", "RS512"]
  const JWE_ALGS := ["A128GCMKW", "A192GCMKW", "A256GCMKW", "A128KW", "A192KW", "A256KW", "ECDH-ES", "RSA-OAEP",
                     "RSA-OAEP-256", "ML-KEM-512@spinium.com", "ML-KEM-768@spinium.com", "ML-KEM-1024@spinium.com"]

  /** `detail` is empty for the registry message of the code. `masked` marks a denial to be audited. */
  datatype ApiError = ApiError(code: int, detail: string, masked: bool)

  function Fault(code: int): ApiError { ApiError(code, "", false) }

  function Explained(code: int, detail: string): ApiError { ApiError(code, detail, false) }

  /** The authenticated user. The id is the lower-case text of a UUID column. */
  datatype User = User(userId: string, mask: AllowedOps, coOwners: seq<JsValue>)

  predicate UserOk(u: User) { IsUuid(u.userId) && IsLower(u.userId) }

  // ---- requests ----

  datatype Field = Absent | Present(v: JsValue)

  datatype Header = Header(alg: JsValue, kid: Field, rest: string)

  /** A token text, and its protected header when that decodes to an object. */
  datatype TokenArg = TokenArg(text: string, header: Option<Header>)

  datatype KeySpec = KeySpec(alg: string, kty: string, jwkAlg: string)

  /** A timestamp member: absent, no safe integer, or an integer. */
  datatype TsField = NoTs | BadTs | Ts(v: int)

  datatype BoolField = NoBool | BadBool | Bool(b: bool)

  /** `spec` is what the algorithm matrix resolves the parameters to. */
  datatype GenParams = GenParams(spec: Result<KeySpec, string>, nbf: TsField, exp: TsField,
                                 acl: Option<AclInput>, returnPublicKey: BoolField)

  /** `extra`: the data is no object, or has a property the operation does not know. */
  datatype Request =
    | Healthcheck(extra: bool)
    | GenerateKey(extra: bool, gen: GenParams)
    | GetPublicKey(extra: bool, kid: Field)
    | CreateJwt(extra: bool, kid: Field, jwtPayload: Option<string>)
    | VerifyJwt(extra: bool, kid: Field, token: TokenArg)
    | CreateJwe(extra: bool, kid: Field, jwePayload: Option<string>, compress: Option<string>)
    | DecryptJwe(extra: bool, kid: Field, token: TokenArg)
    | RevokeKey(extra: bool, kid: Field)
    | ExportKey(extra: bool, kid: Field)
    | ListKeys(extra: bool)

  predicate OnKey(r: Request) { !r.Healthcheck? && !r.GenerateKey? && !r.ListKeys? }

  // ---- results ----

  datatype Listed = Listed(kid: Kid, kty: string, alg: string)

  datatype Data =
    | Uptime(seconds: int)
    | Generated(newKid: Kid, returned: Option<PublicJwk>)
    | PublicKeyData(publicKey: PublicJwk)
    | NoPublicKey
    | TokenData(text: string)
    | Opened(header: Header, payload: string)
    | Revoked(gone: Kid)
    | SecretKey(jwk: Jwk)
    | KeyList(keys: seq<Listed>)

  datatype Outcome = Done(data: Data) | Fail(error: ApiError)

  /** What the caller sees of an outcome: the masking mark is for the audit log only. */
  function Seen(o: Outcome): Outcome {
    if o.Fail? then Fail(o.error.(masked := false)) else o
  }

  // ---- libraries and configuration ----

  datatype KeyHalf = SecretHalf(jwk: Jwk) | PublicOnly(pub: PublicJwk)

  datatype SignResult = Signed(text: string) | InvalidClaim(message: string) | SignThrows

  datatype VerifyResult = Verified(payload: string) | Rejected(message: string)

  /** The JOSE libraries, as functions of their inputs and of a number that stands for their randomness. */
  datatype Lib = Lib(
    signJwt: (string, Jwk, string, nat) -> SignResult,
    verifyJwt: (string, KeyHalf, int) -> VerifyResult,
    encryptJwe: (string, KeyHalf, string, string, nat) -> Option<string>,
    decryptJwe: (string, Jwk) -> Option<string>,
    protectedHeader: string -> Option<Header>)

  /** A token text as it arrives in a request: the vault reads its header itself. */
  function Arrived(lib: Lib, text: string): TokenArg { TokenArg(text, lib.protectedHeader(text)) }

  datatype Policy = Policy(lib: Lib, allowExport: bool)

  // ---- before the key is loaded ----

  function RequireKid(f: Field): Result<Kid, ApiError> {
    if f.Present? && f.v.JsString? && IsUuid(f.v.s) then Ok(ToLower(f.v.s))
    else Err(Explained(INVALID_REQUEST_DATA, "Invalid kid"))
  }

  /** The request kid and the header kid, when both are there, must agree; one must be there. */
  function ResolveKid(f: Field, header: Header): Result<Kid, ApiError> {
    if f.Present? && RequireKid(f).Err? then RequireKid(f)
    else if header.kid.Present? && !(header.kid.v.JsString? && IsUuid(header.kid.v.s)) then
      Err(Fault(INVALID_INPUT_TOKEN))
    else
      var hdr := if header.kid.Present? then Some(ToLower(header.kid.v.s)) else None;
      if f.Present? && hdr.Some? && RequireKid(f).value != hdr.value then Err(Fault(INVALID_INPUT_TOKEN))
      else if f.Present? then RequireKid(f)
      else if hdr.Some? then Ok(hdr.value)
      else Err(Fault(INVALID_INPUT_TOKEN))
  }

  function TokenKid(f: Field, token: TokenArg): Result<Kid, ApiError> {
    if token.header.None? then Err(Fault(INVALID_INPUT_TOKEN)) else ResolveKid(f, token.header.value)
  }

  /** Every check a key operation makes before it looks at any key, and the key it then looks for. */
  function Target(p: Policy, r: Request): Result<Kid, ApiError>
    requires OnKey(r)
  {
    if r.extra then Err(Fault(INVALID_REQUEST_DATA))
    else
      match r
      case VerifyJwt(_, kid, token) => TokenKid(kid, token)
      case DecryptJwe(_, kid, token) => TokenKid(kid, token)
      case CreateJwt(_, kid, payload) =>
        if RequireKid(kid).Ok? && payload.None?
        then Err(Explained(INVALID_REQUEST_DATA, "JWT payload must be an object")) else RequireKid(kid)
      case CreateJwe(_, kid, payload, compress) =>
        if RequireKid(kid).Ok? && payload.None? then Err(Explained(INVALID_REQUEST_DATA, "JWE payload is required"))
        else if RequireKid(kid).Ok? && compress.None? then Err(Explained(INVALID_REQUEST_DATA, "Invalid compress"))
        else RequireKid(kid)
      case ExportKey(_, kid) =>
        if RequireKid(kid).Ok? && !p.allowExport then Err(Fault(OPERATION_DISABLED)) else RequireKid(kid)
      case _ => RequireKid(r.kid)
  }

  // ---- authorization ----

  datatype KeyView = KeyView(keyId: Kid, kty: string, alg: string, notBefore: Option<int>, expiresAt: Option<int>,
                             publicKey: Option<PublicJwk>, acl: Grants, secret: Result<Jwk, ExtractError>)

  function OpClass(r: Request): (cls: string)
    requires OnKey(r)
    ensures cls in KEY_OP_CLASSES
  {
    match r
    case GetPublicKey(_, _) => KEY_OP_CLASSES[4]
    case CreateJwt(_, _, _) => KEY_OP_CLASSES[2]
    case VerifyJwt(_, _, _) => KEY_OP_CLASSES[3]
    case CreateJwe(_, _, _, _) => KEY_OP_CLASSES[0]
    case DecryptJwe(_, _, _) => KEY_OP_CLASSES[1]
    case RevokeKey(_, _) => KEY_OP_CLASSES[6]
    case ExportKey(_, _) => KEY_OP_CLASSES[5]
  }

  predicate Expired(expiresAt: Option<int>, nowMs: int) { expiresAt.Some? && expiresAt.value <= nowMs }

  predicate InWindow(notBefore: Option<int>, expiresAt: Option<int>, nowMs: int) {
    !(notBefore.Some? && notBefore.value > nowMs) && !Expired(expiresAt, nowMs)
  }

  /** authorizedKey: a missing key, a denial and a key outside its window fail alike. */
  function Authorize(v: Option<KeyView>, u: User, opClass: string, nowMs: int): Result<KeyView, ApiError> {
    if v.None? then Err(Fault(KEY_NOT_FOUND))
    else if !Effective(u.mask, v.value.acl, u.userId, opClass) then Err(ApiError(KEY_NOT_FOUND, "", true))
    else if !InWindow(v.value.notBefore, v.value.expiresAt, nowMs) then Err(Fault(KEY_NOT_FOUND))
    else Ok(v.value)
  }

  // ---- after authorization ----

  /** unwrapKey: only a missing KEK is told apart; other failures are internal errors. */
  function UnwrapFailure(e: ExtractError): Outcome {
    Fail(Fault(if e.KekUnavailable? then KEY_NOT_AVAILABLE else INTERNAL_ERROR))
  }

  /** The key that a public operation uses: the public half, or the secret of a symmetric key. */
  function UsableHalf(v: KeyView): Result<KeyHalf, Outcome> {
    if v.kty == "oct" then
      if v.secret.Ok? then Ok(SecretHalf(v.secret.value)) else Err(UnwrapFailure(v.secret.error))
    else if v.publicKey.Some? then Ok(PublicOnly(v.publicKey.value))
    else Err(Fail(Fault(INTERNAL_ERROR)))
  }

  function SignAfter(p: Policy, v: KeyView, payload: string, rnd: nat): Outcome {
    if v.alg !in JWT_ALGS then Fail(Fault(INCOMPATIBLE_KEY_TYPE))
    else if v.secret.Err? then UnwrapFailure(v.secret.error)
    else
      match p.lib.signJwt(v.alg, v.secret.value, payload, rnd)
      case Signed(t) => Done(TokenData(t))
      case InvalidClaim(m) => Fail(Explained(INVALID_REQUEST_DATA, m))
      case SignThrows => Fail(Fault(INTERNAL_ERROR))
  }

  function VerifyAfter(p: Policy, v: KeyView, token: TokenArg, nowMs: int): Outcome
    requires token.header.Some?
  {
    var header := token.header.value;
    if v.alg !in JWT_ALGS then Fail(Fault(INCOMPATIBLE_KEY_TYPE))
    else if header.alg != JsString(v.alg) || (v.kty != "oct" && v.publicKey.None?) then
      Fail(Fault(INVALID_INPUT_TOKEN))
    else
      match UsableHalf(v)
      case Err(o) => o
      case Ok(half) =>
        match p.lib.verifyJwt(token.text, half, nowMs)
        case Verified(payload) => Done(Opened(header, payload))
        case Rejected(m) =>
          if m == "JWT token expired" || m == "JWT token not yet valid" then Fail(Explained(INVALID_INPUT_TOKEN, m))
          else Fail(Fault(INVALID_INPUT_TOKEN))
  }

  function EncryptAfter(p: Policy, v: KeyView, payload: string, compress: string, rnd: nat): Outcome {
    if v.alg !in JWE_ALGS then Fail(Fault(INCOMPATIBLE_KEY_TYPE))
    else
      match UsableHalf(v)
      case Err(o) => o
      case Ok(half) =>
        match p.lib.encryptJwe(v.alg, half, payload, compress, rnd)
        case Some(t) => Done(TokenData(t))
        case None => Fail(Fault(INTERNAL_ERROR))
  }

  function DecryptAfter(p: Policy, v: KeyView, token: TokenArg): Outcome
    requires token.header.Some?
  {
    var header := token.header.value;
    if v.alg !in JWE_ALGS then Fail(Fault(INCOMPATIBLE_KEY_TYPE))
    else if header.alg != JsString(v.alg) then Fail(Fault(INVALID_INPUT_TOKEN))
    else if v.secret.Err? then UnwrapFailure(v.secret.error)
    else
      match p.lib.decryptJwe(token.text, v.secret.value)
      case Some(payload) => Done(Opened(header, payload))
      case None => Fail(Fault(INVALID_INPUT_TOKEN))
  }

  /** The rest of a key operation on an authorized key. */
  function After(p: Policy, r: Request, v: KeyView, nowMs: int, rnd: nat): Outcome
    requires OnKey(r) && Target(p, r).Ok?
  {
    match r
    case GetPublicKey(_, _) =>
      if v.kty == "oct" then Fail(Fault(INCOMPATIBLE_KEY_TYPE))
      else if v.publicKey.Some? then Done(PublicKeyData(v.publicKey.value)) else Done(NoPublicKey)
    case CreateJwt(_, _, payload) => SignAfter(p, v, payload.value, rnd)
    case VerifyJwt(_, _, token) => VerifyAfter(p, v, token, nowMs)
    case CreateJwe(_, _, payload, compress) => EncryptAfter(p, v, payload.value, compress.value, rnd)
    case DecryptJwe(_, _, token) => DecryptAfter(p, v, token)
    case RevokeKey(_, _) => Done(Revoked(v.keyId))
    case ExportKey(_, _) =>
      if v.secret.Ok? then Done(SecretKey(v.secret.value)) else UnwrapFailure(v.secret.error)
  }

  /** Does the operation get as far as unwrapping the key? */
  predicate UsesSecret(r: Request, v: KeyView)
    requires OnKey(r)
  {
    match r
    case CreateJwt(_, _, _) => v.alg in JWT_ALGS
    case VerifyJwt(_, _, t) =>
      v.alg in JWT_ALGS && t.header.Some? && t.header.value.alg == JsString(v.alg) && v.kty == "oct"
    case CreateJwe(_, _, _, _) => v.alg in JWE_ALGS && v.kty == "oct"
    case DecryptJwe(_, _, t) => v.alg in JWE_ALGS && t.header.Some? && t.header.value.alg == JsString(v.alg)
    case ExportKey(_, _) => true
    case _ => false
  }

  /** The result of an operation that does not unwrap cannot depend on the stored secret, and when the
      KEK of one that does unwrap is missing the authorized caller is told so. */
  lemma SecretMatters(p: Policy, r: Request, v: KeyView, s: Result<Jwk, ExtractError>, nowMs: int, rnd: nat)
    requires OnKey(r) && Target(p, r).Ok?
    ensures !UsesSecret(r, v) ==> After(p, r, v.(secret := s), nowMs, rnd) == After(p, r, v, nowMs, rnd)
    ensures UsesSecret(r, v) ==>
              After(p, r, v.(secret := Err(KekUnavailable)), nowMs, rnd) == Fail(Fault(KEY_NOT_AVAILABLE))
  {
  }

  // ---- generate-key ----

  predicate IsUnixTs(f: TsField) { f.Ts? && 0 < f.v <= 0x1f_ffff_ffff_ffff }

  function TsValue(f: TsField): Option<int> { if f.Ts? then Some(f.v) else None }

  /** The checks of generate-key up to the ACL; None when they pass. */
  function GenerateProblem(u: User, extra: bool, g: GenParams, nowSeconds: int): Option<ApiError> {
    if !AllowedOpsAllows(u.mask, "generate-key") then Some(Fault(OPERATION_NOT_PERMITTED))
    else if extra then Some(Fault(INVALID_REQUEST_DATA))
    else if g.spec.Err? then Some(Explained(INVALID_REQUEST_DATA, g.spec.error))
    else if !g.nbf.NoTs? && !IsUnixTs(g.nbf) then Some(Explained(INVALID_REQUEST_DATA, "Invalid nbf"))
    else if !g.exp.NoTs? && !(IsUnixTs(g.exp) && g.exp.v > nowSeconds) then
      Some(Explained(INVALID_REQUEST_DATA, "Invalid exp"))
    else if g.exp.Ts? && g.nbf.Ts? && g.exp.v <= g.nbf.v then Some(Explained(INVALID_REQUEST_DATA, "Invalid exp"))
    else if g.returnPublicKey.BadBool? then Some(Explained(INVALID_REQUEST_DATA, "Invalid returnPublicKey"))
    else if g.returnPublicKey == Bool(true) && g.spec.value.kty == "oct" then
      Some(Explained(INVALID_REQUEST_DATA, "returnPublicKey is only applicable to asymmetric keys"))
    else None
  }

  /** The ACL of the new key. */
  function NewAcl(u: User, acl: Option<AclInput>, users: set<string>): Result<Grants, AclError> {
    if acl.None? then DefaultAcl(u.userId, u.coOwners, users)
    else
      var r := ExplicitAcl(u.userId, acl.value);
      if r.Ok? && exists x :: x in r.value && x !in users then Err(UnknownUser) else r
  }

  /** Every ACL that generate-key stores is in normal form and has the caller as an owner. */
  lemma NewAclOk(u: User, acl: Option<AclInput>, users: set<string>)
    requires UserOk(u) && NewAcl(u, acl, users).Ok?
    requires acl.Some? && acl.value.Object? ==> DistinctKeys(acl.value.members)
    ensures WellFormed(NewAcl(u, acl, users).value)
    ensures u.userId in NewAcl(u, acl, users).value && "owner" in NewAcl(u, acl, users).value[u.userId]
  {
    if acl.None? { DefaultGrants(u.userId, u.coOwners, users); } else { ExplicitGrants(u.userId, acl.value.members); }
  }

  /** Whoever the new key grants anything to exists, apart from a caller without `acl`; an explicit ACL fails
      for unknown users exactly when it is otherwise valid and names one. */
  lemma GranteesExist(u: User, acl: Option<AclInput>, users: set<string>)
    requires UserOk(u)
    ensures NewAcl(u, acl, users).Ok? ==>
              forall x :: x in NewAcl(u, acl, users).value ==> x in users || (acl.None? && x == u.userId)
    ensures NewAcl(u, acl, users) == Err(UnknownUser) <==>
              acl.Some? && ExplicitAcl(u.userId, acl.value).Ok?
              && exists x :: x in ExplicitAcl(u.userId, acl.value).value && x !in users
  {
    if acl.None? { DefaultGrants(u.userId, u.coOwners, users); } else { ExplicitNeverUnknown(u.userId, acl.value); }
  }

  lemma ExplicitNeverUnknown(self: string, acl: AclInput)
    ensures ExplicitAcl(self, acl) != Err(UnknownUser)
  {
    if acl.Object? && SelfOps(self, acl.members).Some? { FoldNeverUnknown(Merged(self, acl.members), map[], 0); }
  }

  lemma {:induction false} FoldNeverUnknown(ms: seq<Member>, g: Grants, owners: nat)
    ensures Fold(ms, g, owners) != Err(UnknownUser)
  {
    if ms != [] {
      FoldNeverUnknown(ms[1..], if ms[0].ops.Some? then g[ToLower(ms[0].key) := Dedup(ms[0].ops.value)] else g,
                       if ms[0].ops.Some? && "owner" in ms[0].ops.value then owners + 1 else owners);
    }
  }

  // ---- list-keys ----

  predicate Visible(v: KeyView, u: User, nowMs: int) {
    InWindow(v.notBefore, v.expiresAt, nowMs) && EffectiveAny(u.mask, v.acl, u.userId)
  }

  function ListOf(v: KeyView): Listed { Listed(v.keyId, v.kty, v.alg) }
}
