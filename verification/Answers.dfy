/** What each operation answers, request by request: which requests are accepted, what an authorized caller
    gets, and what each refusal is. */
module Answers {
  import opened Text
  import opened Acl
  import opened Kek
  import opened KeyTable
  import opened GenerateAcl
  import opened Handlers
  import opened Vault
  import opened VaultInvariant
  import opened Listing
  import opened Rights

  // ---- which key a request asks for ----

  /** The request is well formed for its operation, and asks for this key. */
  predicate Asks(p: Policy, r: Request, k: Kid)
    requires OnKey(r)
  {
    && !r.extra && (r.kid.Present? ==> NamesKid(r.kid.v, k))
    && match r
       case VerifyJwt(_, f, t) => TokenAsks(f, t, k)
       case DecryptJwe(_, f, t) => TokenAsks(f, t, k)
       case CreateJwt(_, f, payload) => f.Present? && payload.Some?
       case CreateJwe(_, f, payload, compress) => f.Present? && payload.Some? && compress.Some?
       case ExportKey(_, f) => f.Present? && p.allowExport
       case _ => r.kid.Present?
  }

  predicate TokenAsks(f: Field, t: TokenArg, k: Kid) {
    t.header.Some? && (t.header.value.kid.Present? ==> NamesKid(t.header.value.kid.v, k))
    && (f.Present? || t.header.value.kid.Present?)
  }

  lemma AskedIff(p: Policy, r: Request, k: Kid)
    requires OnKey(r)
    ensures Target(p, r) == Ok(k) <==> Asks(p, r, k)
  {
    if r.VerifyJwt? && r.token.header.Some? { ResolvedIff(r.kid, r.token.header.value, k); }
    if r.DecryptJwe? && r.token.header.Some? { ResolvedIff(r.kid, r.token.header.value, k); }
  }

  predicate IsUuidValue(f: Field) { f.Present? && f.v.JsString? && IsUuid(f.v.s) }

  /** A request that asks for no key is refused without a look at any: with 1100 for properties it should not
      have, a key id that is none, or a missing payload; with 1104 for an export that is switched off; and
      with 1103 for a token without a usable header or that names another key. */
  lemma Refused(p: Policy, cc: CacheConfig, s: State, u: User, r: Request, o: Oracle)
    requires OnKey(r) && forall k :: !Asks(p, r, k)
    ensures var (s', out) := Handle(p, cc, s, u, r, o);
            && s' == s && out.Fail? && !out.error.masked
            && out.error.code == (if r.extra then 1100
                                  else if r.VerifyJwt? || r.DecryptJwe? then
                                    if r.token.header.Some? && r.kid.Present? && !IsUuidValue(r.kid) then 1100 else 1103
                                  else if r.ExportKey? && IsUuidValue(r.kid) && !p.allowExport then 1104
                                  else 1100)
  {
    if Target(p, r).Ok? { AskedIff(p, r, Target(p, r).value); }
  }

  // ---- what an authorized caller gets ----

  const SIGNING := {"HS256", "HS384", "HS512", "ES256", "ES384", "ES512", "RS256", "RS384", "RS512"}
  const ENCRYPTING := {"A128GCMKW", "A192GCMKW", "A256GCMKW", "A128KW", "A192KW", "A256KW", "ECDH-ES", "RSA-OAEP",
                       "RSA-OAEP-256", "ML-KEM-512@spinium.com", "ML-KEM-768@spinium.com", "ML-KEM-1024@spinium.com"}

  predicate KekKnown(s: State, k: Kid) {
    Find(s.rows, k).Some? && Find(s.rows, k).value.embeddingKeyId in s.kek.byId
  }

  lemma LiveAnswer(p: Policy, cc: CacheConfig, s: State, u: User, r: Request, o: Oracle, k: Kid)
    requires Inv(s) && UserOk(u) && OnKey(r) && Asks(p, r, k) && Live(s, u, r, k)
    ensures Target(p, r) == Ok(k) && k in s.born && RowOk(s.born, Find(s.rows, k).value)
    ensures KeyOperation(p, cc, s, u, r, o).1
            == After(p, r, ViewOf(Find(s.rows, k).value,
                                  if KekKnown(s, k) then Ok(s.born[k].secret) else Err(KekUnavailable)),
                     NowMs(s), o.nonce)
  {
    var row := Find(s.rows, k).value;
    AskedIff(p, r, k);
    assert RowOk(s.born, row);
    EffectiveIffGranted(u, row.acl, r);
    KeyAnswer(p, cc, s, u, r, o, row);
    RowSecret(s.born, row, s.kek);
  }

  /** public-key gives the public half of every asymmetric key. */
  lemma PublicKeyAnswer(p: Policy, cc: CacheConfig, s: State, u: User, t: string, o: Oracle)
    requires Inv(s) && UserOk(u) && IsUuid(t)
    requires var r := GetPublicKey(false, Present(JsString(t))); Live(s, u, r, ToLower(t))
    ensures ToLower(t) in s.born
    ensures var r := GetPublicKey(false, Present(JsString(t)));
            var b := s.born[ToLower(t)];
            Handle(p, cc, s, u, r, o).1
            == if b.kty == "oct" then Fail(ApiError(1102, "", false)) else Done(PublicKeyData(PublicHalf(b.secret)))
  {
    LiveAnswer(p, cc, s, u, GetPublicKey(false, Present(JsString(t))), o, ToLower(t));
  }

  /** create-jwt signs with the generated secret of every key of a signing algorithm. */
  lemma CreateJwtAnswer(p: Policy, cc: CacheConfig, s: State, u: User, t: string, payload: string, o: Oracle)
    requires Inv(s) && UserOk(u) && IsUuid(t)
    requires var r := CreateJwt(false, Present(JsString(t)), Some(payload)); Live(s, u, r, ToLower(t))
    ensures ToLower(t) in s.born
    ensures var r := CreateJwt(false, Present(JsString(t)), Some(payload));
            var b := s.born[ToLower(t)];
            Handle(p, cc, s, u, r, o).1
            == if b.alg !in SIGNING then Fail(ApiError(1102, "", false))
               else if !KekKnown(s, ToLower(t)) then Fail(ApiError(1106, "", false))
               else match p.lib.signJwt(b.alg, b.secret, payload, o.nonce)
                    case Signed(token) => Done(TokenData(token))
                    case InvalidClaim(m) => Fail(ApiError(1100, m, false))
                    case SignThrows => Fail(ApiError(1900, "", false))
  {
    LiveAnswer(p, cc, s, u, CreateJwt(false, Present(JsString(t)), Some(payload)), o, ToLower(t));
  }

  /** The half that encrypts: the secret of a symmetric key, else the public half. */
  function EncryptingHalf(b: Born): KeyHalf {
    if b.kty == "oct" then SecretHalf(b.secret) else PublicOnly(PublicHalf(b.secret))
  }

  /** create-jwe encrypts with that half for every key of an encryption algorithm; only a symmetric key needs
      its KEK. */
  lemma CreateJweAnswer(p: Policy, cc: CacheConfig, s: State, u: User, t: string, payload: string, compress: string,
                        o: Oracle)
    requires Inv(s) && UserOk(u) && IsUuid(t)
    requires var r := CreateJwe(false, Present(JsString(t)), Some(payload), Some(compress)); Live(s, u, r, ToLower(t))
    ensures ToLower(t) in s.born
    ensures var r := CreateJwe(false, Present(JsString(t)), Some(payload), Some(compress));
            var b := s.born[ToLower(t)];
            Handle(p, cc, s, u, r, o).1
            == if b.alg !in ENCRYPTING then Fail(ApiError(1102, "", false))
               else if b.kty == "oct" && !KekKnown(s, ToLower(t)) then Fail(ApiError(1106, "", false))
               else match p.lib.encryptJwe(b.alg, EncryptingHalf(b), payload, compress, o.nonce)
                    case Some(token) => Done(TokenData(token))
                    case None => Fail(ApiError(1900, "", false))
  {
    LiveAnswer(p, cc, s, u, CreateJwe(false, Present(JsString(t)), Some(payload), Some(compress)), o, ToLower(t));
  }

  /** What a caller may learn of why a token does not verify. */
  const TIME_REASONS := {"JWT token expired", "JWT token not yet valid"}

  lemma VerifyOf(p: Policy, b: Born, v: KeyView, t: TokenArg, known: bool, nowMs: int)
    requires t.header.Some? && v.kty == b.kty && v.alg == b.alg
    requires v.publicKey == (if b.kty == "oct" then None else Some(PublicHalf(b.secret)))
    requires v.secret == if known then Ok(b.secret) else Err(KekUnavailable)
    ensures VerifyAfter(p, v, t, nowMs)
            == if b.alg !in SIGNING then Fail(ApiError(1102, "", false))
               else if t.header.value.alg != JsString(b.alg) then Fail(ApiError(1103, "", false))
               else if b.kty == "oct" && !known then Fail(ApiError(1106, "", false))
               else match p.lib.verifyJwt(t.text, EncryptingHalf(b), nowMs)
                    case Verified(payload) => Done(Opened(t.header.value, payload))
                    case Rejected(m) =>
                      Fail(ApiError(1103, if m in TIME_REASONS then m else "", false))
  {
  }

  /** verify-jwt gives header and payload of a token that names the key's algorithm and verifies with its
      half; of the library's reasons only the two about time are passed on. */
  lemma VerifyJwtAnswer(p: Policy, cc: CacheConfig, s: State, u: User, f: Field, t: TokenArg, k: Kid, o: Oracle)
    requires Inv(s) && UserOk(u) && Asks(p, VerifyJwt(false, f, t), k) && Live(s, u, VerifyJwt(false, f, t), k)
    ensures k in s.born && t.header.Some?
    ensures var b, h := s.born[k], t.header.value;
            Handle(p, cc, s, u, VerifyJwt(false, f, t), o).1
            == if b.alg !in SIGNING then Fail(ApiError(1102, "", false))
               else if h.alg != JsString(b.alg) then Fail(ApiError(1103, "", false))
               else if b.kty == "oct" && !KekKnown(s, k) then Fail(ApiError(1106, "", false))
               else match p.lib.verifyJwt(t.text, EncryptingHalf(b), NowMs(s))
                    case Verified(payload) => Done(Opened(h, payload))
                    case Rejected(m) =>
                      Fail(ApiError(1103, if m in TIME_REASONS then m else "", false))
  {
    LiveAnswer(p, cc, s, u, VerifyJwt(false, f, t), o, k);
    VerifyOf(p, s.born[k], ViewOf(Find(s.rows, k).value,
                                  if KekKnown(s, k) then Ok(s.born[k].secret) else Err(KekUnavailable)),
             t, KekKnown(s, k), NowMs(s));
  }

  /** decrypt-jwe gives header and payload of a token that names the key's algorithm and that its secret
      decrypts. */
  lemma DecryptJweAnswer(p: Policy, cc: CacheConfig, s: State, u: User, f: Field, t: TokenArg, k: Kid, o: Oracle)
    requires Inv(s) && UserOk(u) && Asks(p, DecryptJwe(false, f, t), k) && Live(s, u, DecryptJwe(false, f, t), k)
    ensures k in s.born && t.header.Some?
    ensures var b, h := s.born[k], t.header.value;
            Handle(p, cc, s, u, DecryptJwe(false, f, t), o).1
            == if b.alg !in ENCRYPTING then Fail(ApiError(1102, "", false))
               else if h.alg != JsString(b.alg) then Fail(ApiError(1103, "", false))
               else if !KekKnown(s, k) then Fail(ApiError(1106, "", false))
               else match p.lib.decryptJwe(t.text, b.secret)
                    case Some(payload) => Done(Opened(h, payload))
                    case None => Fail(ApiError(1103, "", false))
  {
    LiveAnswer(p, cc, s, u, DecryptJwe(false, f, t), o, k);
  }

  /** revoke-key always succeeds, and the key is gone. */
  lemma RevokeKeyAnswer(p: Policy, cc: CacheConfig, s: State, u: User, t: string, o: Oracle)
    requires Inv(s) && UserOk(u) && IsUuid(t) && Live(s, u, RevokeKey(false, Present(JsString(t))), ToLower(t))
    ensures var (s', out) := Handle(p, cc, s, u, RevokeKey(false, Present(JsString(t))), o);
            && out == Done(Revoked(ToLower(t))) && !HasKey(s'.rows, ToLower(t))
            && forall k :: k != ToLower(t) ==> Find(s'.rows, k) == Find(s.rows, k)
  {
    var r := RevokeKey(false, Present(JsString(t)));
    LiveAnswer(p, cc, s, u, r, o, ToLower(t));
    forall k ensures Find(Handle(p, cc, s, u, r, o).0.rows, k) == if k == ToLower(t) then None else Find(s.rows, k) {
      OperationFrame(p, cc, s, u, r, o, k);
    }
  }

  /** export-key gives the generated secret, on a server that allows it. */
  lemma ExportKeyAnswer(p: Policy, cc: CacheConfig, s: State, u: User, t: string, o: Oracle)
    requires Inv(s) && UserOk(u) && IsUuid(t) && Live(s, u, ExportKey(false, Present(JsString(t))), ToLower(t))
    ensures ToLower(t) in s.born
    ensures Handle(p, cc, s, u, ExportKey(false, Present(JsString(t))), o).1
            == if !p.allowExport then Fail(ApiError(1104, "", false))
               else if !KekKnown(s, ToLower(t)) then Fail(ApiError(1106, "", false))
               else Done(SecretKey(s.born[ToLower(t)].secret))
  {
    assert RowOk(s.born, Find(s.rows, ToLower(t)).value);
    if p.allowExport { LiveAnswer(p, cc, s, u, ExportKey(false, Present(JsString(t))), o, ToLower(t)); }
  }

  /** Any caller for whom the key is not live is told that it was not found, and nothing changes. */
  lemma NotLiveAnswer(p: Policy, cc: CacheConfig, s: State, u: User, r: Request, o: Oracle, k: Kid)
    requires Inv(s) && UserOk(u) && OnKey(r) && Asks(p, r, k) && !Live(s, u, r, k)
    ensures var (s', out) := Handle(p, cc, s, u, r, o);
            && out.Fail? && out.error.code == 1101 && out.error.detail == "" && s'.rows == s.rows
            && (out.error.masked <==> HasKey(s.rows, k) && !Granted(u, Find(s.rows, k).value.acl, r))
  {
    AskedIff(p, r, k);
    NotFoundIff(p, cc, s, u, r, o);
    OperationRows(p, cc, s, u, r, o);
  }

  // ---- restarts, healthcheck and list-keys ----

  lemma ServerKept(p: Policy, cc: CacheConfig, s: State, e: Step)
    requires !e.Restart?
    ensures var s' := Next(p, cc, s, e).0; s'.kek == s.kek && s'.started == s.started && s'.clock >= s.clock
  {
  }

  /** From a restart to the next one the server runs with the given KEKs and counts its time from the restart,
      which changes no key. */
  lemma {:induction false} SinceRestart(p: Policy, cc: CacheConfig, s: State, m: Manager, es: seq<Step>)
    requires forall i :: 0 <= i < |es| ==> !es[i].Restart?
    ensures var s0 := Next(p, cc, s, Restart(m)).0;
            var t := StateAfter(p, cc, s0, es);
            s0.rows == s.rows && t.kek == m && t.started == s.clock <= t.clock
  {
    var s0 := Next(p, cc, s, Restart(m)).0;
    if es != [] {
      var n := |es| - 1;
      assert forall i :: 0 <= i < n ==> es[..n][i] == es[i];
      SinceRestart(p, cc, s, m, es[..n]);
      ServerKept(p, cc, StateAfter(p, cc, s0, es[..n]), es[n]);
    }
  }

  lemma HealthcheckAnswer(p: Policy, cc: CacheConfig, s: State, u: User, extra: bool, o: Oracle)
    ensures Handle(p, cc, s, u, Healthcheck(extra), o)
            == (s, if extra then Fail(ApiError(1100, "", false)) else Done(Uptime((s.clock - s.started) / 1_000_000)))
  {
  }

  /** The entry shows a key on which some operation is authorized for the caller. */
  ghost predicate Lists(s: State, u: User, x: Listed, row: Row) {
    && x.kid == row.keyId && x.kty == row.kty && x.alg == row.alg
    && exists r :: OnKey(r) && Live(s, u, r, row.keyId)
  }

  /** A request of each class. */
  function RequestOf(k: nat): Request
    requires k < |KEY_OP_CLASSES|
    ensures OnKey(RequestOf(k)) && OpClass(RequestOf(k)) == KEY_OP_CLASSES[k]
  {
    var (no, t) := (Field.Absent, TokenArg("", None));
    if k == 0 then CreateJwe(false, no, None, None)
    else if k == 1 then DecryptJwe(false, no, t)
    else if k == 2 then CreateJwt(false, no, None)
    else if k == 3 then VerifyJwt(false, no, t)
    else if k == 4 then GetPublicKey(false, no)
    else if k == 5 then ExportKey(false, no)
    else RevokeKey(false, no)
  }

  lemma VisibleIffLive(s: State, u: User, kid: Kid)
    requires UserOk(u)
    ensures (exists r :: OnKey(r) && Live(s, u, r, kid))
            <==> Find(s.rows, kid).Some? && Visible(Sight(Find(s.rows, kid).value), u, NowMs(s))
  {
    if Find(s.rows, kid).Some? {
      var row := Find(s.rows, kid).value;
      forall r | OnKey(r)
        ensures Live(s, u, r, kid) <==> InWindow(row.notBefore, row.expiresAt, NowMs(s))
                                        && Effective(u.mask, row.acl, u.userId, OpClass(r))
      {
        EffectiveIffGranted(u, row.acl, r);
      }
      if k :| 0 <= k < |KEY_OP_CLASSES| && Effective(u.mask, row.acl, u.userId, KEY_OP_CLASSES[k]) {
        assert OpClass(RequestOf(k)) == KEY_OP_CLASSES[k];
      }
    }
  }

  /** list-keys answers with one entry for each key on which some operation is authorized, and each entry shows the
      id, type and algorithm of its key. */
  lemma ListKeysAnswer(p: Policy, cc: CacheConfig, s: State, u: User, o: Oracle)
    requires Inv(s) && UserOk(u)
    requires u.mask.NoData? || u.mask.Absent? || (u.mask.List? && "list-keys" in u.mask.ops)
    ensures var out := Handle(p, cc, s, u, ListKeys(false), o).1;
            && out.Done? && out.data.KeyList?
            && (forall x :: x in out.data.keys <==> exists row :: row in s.rows && Lists(s, u, x, row))
            && forall i, j :: 0 <= i < j < |out.data.keys| ==> out.data.keys[i].kid != out.data.keys[j].kid
  {
    var l := ListRows(s.rows, u, NowMs(s));
    PrefilterLosesNothing(s.rows, u, NowMs(s));
    ListedOnce(s.rows, u, NowMs(s));
    forall x ensures x in l <==> exists row :: row in s.rows && Lists(s, u, x, row) { EntryIff(s, u, x); }
  }

  lemma EntryIff(s: State, u: User, x: Listed)
    requires Inv(s) && UserOk(u)
    ensures x in ListRows(s.rows, u, NowMs(s)) <==> exists row :: row in s.rows && Lists(s, u, x, row)
  {
    ListedIff(s.rows, u, NowMs(s), x);
    forall row | row in s.rows ensures Lists(s, u, x, row) <==> Shows(row, u, NowMs(s), x) {
      FindMember(s.rows, row);
      VisibleIffLive(s, u, row.keyId);
    }
    if i :| 0 <= i < |s.rows| && Shows(s.rows[i], u, NowMs(s), x) {
      assert s.rows[i] in s.rows && Lists(s, u, x, s.rows[i]);
    }
    if row :| row in s.rows && Lists(s, u, x, row) {
      var i :| 0 <= i < |s.rows| && s.rows[i] == row;
      assert Shows(s.rows[i], u, NowMs(s), x);
    }
  }

  lemma ListKeysRefused(p: Policy, cc: CacheConfig, s: State, u: User, extra: bool, o: Oracle)
    requires extra || u.mask.Malformed? || (u.mask.List? && "list-keys" !in u.mask.ops)
    ensures Handle(p, cc, s, u, ListKeys(extra), o).1 == Fail(ApiError(if extra then 1100 else 1107, "", false))
  {
  }

  // ---- generate-key ----

  predicate Timestamp(f: TsField) { f.NoTs? || (f.Ts? && 1 <= f.v <= 9007199254740991) }

  predicate MayGenerate(u: User) {
    u.mask.NoData? || u.mask.Absent? || (u.mask.List? && "generate-key" in u.mask.ops)
  }

  /** What generate-key accepts of everything but the ACL. */
  predicate GoodParams(u: User, g: GenParams, nowSeconds: int) {
    && MayGenerate(u) && g.spec.Ok? && Timestamp(g.nbf) && Timestamp(g.exp)
    && (g.exp.Ts? ==> g.exp.v > nowSeconds) && (g.exp.Ts? && g.nbf.Ts? ==> g.exp.v > g.nbf.v)
    && (g.returnPublicKey.NoBool?
        || (g.returnPublicKey.Bool? && (g.returnPublicKey.b ==> g.spec.value.kty != "oct")))
  }

  /** What it accepts of the ACL: none, or one that is acceptable with the caller merged in and whose users,
      the caller included, all exist. */
  ghost predicate GoodAcl(u: User, acl: Option<AclInput>, users: set<string>) {
    acl.Some? ==>
      acl.value.Object? && Acceptable(u.userId, acl.value.members) && u.userId in users
      && forall i :: 0 <= i < |acl.value.members| ==> ToLower(acl.value.members[i].key) in users
  }

  lemma AclAccepted(u: User, acl: Option<AclInput>, users: set<string>)
    requires UserOk(u) && AclInputOk(acl)
    ensures NewAcl(u, acl, users).Ok? <==> GoodAcl(u, acl, users)
  {
    if acl.None? {
      DefaultGrants(u.userId, u.coOwners, users);
    } else if acl.value.Object? {
      AcceptedIff(u.userId, acl.value.members);
      if ExplicitAcl(u.userId, acl.value).Ok? { UsersOfExplicit(u.userId, acl.value.members, users); }
    }
  }

  lemma UsersOfExplicit(self: string, ms: seq<Member>, users: set<string>)
    requires IsUuid(self) && IsLower(self) && DistinctKeys(ms) && ExplicitAcl(self, Object(ms)).Ok?
    ensures (forall x :: x in ExplicitAcl(self, Object(ms)).value ==> x in users)
            <==> self in users && forall i :: 0 <= i < |ms| ==> ToLower(ms[i].key) in users
  {
    ExplicitGrants(self, ms);
    var g := ExplicitAcl(self, Object(ms)).value;
    forall i | 0 <= i < |ms| ensures ToLower(ms[i].key) in g {}
    forall x | x in g && x != self ensures exists i :: 0 <= i < |ms| && ToLower(ms[i].key) == x {}
  }

  lemma ParamsAccepted(u: User, g: GenParams, nowSeconds: int)
    ensures GenerateProblem(u, false, g, nowSeconds).None? <==> GoodParams(u, g, nowSeconds)
    ensures GenerateProblem(u, false, g, nowSeconds).Some? ==>
              GenerateProblem(u, false, g, nowSeconds).value.code == if MayGenerate(u) then 1100 else 1107
  {
  }

  /** generate-key succeeds exactly with good parameters and a good ACL, and refuses with 1107, 1100 and 1105 in
      this order. */
  lemma GenerateKeyAnswer(p: Policy, cc: CacheConfig, s: State, u: User, extra: bool, g: GenParams, o: Oracle)
    requires Inv(s) && UserOk(u) && o.kid !in s.born && AclInputOk(g.acl)
    ensures var (s', out) := Handle(p, cc, s, u, GenerateKey(extra, g), o);
            && (out.Done? <==> !extra && GoodParams(u, g, NowSeconds(s)) && GoodAcl(u, g.acl, s.users))
            && (out.Fail? ==> s' == s)
            && (out.Fail? ==> out.error.code == if !MayGenerate(u) then 1107
                                                else if extra || !GoodParams(u, g, NowSeconds(s)) then 1100 else 1105)
  {
    AclAccepted(u, g.acl, s.users);
    ParamsAccepted(u, g, NowSeconds(s));
    forall i | 0 <= i < |s.rows| ensures s.rows[i].keyId in s.born { assert RowOk(s.born, s.rows[i]); }
  }

  /** The key is stored after all others, as asked for, under the active KEK. */
  lemma GeneratedKey(p: Policy, cc: CacheConfig, s: State, u: User, g: GenParams, o: Oracle)
    requires Inv(s) && UserOk(u) && o.kid !in s.born && AclInputOk(g.acl)
    requires Handle(p, cc, s, u, GenerateKey(false, g), o).1.Done?
    ensures g.spec.Ok? && NewAcl(u, g.acl, s.users).Ok?
    ensures var spec := g.spec.value;
            Handle(p, cc, s, u, GenerateKey(false, g), o).1
            == Done(Generated(o.kid, if g.returnPublicKey == Bool(true)
                                     then Some(PublicJwk(o.kid, spec.jwkAlg, o.material)) else None))
    ensures var s' := Handle(p, cc, s, u, GenerateKey(false, g), o).0;
            var spec := g.spec.value;
            var secret := Jwk(o.kid, spec.jwkAlg, o.material);
            && |s'.rows| == |s.rows| + 1 && s'.rows[..|s.rows|] == s.rows
            && var row := s'.rows[|s.rows|];
            && row.keyId == o.kid && row.kty == spec.kty && row.alg == spec.alg
            && row.acl == NewAcl(u, g.acl, s.users).value
            && row.notBefore == (if g.nbf.Ts? then Some(g.nbf.v * 1000) else None)
            && row.expiresAt == (if g.exp.Ts? then Some(g.exp.v * 1000) else None)
            && row.publicKey == (if spec.kty == "oct" then None else Some(PublicJwk(o.kid, spec.jwkAlg, o.material)))
            && row.embeddingKeyId == s.kek.active.kid
            && var nbf, exp := if g.nbf.Ts? then Some(g.nbf.v) else None, if g.exp.Ts? then Some(g.exp.v) else None;
            && row.embeddedKey == Jwe(s.kek.active.kid, o.nonce,
                                      Embedding(Claims(Some(o.kid), NowSeconds(s), nbf, exp, secret)))
            && o.kid in s'.born
            && s'.born[o.kid].secret == secret && s'.born[o.kid].kty == spec.kty && s'.born[o.kid].alg == spec.alg
  {
    forall i | 0 <= i < |s.rows| ensures s.rows[i].keyId in s.born { assert RowOk(s.born, s.rows[i]); }
  }
}
