/** Tokens outlive what happens to their key: what create-jwe encrypted decrypt-jwe opens, and what
    create-jwt signed verify-jwt accepts. */
module TokenRoundTrip {
  import opened Text
  import opened Acl
  import opened Kek
  import opened KeyTable
  import opened UnwrapCache
  import opened Handlers
  import opened Vault
  import opened VaultInvariant
  import opened Listing

  /** The header of a token made with a key names the key's algorithm and id. */
  ghost predicate HeaderOf(lib: Lib, text: string, alg: string, kid: Kid) {
    lib.protectedHeader(text).Some?
    && lib.protectedHeader(text).value.alg == JsString(alg)
    && lib.protectedHeader(text).value.kid == Present(JsString(kid))
  }

  /** What the vault relies on the JWE library for: either half of a key encrypts for its secret half, under
      a header that names the key. */
  ghost predicate JweContract(lib: Lib) {
    forall alg, k: Jwk, half, payload, compress, rnd ::
      half in {SecretHalf(k), PublicOnly(PublicHalf(k))} && lib.encryptJwe(alg, half, payload, compress, rnd).Some? ==>
        var t := lib.encryptJwe(alg, half, payload, compress, rnd).value;
        lib.decryptJwe(t, k) == Some(payload) && HeaderOf(lib, t, alg, k.kid)
  }

  /** The key half that a row gives to the public operations always belongs to the generated secret. */
  lemma HalfOfBorn(s: State, row: Row)
    requires Inv(s) && row in s.rows
    ensures var v := ViewOf(row, ExtractRow(s.kek, row));
            UsableHalf(v).Ok? ==> UsableHalf(v).value in {SecretHalf(s.born[row.keyId].secret),
                                                          PublicOnly(PublicHalf(s.born[row.keyId].secret))}
  {
    assert RowOk(s.born, row);
    RowSecret(s.born, row, s.kek);
  }

  /** What create-jwe returns decrypts under the secret generated for the key, and names the key. */
  lemma CreatedDecrypts(p: Policy, cc: CacheConfig, s: State, u: User, kid: Field, payload: string, compress: string,
                        o: Oracle)
    requires Inv(s) && JweContract(p.lib)
    ensures var out := KeyOperation(p, cc, s, u, CreateJwe(false, kid, Some(payload), Some(compress)), o).1;
            out.Done? ==>
              && out.data.TokenData? && RequireKid(kid).Ok? && HasKey(s.rows, RequireKid(kid).value)
              && RequireKid(kid).value in s.born
              && var b := s.born[RequireKid(kid).value];
              && p.lib.decryptJwe(out.data.text, b.secret) == Some(payload)
              && HeaderOf(p.lib, out.data.text, b.alg, RequireKid(kid).value) && b.alg in JWE_ALGS
  {
    var r := CreateJwe(false, kid, Some(payload), Some(compress));
    if Target(p, r).Ok? && Find(s.rows, Target(p, r).value).Some? {
      var row := Find(s.rows, Target(p, r).value).value;
      assert RowOk(s.born, row);
      KeyAnswer(p, cc, s, u, r, o, row);
      HalfOfBorn(s, row);
    }
  }

  /** The request names the key or leaves that to the token. */
  predicate NamesOrSilent(f: Field, kid: Kid) { f.Present? ==> RequireKid(f) == Ok(kid) }

  lemma ResolvedByHeader(lib: Lib, f: Field, text: string, alg: string, kid: Kid)
    requires HeaderOf(lib, text, alg, kid) && IsUuid(kid) && IsLower(kid) && NamesOrSilent(f, kid)
    ensures TokenKid(f, Arrived(lib, text)) == Ok(kid)
  {
  }

  /** What decrypt-jwe answers an authorized caller about a live key: the payload if the secret decrypts the
      token, and only if the KEK is configured. */
  lemma DecryptAnswer(p: Policy, cc: CacheConfig, s: State, u: User, f: Field, t: TokenArg, kid: Kid, o: Oracle)
    requires Inv(s) && TokenKid(f, t) == Ok(kid) && CanUse(s, u, kid, "decrypt")
    requires var row := Find(s.rows, kid).value; row.alg in JWE_ALGS && t.header.value.alg == JsString(row.alg)
    ensures kid in s.born
    ensures KeyOperation(p, cc, s, u, DecryptJwe(false, f, t), o).1
            == if Find(s.rows, kid).value.embeddingKeyId !in s.kek.byId then Fail(Fault(KEY_NOT_AVAILABLE))
               else match p.lib.decryptJwe(t.text, s.born[kid].secret)
                    case Some(payload) => Done(Opened(t.header.value, payload))
                    case None => Fail(Fault(INVALID_INPUT_TOKEN))
  {
    var row := Find(s.rows, kid).value;
    assert RowOk(s.born, row);
    RowSecret(s.born, row, s.kek);
    KeyAnswer(p, cc, s, u, DecryptJwe(false, f, t), o, row);
  }

  /** A key that is there now and was there before is the same key. */
  lemma SameKey(p: Policy, cc: CacheConfig, s: State, es: seq<Step>, kid: Kid)
    requires Inv(s) && RunOk(p, cc, s, es) && kid in s.born && HasKey(StateAfter(p, cc, s, es).rows, kid)
    ensures var s' := StateAfter(p, cc, s, es);
            Inv(s') && kid in s'.born && s'.born[kid] == s.born[kid] && Find(s'.rows, kid).value.alg == s.born[kid].alg
  {
    RunKeepsInv(p, cc, s, es);
    assert RowOk(StateAfter(p, cc, s, es).born, Find(StateAfter(p, cc, s, es).rows, kid).value);
  }

  lemma RequiredKid(f: Field)
    requires RequireKid(f).Ok?
    ensures IsUuid(RequireKid(f).value) && IsLower(RequireKid(f).value)
  {
    UuidLower(f.v.s);
  }

  /** A token that create-jwe made in some state decrypts in every later one in which the key is there and
      the caller may decrypt with it, if and only if the KEK then wrapping the key is configured: after any
      number of rewraps, evictions, sweeps, ACL edits and restarts. The request may name the key, or leave it
      to the token's own header. */
  lemma TokenSurvives(p: Policy, cc: CacheConfig, s: State, u: User, kid: Field, payload: string, compress: string,
                      o: Oracle, s1: State, token: string, es: seq<Step>, u2: User, f: Field, o2: Oracle)
    requires Inv(s) && JweContract(p.lib) && RequireKid(kid).Ok?
    requires KeyOperation(p, cc, s, u, CreateJwe(false, kid, Some(payload), Some(compress)), o)
             == (s1, Done(TokenData(token)))
    requires RunOk(p, cc, s1, es) && CanUse(StateAfter(p, cc, s1, es), u2, RequireKid(kid).value, "decrypt")
    requires NamesOrSilent(f, RequireKid(kid).value)
    ensures var s' := StateAfter(p, cc, s1, es);
            && p.lib.protectedHeader(token).Some?
            && KeyOperation(p, cc, s', u2, DecryptJwe(false, f, Arrived(p.lib, token)), o2).1
               == if Find(s'.rows, RequireKid(kid).value).value.embeddingKeyId in s'.kek.byId
                  then Done(Opened(p.lib.protectedHeader(token).value, payload)) else Fail(Fault(KEY_NOT_AVAILABLE))
  {
    var s', k := StateAfter(p, cc, s1, es), RequireKid(kid).value;
    CreatedDecrypts(p, cc, s, u, kid, payload, compress, o);
    KeyOperationInv(p, cc, s, u, CreateJwe(false, kid, Some(payload), Some(compress)), o);
    SameKey(p, cc, s1, es, k);
    RequiredKid(kid);
    ResolvedByHeader(p.lib, f, token, s.born[k].alg, k);
    DecryptAnswer(p, cc, s', u2, f, Arrived(p.lib, token), k, o2);
  }

  // ---- signatures ----

  /** What the vault relies on the JWT library for: either half of a key verifies what its secret half
      signed, subject only to the time limits in the payload, which `limits` stands for; the header names the
      key. */
  ghost predicate JwtContract(lib: Lib, limits: (string, int) -> Option<string>) {
    forall alg, k: Jwk, half, payload, rnd, now ::
      half in {SecretHalf(k), PublicOnly(PublicHalf(k))} && lib.signJwt(alg, k, payload, rnd).Signed? ==>
        var t := lib.signJwt(alg, k, payload, rnd).text;
        lib.verifyJwt(t, half, now) == Verdict(limits, payload, now) && HeaderOf(lib, t, alg, k.kid)
  }

  function Verdict(limits: (string, int) -> Option<string>, payload: string, now: int): VerifyResult {
    if limits(payload, now).None? then Verified(payload) else Rejected(limits(payload, now).value)
  }

  lemma SignedWith(p: Policy, cc: CacheConfig, s: State, u: User, kid: Field, payload: string, o: Oracle)
    requires Inv(s)
    ensures var out := KeyOperation(p, cc, s, u, CreateJwt(false, kid, Some(payload)), o).1;
            out.Done? ==>
              && out.data.TokenData? && RequireKid(kid).Ok? && HasKey(s.rows, RequireKid(kid).value)
              && RequireKid(kid).value in s.born
              && var b := s.born[RequireKid(kid).value];
              && b.alg in JWT_ALGS && b.secret.kid == RequireKid(kid).value
              && p.lib.signJwt(b.alg, b.secret, payload, o.nonce) == Signed(out.data.text)
  {
    var r := CreateJwt(false, kid, Some(payload));
    if Target(p, r).Ok? && Find(s.rows, Target(p, r).value).Some? {
      var row := Find(s.rows, Target(p, r).value).value;
      assert RowOk(s.born, row);
      KeyAnswer(p, cc, s, u, r, o, row);
      RowSecret(s.born, row, s.kek);
    }
  }

  /** Both halves of the key give the same verdict on the token. */
  ghost predicate Judged(lib: Lib, text: string, secret: Jwk, now: int, verdict: VerifyResult) {
    forall half :: half in {SecretHalf(secret), PublicOnly(PublicHalf(secret))} ==>
      lib.verifyJwt(text, half, now) == verdict
  }

  /** The answer of verify-jwt that goes with a verdict. */
  ghost predicate Answers(out: Outcome, row: Row, m: Manager, h: Header, verdict: VerifyResult) {
    if row.kty == "oct" && row.embeddingKeyId !in m.byId then out == Fail(Fault(KEY_NOT_AVAILABLE))
    else if verdict.Verified? then out == Done(Opened(h, verdict.payload))
    else out.Fail? && out.error.code == INVALID_INPUT_TOKEN
  }

  lemma VerifyAnswer(p: Policy, cc: CacheConfig, s: State, u: User, f: Field, t: TokenArg, kid: Kid, o: Oracle,
                     verdict: VerifyResult)
    requires Inv(s) && TokenKid(f, t) == Ok(kid) && CanUse(s, u, kid, "verify") && kid in s.born
    requires var row := Find(s.rows, kid).value; row.alg in JWT_ALGS && t.header.value.alg == JsString(row.alg)
    requires Judged(p.lib, t.text, s.born[kid].secret, NowMs(s), verdict)
    ensures Answers(KeyOperation(p, cc, s, u, VerifyJwt(false, f, t), o).1, Find(s.rows, kid).value, s.kek,
                    t.header.value, verdict)
  {
    var row := Find(s.rows, kid).value;
    assert RowOk(s.born, row);
    RowSecret(s.born, row, s.kek);
    KeyAnswer(p, cc, s, u, VerifyJwt(false, f, t), o, row);
    HalfOfBorn(s, row);
  }

  lemma SignedJudged(lib: Lib, limits: (string, int) -> Option<string>, alg: string, k: Jwk, payload: string, rnd: nat,
                     now: int)
    requires JwtContract(lib, limits) && lib.signJwt(alg, k, payload, rnd).Signed?
    ensures var t := lib.signJwt(alg, k, payload, rnd).text;
            HeaderOf(lib, t, alg, k.kid) && Judged(lib, t, k, now, Verdict(limits, payload, now))
  {
    assert lib.verifyJwt(lib.signJwt(alg, k, payload, rnd).text, SecretHalf(k), now) == Verdict(limits, payload, now);
  }

  /** A token that create-jwt made verifies in every later state in which the key is there and the caller may
      verify with it, exactly if its own time limits admit it; only a symmetric key also needs its KEK. */
  lemma SignatureSurvives(p: Policy, cc: CacheConfig, s: State, u: User, kid: Field, payload: string, o: Oracle,
                          s1: State, token: string, es: seq<Step>, u2: User, f: Field, o2: Oracle,
                          limits: (string, int) -> Option<string>)
    requires Inv(s) && JwtContract(p.lib, limits) && RequireKid(kid).Ok?
    requires KeyOperation(p, cc, s, u, CreateJwt(false, kid, Some(payload)), o) == (s1, Done(TokenData(token)))
    requires RunOk(p, cc, s1, es) && CanUse(StateAfter(p, cc, s1, es), u2, RequireKid(kid).value, "verify")
    requires NamesOrSilent(f, RequireKid(kid).value)
    ensures var s' := StateAfter(p, cc, s1, es);
            && p.lib.protectedHeader(token).Some?
            && Answers(KeyOperation(p, cc, s', u2, VerifyJwt(false, f, Arrived(p.lib, token)), o2).1,
                       Find(s'.rows, RequireKid(kid).value).value, s'.kek, p.lib.protectedHeader(token).value,
                       Verdict(limits, payload, NowMs(s')))
  {
    var s', k := StateAfter(p, cc, s1, es), RequireKid(kid).value;
    SignedWith(p, cc, s, u, kid, payload, o);
    KeyOperationInv(p, cc, s, u, CreateJwt(false, kid, Some(payload)), o);
    SameKey(p, cc, s1, es, k);
    RequiredKid(kid);
    SignedJudged(p.lib, limits, s.born[k].alg, s.born[k].secret, payload, o.nonce, NowMs(s'));
    ResolvedByHeader(p.lib, f, token, s.born[k].alg, k);
    VerifyAnswer(p, cc, s', u2, f, Arrived(p.lib, token), k, o2, Verdict(limits, payload, NowMs(s')));
  }
}
