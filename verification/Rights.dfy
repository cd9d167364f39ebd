/** Who gets what from a key operation, stated by the documented class names, in one state and over runs. */
module Rights {
  import opened Text
  import opened Acl
  import opened Kek
  import opened KeyTable
  import opened UnwrapCache
  import opened Handlers
  import opened Vault
  import opened VaultInvariant
  import opened Listing
  import opened RewrapLive

  // ---- the key that a request names ----

  predicate NamesKid(v: JsValue, kid: Kid) { v.JsString? && IsUuid(v.s) && ToLower(v.s) == kid }

  /** A token operation resolves to the key that the request and the token header name, where each names it
      or is silent, and one does. */
  lemma ResolvedIff(f: Field, h: Header, kid: Kid)
    ensures ResolveKid(f, h) == Ok(kid) <==>
            (f.Present? ==> NamesKid(f.v, kid)) && (h.kid.Present? ==> NamesKid(h.kid.v, kid))
            && (f.Present? || h.kid.Present?)
  {
  }

  // ---- rights in one state ----

  /** The documented class for the operation is granted to the user, or owner is, and the mask has it. */
  predicate Granted(u: User, acl: Grants, r: Request)
    requires OnKey(r)
  {
    var need :=
      match r
      case GetPublicKey(_, _) => "export-public-key"
      case CreateJwt(_, _, _) => "sign"
      case VerifyJwt(_, _, _) => "verify"
      case CreateJwe(_, _, _, _) => "encrypt"
      case DecryptJwe(_, _, _) => "decrypt"
      case RevokeKey(_, _) => "revoke-key"
      case ExportKey(_, _) => "export-secret-key";
    && u.userId in acl && (need in acl[u.userId] || "owner" in acl[u.userId])
    && (u.mask.NoData? || u.mask.Absent? || (u.mask.List? && need in u.mask.ops))
  }

  /** The key is there, granted for the operation, and in its validity window. */
  predicate Live(s: State, u: User, r: Request, kid: Kid)
    requires OnKey(r)
  {
    Find(s.rows, kid).Some?
    && var row := Find(s.rows, kid).value;
    && Granted(u, row.acl, r)
    && (row.notBefore.Some? ==> row.notBefore.value <= NowMs(s))
    && (row.expiresAt.Some? ==> NowMs(s) < row.expiresAt.value)
  }

  lemma EffectiveIffGranted(u: User, acl: Grants, r: Request)
    requires OnKey(r) && UserOk(u)
    ensures Effective(u.mask, acl, u.userId, OpClass(r)) <==> Granted(u, acl, r)
  {
    assert OpClass(r) in OP_CLASSES;
  }

  /** Every operation that gets past its request checks answers key-not-found exactly when the key is not
      live for the caller: missing, not granted, masked out or outside its window, all alike. A denial, and
      only a denial, is marked for the audit log. */
  lemma NotFoundIff(p: Policy, cc: CacheConfig, s: State, u: User, r: Request, o: Oracle)
    requires Inv(s) && UserOk(u) && OnKey(r) && Target(p, r).Ok?
    ensures var kid := Target(p, r).value;
            var out := Handle(p, cc, s, u, r, o).1;
            && (Seen(out) == Fail(Fault(KEY_NOT_FOUND)) <==> !Live(s, u, r, kid))
            && (out.Fail? && out.error.masked <==>
                  Find(s.rows, kid).Some? && !Granted(u, Find(s.rows, kid).value.acl, r))
  {
    var kid := Target(p, r).value;
    if Find(s.rows, kid).Some? {
      var row := Find(s.rows, kid).value;
      EffectiveIffGranted(u, row.acl, r);
      KeyAnswer(p, cc, s, u, r, o, row);
      AfterNeverNotFound(p, r, ViewOf(row, ExtractRow(s.kek, row)), NowMs(s), o.nonce);
    }
  }

  lemma AfterNeverNotFound(p: Policy, r: Request, v: KeyView, nowMs: int, rnd: nat)
    requires OnKey(r) && Target(p, r).Ok?
    ensures var out := After(p, r, v, nowMs, rnd); out.Fail? ==> out.error.code != KEY_NOT_FOUND && !out.error.masked
  {
  }

  /** A key operation leaves every row as it is, except that a successful revoke, and nothing else, deletes
      the row of its own key. */
  lemma OperationFrame(p: Policy, cc: CacheConfig, s: State, u: User, r: Request, o: Oracle, kid: Kid)
    requires Inv(s) && OnKey(r)
    ensures var (s', out) := Handle(p, cc, s, u, r, o);
            Find(s'.rows, kid)
            == if out.Done? && r.RevokeKey? && Target(p, r) == Ok(kid) then None else Find(s.rows, kid)
  {
    OperationRows(p, cc, s, u, r, o);
    if Target(p, r).Ok? { FindAfter(s.rows, Target(p, r).value, kid, map[], NO_EMBEDDING); }
  }

  /** Key-not-available is told exactly to callers for whom the key is live, by operations that need its
      secret, when the server lacks its KEK. */
  lemma NotAvailableIff(p: Policy, cc: CacheConfig, s: State, u: User, r: Request, o: Oracle)
    requires Inv(s) && UserOk(u) && OnKey(r) && Target(p, r).Ok?
    ensures var kid := Target(p, r).value;
            KeyOperation(p, cc, s, u, r, o).1 == Fail(Fault(KEY_NOT_AVAILABLE))
            <==> Live(s, u, r, kid) && UsesSecret(r, Sight(Find(s.rows, kid).value))
                 && Find(s.rows, kid).value.embeddingKeyId !in s.kek.byId
  {
    var kid := Target(p, r).value;
    if Find(s.rows, kid).Some? {
      var row := Find(s.rows, kid).value;
      assert RowOk(s.born, row);
      EffectiveIffGranted(u, row.acl, r);
      KeyAnswer(p, cc, s, u, r, o, row);
      RowSecret(s.born, row, s.kek);
      AfterNotAvailable(p, r, ViewOf(row, ExtractRow(s.kek, row)), NowMs(s), o.nonce);
    }
  }

  lemma AfterNotAvailable(p: Policy, r: Request, v: KeyView, nowMs: int, rnd: nat)
    requires OnKey(r) && Target(p, r).Ok? && (v.secret.Err? ==> v.secret.error.KekUnavailable?)
    ensures After(p, r, v, nowMs, rnd) == Fail(Fault(KEY_NOT_AVAILABLE)) <==> UsesSecret(r, v) && v.secret.Err?
  {
  }

  /** What success with a request means for the kind, algorithm and secret of the key. */
  ghost predicate Fits(p: Policy, r: Request, kid: Kid, b: Born, data: Data)
    requires OnKey(r)
  {
    match r
    case GetPublicKey(_, _) => b.kty != "oct" && data == PublicKeyData(PublicHalf(b.secret))
    case CreateJwt(_, _, _) => b.alg in JWT_ALGS && data.TokenData?
    case VerifyJwt(_, _, t) => b.alg in JWT_ALGS && NamesAlg(t, b.alg) && data.Opened? && data.header == t.header.value
    case CreateJwe(_, _, _, _) => b.alg in JWE_ALGS && data.TokenData?
    case DecryptJwe(_, _, t) => b.alg in JWE_ALGS && NamesAlg(t, b.alg) && data.Opened? && data.header == t.header.value
    case RevokeKey(_, _) => data == Revoked(kid)
    case ExportKey(_, _) => p.allowExport && data == SecretKey(b.secret)
  }

  predicate NamesAlg(t: TokenArg, alg: string) { t.header.Some? && t.header.value.alg == JsString(alg) }

  lemma AfterFits(p: Policy, r: Request, v: KeyView, b: Born, nowMs: int, rnd: nat)
    requires OnKey(r) && Target(p, r).Ok? && After(p, r, v, nowMs, rnd).Done?
    requires v.kty == b.kty && v.alg == b.alg
    requires v.publicKey == if b.kty == "oct" then None else Some(PublicHalf(b.secret))
    requires v.secret.Ok? ==> v.secret.value == b.secret
    ensures Fits(p, r, v.keyId, b, After(p, r, v, nowMs, rnd).data)
  {
  }

  /** What success means, beyond rights: the key's algorithm fits the operation, a token names exactly that
      algorithm, only asymmetric keys have a public half to show and it belongs to the generated secret, and
      an export gives that secret and needs the server's consent. */
  lemma DoneMeans(p: Policy, cc: CacheConfig, s: State, u: User, r: Request, o: Oracle)
    requires Inv(s) && OnKey(r) && KeyOperation(p, cc, s, u, r, o).1.Done?
    ensures Target(p, r).Ok? && HasKey(s.rows, Target(p, r).value) && Target(p, r).value in s.born
    ensures Fits(p, r, Target(p, r).value, s.born[Target(p, r).value], KeyOperation(p, cc, s, u, r, o).1.data)
  {
    OperationRows(p, cc, s, u, r, o);
    var row := Find(s.rows, Target(p, r).value).value;
    assert RowOk(s.born, row);
    RowSecret(s.born, row, s.kek);
    KeyAnswer(p, cc, s, u, r, o, row);
    AfterFits(p, r, ViewOf(row, ExtractRow(s.kek, row)), s.born[row.keyId], NowMs(s), o.nonce);
  }

  /** The two operations without a target key are refused openly, exactly when the mask lacks them. */
  lemma NotPermittedIff(p: Policy, cc: CacheConfig, s: State, u: User, extra: bool, g: GenParams, o: Oracle)
    ensures Generate(s, u, extra, g, o).1 == Fail(Fault(OPERATION_NOT_PERMITTED)) <==>
            u.mask.Malformed? || (u.mask.List? && "generate-key" !in u.mask.ops)
    ensures ListOperation(s, u, false) == Fail(Fault(OPERATION_NOT_PERMITTED)) <==>
            u.mask.Malformed? || (u.mask.List? && "list-keys" !in u.mask.ops)
  {
  }

  // ---- rights over runs ----

  predicate Revokes(p: Policy, e: Step, kid: Kid) { e.Api? && e.req.RevokeKey? && Target(p, e.req) == Ok(kid) }

  lemma StepKeepsKey(p: Policy, cc: CacheConfig, s: State, e: Step, kid: Kid)
    requires Inv(s) && StepOk(s, e) && HasKey(s.rows, kid) && !Revokes(p, e, kid)
    requires e.SweepExpired? ==> !Sweepable(Find(s.rows, kid).value, s.clock, e.grace)
    ensures HasKey(Next(p, cc, s, e).0.rows, kid)
  {
    match e
    case Api(u, r, o) => { ApiKeepsKey(p, cc, s, u, r, o, kid); }
    case SweepExpired(grace) => { FindSwept(s.rows, s.clock, grace, kid); }
    case UpdateAcl(k, acl) => {
      if Validated(acl).Ok? { FindAfter(s.rows, k, kid, Validated(acl).value, NO_EMBEDDING); }
    }
    case NextRewrap(i, nonce) => {
      if i < |s.rewraps| && s.rewraps[i].done < |s.rewraps[i].work| { RewrapRowStep(s, i, nonce, kid); }
    }
    case _ =>
  }

  lemma ApiKeepsKey(p: Policy, cc: CacheConfig, s: State, u: User, r: Request, o: Oracle, kid: Kid)
    requires Inv(s) && StepOk(s, Api(u, r, o)) && HasKey(s.rows, kid) && !(r.RevokeKey? && Target(p, r) == Ok(kid))
    ensures HasKey(Handle(p, cc, s, u, r, o).0.rows, kid)
  {
    if OnKey(r) {
      OperationRows(p, cc, s, u, r, o);
      OperationFrame(p, cc, s, u, r, o, kid);
    } else if r.GenerateKey? {
      GenerateRowStep(s, u, r.extra, r.gen, o, kid);
    }
  }

  /** No live key is lost: over any run, whatever else is revoked, rewrapped, swept or edited, a key that
      nobody asked to revoke and that is not past its expiry is still there. */
  lemma {:induction false} LiveKeyKept(p: Policy, cc: CacheConfig, s: State, es: seq<Step>, kid: Kid)
    requires Inv(s) && RunOk(p, cc, s, es) && HasKey(s.rows, kid)
    requires forall i :: 0 <= i < |es| ==> !Revokes(p, es[i], kid)
    requires var expires := Find(s.rows, kid).value.expiresAt;
             expires.Some? ==> StateAfter(p, cc, s, es).clock <= expires.value * 1000
    ensures HasKey(StateAfter(p, cc, s, es).rows, kid)
  {
    if es != [] {
      var n := |es| - 1;
      var t := StateAfter(p, cc, s, es[..n]);
      RunOkPrefix(p, cc, s, es);
      RunKeepsInv(p, cc, s, es[..n]);
      assert StepOk(t, es[n]);
      ClockForward(p, cc, t, es[n]);
      LiveKeyKept(p, cc, s, es[..n], kid);
      SecretImmutable(p, cc, s, es[..n], kid, s.kek, s.kek);
      StepKeepsKey(p, cc, t, es[n], kid);
    }
  }

  /** The second half of revoke-key: the delete, and the answer to what it reports. */
  function FinishRevoke(s: State, kid: Kid): (State, Outcome) {
    (s.(rows := Delete(s.rows, kid), cache := Remove(s.cache, kid)),
     if HasKey(s.rows, kid) then Done(Revoked(kid)) else Fail(Fault(KEY_NOT_FOUND)))
  }

  lemma RevokeAtOnce(p: Policy, cc: CacheConfig, s: State, u: User, r: Request, o: Oracle)
    requires UserOk(u) && r.RevokeKey? && Target(p, r).Ok? && Live(s, u, r, Target(p, r).value)
    ensures KeyOperation(p, cc, s, u, r, o) == FinishRevoke(s, Target(p, r).value)
  {
    var row := Find(s.rows, Target(p, r).value).value;
    EffectiveIffGranted(u, row.acl, r);
    KeyStep(p, cc, s, u, r, o, row);
  }

  /** Step `i` of the run is a sweep that takes keys with this expiry. */
  predicate SweptAt(p: Policy, cc: CacheConfig, s: State, es: seq<Step>, expires: Option<int>, i: int)
    requires 0 <= i < |es|
  {
    es[i].SweepExpired? && expires.Some?
    && expires.value * 1000 + es[i].grace * 1_000_000 < StateAfter(p, cc, s, es[..i]).clock
  }

  lemma SweptStep(p: Policy, cc: CacheConfig, s: State, es: seq<Step>, expires: Option<int>)
    requires es != []
    ensures var n := |es| - 1;
            (exists i :: 0 <= i < |es| && SweptAt(p, cc, s, es, expires, i))
            <==> (exists i :: 0 <= i < n && SweptAt(p, cc, s, es[..n], expires, i)) || SweptAt(p, cc, s, es, expires, n)
  {
    var n := |es| - 1;
    forall i | 0 <= i < n ensures SweptAt(p, cc, s, es[..n], expires, i) <==> SweptAt(p, cc, s, es, expires, i) {
      assert es[..n][..i] == es[..i];
    }
  }

  /** What the last step does to a key that is there before it. */
  lemma SweptOrKept(p: Policy, cc: CacheConfig, t: State, e: Step, kid: Kid)
    requires Inv(t) && StepOk(t, e) && HasKey(t.rows, kid) && !Revokes(p, e, kid)
    ensures HasKey(Next(p, cc, t, e).0.rows, kid) <==>
            !(e.SweepExpired? && Find(t.rows, kid).value.expiresAt.Some?
              && Find(t.rows, kid).value.expiresAt.value * 1000 + e.grace * 1_000_000 < t.clock)
  {
    if e.SweepExpired? { FindSwept(t.rows, t.clock, e.grace, kid); } else { StepKeepsKey(p, cc, t, e, kid); }
  }

  /** Over any run a key that nobody asked to revoke is gone if and only if one of the run's sweeps took it: at
      the time of that sweep its expiry was past by more than the grace. */
  lemma {:induction false} GoneIffSwept(p: Policy, cc: CacheConfig, s: State, es: seq<Step>, kid: Kid)
    requires Inv(s) && RunOk(p, cc, s, es) && HasKey(s.rows, kid)
    requires forall i :: 0 <= i < |es| ==> !Revokes(p, es[i], kid)
    ensures !HasKey(StateAfter(p, cc, s, es).rows, kid) <==>
            exists i :: 0 <= i < |es| && SweptAt(p, cc, s, es, Find(s.rows, kid).value.expiresAt, i)
  {
    if es != [] {
      var n, expires := |es| - 1, Find(s.rows, kid).value.expiresAt;
      var t := StateAfter(p, cc, s, es[..n]);
      RunOkPrefix(p, cc, s, es);
      RunKeepsInv(p, cc, s, es[..n]);
      GoneIffSwept(p, cc, s, es[..n], kid);
      SweptStep(p, cc, s, es, expires);
      assert StepOk(t, es[n]);
      if HasKey(t.rows, kid) {
        SecretImmutable(p, cc, s, es[..n], kid, s.kek, s.kek);
        SweptOrKept(p, cc, t, es[n], kid);
      } else {
        assert RowOk(s.born, Find(s.rows, kid).value);
        RowStep(p, cc, t, es[n], kid);
      }
    }
  }

  /** The two halves of a revoke, with anything in between. Without a gap they are the one step of the vault
      (RevokeAtOnce). With a gap, a key that was there at the load and that nobody else revoked is reported
      missing by the delete if and only if a sweep in the gap took it; either way it is gone afterwards. */
  lemma RevokeGap(p: Policy, cc: CacheConfig, s: State, es: seq<Step>, kid: Kid)
    requires Inv(s) && RunOk(p, cc, s, es) && HasKey(s.rows, kid)
    requires forall i :: 0 <= i < |es| ==> !Revokes(p, es[i], kid)
    ensures var s' := StateAfter(p, cc, s, es);
            && (FinishRevoke(s', kid).1 == Fail(Fault(KEY_NOT_FOUND)) <==>
                  exists i :: 0 <= i < |es| && SweptAt(p, cc, s, es, Find(s.rows, kid).value.expiresAt, i))
            && !HasKey(FinishRevoke(s', kid).0.rows, kid)
  {
    FindAfter(StateAfter(p, cc, s, es).rows, kid, kid, map[], NO_EMBEDDING);
    GoneIffSwept(p, cc, s, es, kid);
  }

  lemma ClockForward(p: Policy, cc: CacheConfig, s: State, e: Step)
    ensures s.clock <= Next(p, cc, s, e).0.clock
  {
    if e.Api? && OnKey(e.req) { OperationRows(p, cc, s, e.user, e.req, e.oracle); }
  }

  lemma CapInState(p: Policy, cc: CacheConfig, s: State, u: User, r: Request, o: Oracle)
    requires Inv(s) && OnKey(r) && !AllowedOpsAllows(u.mask, OpClass(r))
    ensures KeyOperation(p, cc, s, u, r, o).1.Fail?
  {
    if Target(p, r).Ok? && Find(s.rows, Target(p, r).value).Some? {
      KeyAnswer(p, cc, s, u, r, o, Find(s.rows, Target(p, r).value).value);
    }
  }

  /** A capability mask is a cap: whatever ACLs say and become, a user whose mask lacks the class of an
      operation, or is malformed, never succeeds with it. */
  lemma MaskIsCap(p: Policy, cc: CacheConfig, s: State, es: seq<Step>, u: User, r: Request, o: Oracle)
    requires Inv(s) && RunOk(p, cc, s, es) && OnKey(r) && !AllowedOpsAllows(u.mask, OpClass(r))
    ensures Handle(p, cc, StateAfter(p, cc, s, es), u, r, o).1.Fail?
  {
    RunKeepsInv(p, cc, s, es);
    CapInState(p, cc, StateAfter(p, cc, s, es), u, r, o);
  }

  lemma GoneForAll(p: Policy, cc: CacheConfig, s: State, k: Kid, u: User, r: Request, o: Oracle)
    requires Inv(s) && UserOk(u) && !HasKey(s.rows, k)
    ensures OnKey(r) && Target(p, r) == Ok(k) ==> Seen(Handle(p, cc, s, u, r, o).1) == Fail(Fault(KEY_NOT_FOUND))
    ensures forall x :: x in ListRows(ByAclUser(s.rows, u.userId), u, NowMs(s)) ==> x.kid != k
  {
    if OnKey(r) && Target(p, r) == Ok(k) { NotFoundIff(p, cc, s, u, r, o); }
    PrefilterLosesNothing(s.rows, u, NowMs(s));
    forall x | x in ListRows(s.rows, u, NowMs(s)) ensures x.kid != k { ListedIn(s.rows, u, NowMs(s), x); }
  }

  lemma RevokeEffect(p: Policy, cc: CacheConfig, s: State, u: User, r: Request, o: Oracle)
    requires Inv(s) && r.RevokeKey? && KeyOperation(p, cc, s, u, r, o).1.Done?
    ensures Target(p, r).Ok?
    ensures var s' := KeyOperation(p, cc, s, u, r, o).0;
            Inv(s') && !HasKey(s'.rows, Target(p, r).value) && Target(p, r).value in s'.born
  {
    KeyOperationInv(p, cc, s, u, r, o);
    OperationRows(p, cc, s, u, r, o);
    OperationFrame(p, cc, s, u, r, o, Target(p, r).value);
    assert RowOk(s.born, Find(s.rows, Target(p, r).value).value);
  }

  /** Once a key is revoked it stays gone for everyone: no later request on it, by any user, gets anything
      but key-not-found, and no later listing has it. */
  lemma RevokedForGood(p: Policy, cc: CacheConfig, s: State, u: User, r: Request, o: Oracle, s1: State, es: seq<Step>,
                       u2: User, r2: Request, o2: Oracle)
    requires Inv(s) && UserOk(u2) && r.RevokeKey?
    requires Handle(p, cc, s, u, r, o).1.Done? && Handle(p, cc, s, u, r, o).0 == s1
    requires RunOk(p, cc, s1, es)
    ensures Target(p, r).Ok?
    ensures var k, s' := Target(p, r).value, StateAfter(p, cc, s1, es);
            && (OnKey(r2) && Target(p, r2) == Ok(k) ==>
                  Seen(Handle(p, cc, s', u2, r2, o2).1) == Fail(Fault(KEY_NOT_FOUND)))
            && (forall x :: x in ListRows(ByAclUser(s'.rows, u2.userId), u2, NowMs(s')) ==> x.kid != k)
  {
    RevokeEffect(p, cc, s, u, r, o);
    NeverRestored(p, cc, s1, es, Target(p, r).value);
    RunKeepsInv(p, cc, s1, es);
    GoneForAll(p, cc, StateAfter(p, cc, s1, es), Target(p, r).value, u2, r2, o2);
  }

  // ---- generate-key ----

  lemma GeneratedRow(s: State, u: User, g: GenParams, o: Oracle)
    requires Inv(s) && o.kid !in s.born && Generate(s, u, false, g, o).1.Done?
    ensures GenerateProblem(u, false, g, NowSeconds(s)).None? && NewAcl(u, g.acl, s.users).Ok?
    ensures var s' := Generate(s, u, false, g, o).0;
            && Find(s'.rows, o.kid) == Some(NewRow(s.kek, g.spec.value, NewAcl(u, g.acl, s.users).value, TsValue(g.nbf),
                                                   TsValue(g.exp), NowSeconds(s), o))
            && o.kid in s'.born && s'.born[o.kid].secret == NewSecret(g.spec.value, o) && s'.clock == s.clock
  {
    forall i | 0 <= i < |s.rows| ensures s.rows[i].keyId in s.born { assert RowOk(s.born, s.rows[i]); }
    var acl := NewAcl(u, g.acl, s.users).value;
    FindInserted(s.rows, NewRow(s.kek, g.spec.value, acl, TsValue(g.nbf), TsValue(g.exp), NowSeconds(s), o), o.kid);
  }

  /** An owner may do all that its mask permits. */
  lemma OwnerGranted(u: User, acl: Grants, r: Request)
    requires OnKey(r) && u.userId in acl && "owner" in acl[u.userId]
    ensures Granted(u, acl, r) <==> AllowedOpsAllows(u.mask, OpClass(r))
  {
  }

  lemma AcceptedWindow(u: User, g: GenParams, nowMs: int)
    requires GenerateProblem(u, false, g, nowMs / 1000).None?
    ensures g.nbf.Ts? && g.exp.Ts? ==> g.nbf.v < g.exp.v
    ensures InWindow(DateOf(TsValue(g.nbf)), DateOf(TsValue(g.exp)), nowMs) <==> (g.nbf.Ts? ==> g.nbf.v * 1000 <= nowMs)
  {
  }

  lemma LiveIff(s: State, u: User, r: Request, kid: Kid, row: Row)
    requires OnKey(r) && Find(s.rows, kid) == Some(row)
    ensures Live(s, u, r, kid) <==> Granted(u, row.acl, r) && InWindow(row.notBefore, row.expiresAt, NowMs(s))
  {
  }

  lemma NewRowReads(m: Manager, spec: KeySpec, acl: Grants, nbf: Option<int>, exp: Option<int>, iat: int, o: Oracle)
    requires ManagerOk(m)
    ensures var row := NewRow(m, spec, acl, nbf, exp, iat, o);
            row.acl == acl && row.notBefore == DateOf(nbf) && row.expiresAt == DateOf(exp)
            && ExtractRow(m, row) == Ok(NewSecret(spec, o))
  {
  }

  /** The reply names the new key, and shows its public half exactly when asked to, which only an asymmetric
      key admits. */
  lemma GeneratedReply(s: State, u: User, g: GenParams, o: Oracle)
    requires Generate(s, u, false, g, o).1.Done?
    ensures var data := Generate(s, u, false, g, o).1.data;
            && g.spec.Ok? && data.Generated? && data.newKid == o.kid
            && data.returned == (if g.returnPublicKey == Bool(true)
                                 then Some(PublicHalf(NewSecret(g.spec.value, o))) else None)
            && (data.returned.Some? ==> g.spec.value.kty != "oct")
  {
  }

  /** What generate-key accepts has a validity window that is not over and not empty; the key is live for its
      creator at once, for everything its mask permits, unless it begins later. */
  lemma GeneratedUsable(s: State, u: User, g: GenParams, o: Oracle, r: Request)
    requires Inv(s) && UserOk(u) && o.kid !in s.born && AclInputOk(g.acl)
    requires Generate(s, u, false, g, o).1.Done? && OnKey(r)
    ensures var s' := Generate(s, u, false, g, o).0;
            && Find(s'.rows, o.kid).Some? && o.kid in s'.born
            && (Live(s', u, r, o.kid) <==>
                  (g.nbf.Ts? ==> g.nbf.v * 1000 <= NowMs(s)) && AllowedOpsAllows(u.mask, OpClass(r)))
            && (g.nbf.Ts? && g.exp.Ts? ==> g.nbf.v < g.exp.v)
            && ExtractRow(s.kek, Find(s'.rows, o.kid).value) == Ok(s'.born[o.kid].secret)
  {
    var s' := Generate(s, u, false, g, o).0;
    GeneratedRow(s, u, g, o);
    NewAclOk(u, g.acl, s.users);
    OwnerGranted(u, NewAcl(u, g.acl, s.users).value, r);
    AcceptedWindow(u, g, NowMs(s));
    var row := Find(s'.rows, o.kid).value;
    LiveIff(s', u, r, o.kid, row);
    NewRowReads(s.kek, g.spec.value, NewAcl(u, g.acl, s.users).value, TsValue(g.nbf), TsValue(g.exp), NowSeconds(s), o);
  }
}
