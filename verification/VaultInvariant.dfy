/** The invariant of the vault, kept by every step, and what it says about secrets, ACLs and listings. */
module VaultInvariant {
  import opened Text
  import opened Acl
  import opened Kek
  import opened KeyTable
  import opened UnwrapCache
  import opened Handlers
  import opened Vault

  // ---- the table statements keep rows well formed and key ids unique ----

  lemma UniqueCons(r: Row, t: Table)
    requires UniqueKids(t) && !HasKey(t, r.keyId)
    ensures UniqueKids([r] + t)
  {
  }

  lemma {:induction false} DeleteRows(t: Table, kid: Kid)
    requires UniqueKids(t)
    ensures UniqueKids(Delete(t, kid)) && forall r :: r in Delete(t, kid) ==> r in t
  {
    if t != [] {
      TailUnique(t);
      DeleteRows(t[1..], kid);
      FindAfter(t[1..], kid, t[0].keyId, map[], Embedded("", Jwe("", 0, OtherJson)));
      if t[0].keyId != kid { UniqueCons(t[0], Delete(t[1..], kid)); }
      assert t == [t[0]] + t[1..];
      assert [] + Delete(t[1..], kid) == Delete(t[1..], kid);
    }
  }

  lemma {:induction false} SweepRows(t: Table, now: int, grace: nat)
    requires UniqueKids(t)
    ensures UniqueKids(Sweep(t, now, grace)) && forall r :: r in Sweep(t, now, grace) ==> r in t
  {
    if t != [] {
      TailUnique(t);
      SweepRows(t[1..], now, grace);
      FindSwept(t[1..], now, grace, t[0].keyId);
      if !Sweepable(t[0], now, grace) { UniqueCons(t[0], Sweep(t[1..], now, grace)); }
      assert t == [t[0]] + t[1..];
      assert [] + Sweep(t[1..], now, grace) == Sweep(t[1..], now, grace);
    }
  }

  lemma {:induction false} SetAclRows(t: Table, kid: Kid, acl: Grants)
    requires UniqueKids(t)
    ensures UniqueKids(SetAcl(t, kid, acl))
    ensures forall r :: r in SetAcl(t, kid, acl) ==> r in t || (exists q :: q in t && r == q.(acl := acl))
  {
    if t != [] {
      TailUnique(t);
      SetAclRows(t[1..], kid, acl);
      FindAfter(t[1..], kid, t[0].keyId, acl, Embedded("", Jwe("", 0, OtherJson)));
      UniqueCons(SetAcl(t, kid, acl)[0], SetAcl(t[1..], kid, acl));
      assert t == [t[0]] + t[1..];
    }
  }

  lemma {:induction false} SetEmbeddingRows(t: Table, kid: Kid, e: Embedded)
    requires UniqueKids(t)
    ensures UniqueKids(SetEmbedding(t, kid, e))
    ensures forall r :: r in SetEmbedding(t, kid, e) ==>
              r in t || (exists q :: q in t && q.keyId == kid && r == Rewrapped(q, e))
  {
    if t != [] {
      TailUnique(t);
      SetEmbeddingRows(t[1..], kid, e);
      FindAfter(t[1..], kid, t[0].keyId, map[], e);
      UniqueCons(SetEmbedding(t, kid, e)[0], SetEmbedding(t[1..], kid, e));
      assert t == [t[0]] + t[1..];
    }
  }

  lemma UniqueAppend(t: Table, row: Row)
    requires UniqueKids(t) && !HasKey(t, row.keyId)
    ensures UniqueKids(t + [row])
  {
    var all := t + [row];
    forall i, j | 0 <= i < j < |all| ensures all[i].keyId != all[j].keyId {
      if j == |t| { assert all[i] == t[i]; }
    }
  }

  // ---- rows and the registry of generated keys ----

  ghost predicate Grows(born: map<Kid, Born>, born': map<Kid, Born>) {
    forall k :: k in born ==> k in born' && born'[k] == born[k]
  }

  lemma RowsOkGrow(born: map<Kid, Born>, born': map<Kid, Born>, rows: Table)
    requires RowsOk(born, rows) && Grows(born, born')
    ensures RowsOk(born', rows)
  {
    forall row | row in rows ensures RowOk(born', row) { assert RowOk(born, row); }
  }

  lemma RewrapsGrow(s: State, born': map<Kid, Born>)
    requires Inv(s) && Grows(s.born, born')
    ensures forall i :: 0 <= i < |s.rewraps| ==> RewrapOk(born', s.rewraps[i])
  {
    forall i | 0 <= i < |s.rewraps| ensures RewrapOk(born', s.rewraps[i]) {
      RowsOkGrow(s.born, born', s.rewraps[i].work);
    }
  }

  /** A good row extracts, under any manager, to the secret generated for its id, or its KEK is missing. */
  lemma RowSecret(born: map<Kid, Born>, row: Row, m: Manager)
    requires RowOk(born, row) && ManagerOk(m)
    ensures ExtractRow(m, row)
            == if row.embeddingKeyId in m.byId then Ok(born[row.keyId].secret) else Err(KekUnavailable)
  {
  }

  /** Rewrapping rebuilds exactly the claims that were embedded at generation. */
  lemma RewrappedRowOk(born: map<Kid, Born>, row: Row, from: Row, m: Manager, iat: int, nonce: nat)
    requires RowOk(born, row) && RowOk(born, from) && row.keyId == from.keyId
    ensures RowOk(born, Rewrapped(row, Embed(m, born[from.keyId].secret, RewrapMeta(from, iat), nonce)))
  {
    SecondsRoundTrip(born[from.keyId].nbf);
    SecondsRoundTrip(born[from.keyId].exp);
  }

  lemma NewRowOk(s: State, u: User, g: GenParams, o: Oracle, acl: Grants)
    requires Inv(s) && o.kid !in s.born && g.spec.Ok? && WellFormed(acl)
    ensures var spec := g.spec.value;
            var b := Born(NewSecret(spec, o), spec.kty, spec.alg, TsValue(g.nbf), TsValue(g.exp));
            RowOk(s.born[o.kid := b], NewRow(s.kek, spec, acl, TsValue(g.nbf), TsValue(g.exp), NowSeconds(s), o))
  {
  }

  // ---- every step keeps the invariant ----

  lemma GenerateInv(s: State, u: User, extra: bool, g: GenParams, o: Oracle)
    requires Inv(s) && UserOk(u) && o.kid !in s.born && AclInputOk(g.acl)
    ensures var s' := Generate(s, u, extra, g, o).0; Inv(s') && Grows(s.born, s'.born)
  {
    var s' := Generate(s, u, extra, g, o).0;
    if s' != s {
      NewAclOk(u, g.acl, s.users);
      var acl := NewAcl(u, g.acl, s.users).value;
      NewRowOk(s, u, g, o, acl);
      RowsOkGrow(s.born, s'.born, s.rows);
      RewrapsGrow(s, s'.born);
      UniqueAppend(s.rows, s'.rows[|s.rows|]);
    }
  }

  lemma KeyOperationInv(p: Policy, cc: CacheConfig, s: State, u: User, r: Request, o: Oracle)
    requires Inv(s) && OnKey(r)
    ensures var s' := KeyOperation(p, cc, s, u, r, o).0; Inv(s') && s'.born == s.born
  {
    if Target(p, r).Ok? && Find(s.rows, Target(p, r).value).Some? {
      var row := Find(s.rows, Target(p, r).value).value;
      assert RowOk(s.born, row);
      UnwrapTransparent(s.kek, s.cache, row, NowMs(s), cc.ttl, cc.capacity);
      DeleteRows(s.rows, Target(p, r).value);
    }
  }

  /** A key operation on a key that is there, case by case. */
  lemma KeyStep(p: Policy, cc: CacheConfig, s: State, u: User, r: Request, o: Oracle, row: Row)
    requires OnKey(r) && Target(p, r).Ok? && Find(s.rows, Target(p, r).value) == Some(row)
    ensures var (cache, secret) := Unwrap(s.kek, s.cache, row, NowMs(s), cc.ttl, cc.capacity);
            var out := After(p, r, ViewOf(row, secret), NowMs(s), o.nonce);
            KeyOperation(p, cc, s, u, r, o)
            == if !Effective(u.mask, row.acl, u.userId, OpClass(r)) then (s, Fail(ApiError(KEY_NOT_FOUND, "", true)))
               else if !InWindow(row.notBefore, row.expiresAt, NowMs(s)) then (s, Fail(Fault(KEY_NOT_FOUND)))
               else if r.RevokeKey? then
                 (s.(rows := Delete(s.rows, row.keyId), cache := Remove(s.cache, row.keyId)), out)
               else if UsesSecret(r, ViewOf(row, secret)) then (s.(cache := cache), out)
               else (s, out)
  {
  }

  /** The answer of a key operation about a key that is there. */
  lemma KeyAnswer(p: Policy, cc: CacheConfig, s: State, u: User, r: Request, o: Oracle, row: Row)
    requires Inv(s) && OnKey(r) && Target(p, r).Ok? && Find(s.rows, Target(p, r).value) == Some(row)
    ensures KeyOperation(p, cc, s, u, r, o).1
            == if !Effective(u.mask, row.acl, u.userId, OpClass(r)) then Fail(ApiError(KEY_NOT_FOUND, "", true))
               else if !InWindow(row.notBefore, row.expiresAt, NowMs(s)) then Fail(Fault(KEY_NOT_FOUND))
               else After(p, r, ViewOf(row, ExtractRow(s.kek, row)), NowMs(s), o.nonce)
  {
    assert RowOk(s.born, row);
    KeyStep(p, cc, s, u, r, o, row);
    UnwrapTransparent(s.kek, s.cache, row, NowMs(s), cc.ttl, cc.capacity);
  }

  lemma OperationRows(p: Policy, cc: CacheConfig, s: State, u: User, r: Request, o: Oracle)
    requires OnKey(r)
    ensures var (s', out) := KeyOperation(p, cc, s, u, r, o);
            && (out.Done? ==> Target(p, r).Ok? && HasKey(s.rows, Target(p, r).value))
            && s'.rows == (if out.Done? && r.RevokeKey? then Delete(s.rows, Target(p, r).value) else s.rows)
            && s'.(rows := s.rows, cache := s.cache) == s
  {
  }

  lemma AdminAclInv(s: State, kid: Kid, acl: AclInput)
    requires Inv(s)
    ensures Inv(AdminAcl(s, kid, acl))
  {
    var s' := AdminAcl(s, kid, acl);
    if s' != s {
      ValidatedWellFormed(acl);
      SetAclRows(s.rows, kid, Validated(acl).value);
      forall r | r in s'.rows ensures RowOk(s.born, r) {
        if r !in s.rows {
          var q :| q in s.rows && r == q.(acl := Validated(acl).value);
          assert RowOk(s.born, q);
        }
      }
    }
  }

  lemma RewrapIterationInv(s: State, p: Rewrap, nonce: nat)
    requires Inv(s) && RewrapOk(s.born, p) && p.done < |p.work|
    ensures var (rows, p') := RewrapIteration(s, p, nonce);
            UniqueKids(rows) && RowsOk(s.born, rows) && RewrapOk(s.born, p')
  {
    var from := p.work[p.done];
    assert RowOk(s.born, from);
    RowSecret(s.born, from, p.kek);
    if ExtractRow(p.kek, from).Ok? {
      var e := Embed(p.kek, s.born[from.keyId].secret, RewrapMeta(from, NowSeconds(s)), nonce);
      SetEmbeddingRows(s.rows, from.keyId, e);
      forall r | r in SetEmbedding(s.rows, from.keyId, e) ensures RowOk(s.born, r) {
        if r !in s.rows {
          var q :| q in s.rows && q.keyId == from.keyId && r == Rewrapped(q, e);
          assert RowOk(s.born, q);
          RewrappedRowOk(s.born, q, from, p.kek, NowSeconds(s), nonce);
        }
      }
    }
  }

  lemma StepKeepsInv(p: Policy, cc: CacheConfig, s: State, e: Step)
    requires Inv(s) && StepOk(s, e)
    ensures Inv(Next(p, cc, s, e).0) && Grows(s.born, Next(p, cc, s, e).0.born)
  {
    match e
    case Api(u, r, o) =>
      if OnKey(r) { KeyOperationInv(p, cc, s, u, r, o); }
      else if r.GenerateKey? { GenerateInv(s, u, r.extra, r.gen, o); }
    case SweepExpired(grace) => SweepRows(s.rows, s.clock, grace);
    case UpdateAcl(kid, acl) => AdminAclInv(s, kid, acl);
    case StartRewrap(m) => OtherKekRows(s.rows, m.active.kid);
    case NextRewrap(i, nonce) =>
      if i < |s.rewraps| && s.rewraps[i].done < |s.rewraps[i].work| { RewrapIterationInv(s, s.rewraps[i], nonce); }
    case _ =>
  }

  // ---- runs ----

  function StateAfter(p: Policy, cc: CacheConfig, s: State, es: seq<Step>): State {
    if es == [] then s else Next(p, cc, StateAfter(p, cc, s, es[..|es| - 1]), es[|es| - 1]).0
  }

  ghost predicate RunOk(p: Policy, cc: CacheConfig, s: State, es: seq<Step>) {
    forall i :: 0 <= i < |es| ==> StepOk(StateAfter(p, cc, s, es[..i]), es[i])
  }

  lemma RunOkPrefix(p: Policy, cc: CacheConfig, s: State, es: seq<Step>)
    requires RunOk(p, cc, s, es) && es != []
    ensures RunOk(p, cc, s, es[..|es| - 1])
  {
    var n := |es| - 1;
    forall i | 0 <= i < n ensures StepOk(StateAfter(p, cc, s, es[..n][..i]), es[..n][i]) {
      assert es[..n][..i] == es[..i];
    }
  }

  lemma {:induction false} RunKeepsInv(p: Policy, cc: CacheConfig, s: State, es: seq<Step>)
    requires Inv(s) && RunOk(p, cc, s, es)
    ensures Inv(StateAfter(p, cc, s, es)) && Grows(s.born, StateAfter(p, cc, s, es).born)
  {
    if es != [] {
      var n := |es| - 1;
      RunOkPrefix(p, cc, s, es);
      RunKeepsInv(p, cc, s, es[..n]);
      StepKeepsInv(p, cc, StateAfter(p, cc, s, es[..n]), es[n]);
    }
  }

  /** The same, from the first step on. */
  ghost predicate Possible(p: Policy, cc: CacheConfig, s: State, es: seq<Step>)
    decreases |es|
  {
    es != [] ==> StepOk(s, es[0]) && Possible(p, cc, Next(p, cc, s, es[0]).0, es[1..])
  }

  function Outputs(p: Policy, cc: CacheConfig, s: State, es: seq<Step>): seq<Option<Outcome>>
    decreases |es|
  {
    if es == [] then [] else var (s', out) := Next(p, cc, s, es[0]); [out] + Outputs(p, cc, s', es[1..])
  }

  lemma InitialInv(s: State)
    requires Initial(s)
    ensures Inv(s)
  {
  }

  /** A key's secret is immutable. Whatever happens in between (rewraps that stop anywhere, several at
      once, restarts with other KEKs, sweeps, ACL edits), a row still there holds, for every manager that
      knows its KEK, the secret it held before. */
  lemma SecretImmutable(p: Policy, cc: CacheConfig, s: State, es: seq<Step>, kid: Kid, m: Manager, m': Manager)
    requires Inv(s) && RunOk(p, cc, s, es) && ManagerOk(m) && ManagerOk(m')
    requires HasKey(s.rows, kid) && HasKey(StateAfter(p, cc, s, es).rows, kid)
    ensures var r, r' := Find(s.rows, kid).value, Find(StateAfter(p, cc, s, es).rows, kid).value;
            (ExtractRow(m, r).Ok? <==> r.embeddingKeyId in m.byId)
            && (ExtractRow(m', r').Ok? <==> r'.embeddingKeyId in m'.byId)
            && (ExtractRow(m, r).Ok? && ExtractRow(m', r').Ok? ==> ExtractRow(m, r) == ExtractRow(m', r'))
            && r'.(acl := r.acl, embeddingKeyId := r.embeddingKeyId, embeddedKey := r.embeddedKey) == r
  {
    RunKeepsInv(p, cc, s, es);
    var r, r' := Find(s.rows, kid).value, Find(StateAfter(p, cc, s, es).rows, kid).value;
    assert RowOk(s.born, r) && RowOk(StateAfter(p, cc, s, es).born, r');
    RowSecret(s.born, r, m);
    RowSecret(StateAfter(p, cc, s, es).born, r', m');
  }

  /** Every ACL in the table is a fixpoint of validateAcl. */
  lemma StoredAclsNormal(p: Policy, cc: CacheConfig, s: State, es: seq<Step>, ms: seq<Member>, row: Row)
    requires Initial(s) && RunOk(p, cc, s, es) && row in StateAfter(p, cc, s, es).rows && Lists(ms, row.acl)
    ensures Validated(Object(ms)) == Ok(row.acl)
  {
    InitialInv(s);
    RunKeepsInv(p, cc, s, es);
    assert RowOk(StateAfter(p, cc, s, es).born, row);
    WellFormedIsFixpoint(ms, row.acl);
  }
}
