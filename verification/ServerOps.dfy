/** The key operations of serverhandlers.js on the key store and the database, in the order in which the
    code reads and writes them. */
module ServerOps {
  import opened Text
  import opened Acl
  import opened Kek
  import opened KeyTable
  import opened UnwrapCache
  import opened Handlers
  import opened Vault
  import opened VaultInvariant
  import opened Listing

  /** Delete the row, then drop the cache entry. */
  method Revoke(ks: KeyStore, db: VaultDb, kid: Kid) returns (deleted: bool)
    modifies ks, db`rows
    ensures deleted <==> HasKey(old(db.rows), kid)
    ensures db.rows == Delete(old(db.rows), kid) && ks.cache == Remove(old(ks.cache), kid)
  {
    deleted := db.DeleteKey(kid);
    ks.Forget(kid);
  }

  /** The part after authorization of an operation that is no revoke: unwrap only if the secret is needed. */
  method UseKey(p: Policy, ks: KeyStore, r: Request, o: Oracle, row: Row, nowMs: int) returns (out: Outcome)
    requires OnKey(r) && Target(p, r).Ok?
    modifies ks
    ensures var (cache, secret) := Unwrap(ks.kek, old(ks.cache), row, nowMs, ks.cacheTtlMs, ks.cacheMaxEntries);
            && out == After(p, r, ViewOf(row, secret), nowMs, o.nonce)
            && ks.cache == if UsesSecret(r, ViewOf(row, secret)) then cache else old(ks.cache)
  {
    ghost var secret' := Unwrap(ks.kek, ks.cache, row, nowMs, ks.cacheTtlMs, ks.cacheMaxEntries).1;
    SecretMatters(p, r, Sight(row), secret', nowMs, o.nonce);
    assert UsesSecret(r, Sight(row)) == UsesSecret(r, ViewOf(row, secret'));
    if !UsesSecret(r, Sight(row)) { return After(p, r, Sight(row), nowMs, o.nonce); }
    var secret := ks.UnwrapNow(row, nowMs);
    out := After(p, r, ViewOf(row, secret), nowMs, o.nonce);
  }

  /** authorizedKey: load the row and authorize the class on it; every refusal is key-not-found. */
  method AuthorizedKey(db: VaultDb, u: User, kid: Kid, opClass: string, nowMs: int) returns (r: Result<Row, ApiError>)
    ensures r.Ok? ==> Find(db.rows, kid) == Some(r.value)
    ensures r.Ok? <==> Find(db.rows, kid).Some?
                       && var row := Find(db.rows, kid).value;
                       Effective(u.mask, row.acl, u.userId, opClass) && InWindow(row.notBefore, row.expiresAt, nowMs)
    ensures r.Err? ==> r.error == ApiError(KEY_NOT_FOUND, "", Find(db.rows, kid).Some?
                         && !Effective(u.mask, Find(db.rows, kid).value.acl, u.userId, opClass))
  {
    var row := db.KeyById(kid);
    if row.None? { return Err(Fault(KEY_NOT_FOUND)); }
    if !(AclAllows(row.value.acl, u.userId, opClass) && AllowedOpsAllows(u.mask, opClass)) {
      return Err(ApiError(KEY_NOT_FOUND, "", true));
    }
    if !InWindow(row.value.notBefore, row.value.expiresAt, nowMs) { return Err(Fault(KEY_NOT_FOUND)); }
    return Ok(row.value);
  }

  /** What an operation does with a key it was given: revoke it or use it. */
  method FinishOperation(p: Policy, ks: KeyStore, db: VaultDb, r: Request, o: Oracle, row: Row, nowMs: int)
    returns (out: Outcome)
    requires OnKey(r) && Target(p, r).Ok? && Find(db.rows, row.keyId) == Some(row)
    modifies ks, db`rows
    ensures var (cache, secret) := Unwrap(ks.kek, old(ks.cache), row, nowMs, ks.cacheTtlMs, ks.cacheMaxEntries);
            && out == After(p, r, ViewOf(row, secret), nowMs, o.nonce)
            && db.rows == (if r.RevokeKey? then Delete(old(db.rows), row.keyId) else old(db.rows))
            && ks.cache == if r.RevokeKey? then Remove(old(ks.cache), row.keyId)
                           else if UsesSecret(r, ViewOf(row, secret)) then cache else old(ks.cache)
  {
    if r.RevokeKey? {
      var deleted := Revoke(ks, db, row.keyId);
      return if deleted then Done(Revoked(row.keyId)) else Fail(Fault(KEY_NOT_FOUND));
    }
    out := UseKey(p, ks, r, o, row, nowMs);
  }

  lemma RefusedStep(p: Policy, cc: CacheConfig, s: State, u: User, r: Request, o: Oracle)
    requires OnKey(r) && Target(p, r).Ok?
    requires var found := Find(s.rows, Target(p, r).value);
             found.None? || !Effective(u.mask, found.value.acl, u.userId, OpClass(r))
             || !InWindow(found.value.notBefore, found.value.expiresAt, NowMs(s))
    ensures var found := Find(s.rows, Target(p, r).value);
            KeyOperation(p, cc, s, u, r, o)
            == (s, Fail(ApiError(KEY_NOT_FOUND, "",
                                 found.Some? && !Effective(u.mask, found.value.acl, u.userId, OpClass(r)))))
  {
    var found := Find(s.rows, Target(p, r).value);
    if found.Some? { KeyStep(p, cc, s, u, r, o, found.value); }
  }

  /** One operation on a key: find the key, authorize, and only then unwrap, use or revoke it. The database,
      the cache and the outcome end up as the vault's step says. */
  method RunKeyOperation(p: Policy, ks: KeyStore, db: VaultDb, u: User, r: Request, o: Oracle, nowMs: int,
                         ghost s: State)
    returns (out: Outcome)
    requires OnKey(r)
    requires s.rows == db.rows && s.kek == ks.kek && s.cache == ks.cache && NowMs(s) == nowMs
    modifies ks, db`rows
    ensures var (s', expected) := KeyOperation(p, CacheConfig(ks.cacheMaxEntries, ks.cacheTtlMs), s, u, r, o);
            out == expected && db.rows == s'.rows && ks.cache == s'.cache
  {
    ghost var cc := CacheConfig(ks.cacheMaxEntries, ks.cacheTtlMs);
    var target := Target(p, r);
    if target.Err? { return Fail(target.error); }
    var loaded := AuthorizedKey(db, u, target.value, OpClass(r), nowMs);
    if loaded.Err? {
      RefusedStep(p, cc, s, u, r, o);
      return Fail(loaded.error);
    }
    KeyStep(p, cc, s, u, r, o, loaded.value);
    out := FinishOperation(p, ks, db, r, o, loaded.value, nowMs);
  }

  lemma {:induction false} ListRowsSnoc(rows: Table, row: Row, u: User, nowMs: int)
    ensures ListRows(rows + [row], u, nowMs)
            == ListRows(rows, u, nowMs) + if Visible(Sight(row), u, nowMs) then [ListOf(Sight(row))] else []
  {
    if rows == [] {
      assert rows + [row] == [row] && [row][1..] == [];
    } else {
      assert (rows + [row])[1..] == rows[1..] + [row] && (rows + [row])[0] == rows[0];
      ListRowsSnoc(rows[1..], row, u, nowMs);
    }
  }

  /** The filter and map of listKeys. */
  method UsableRows(rows: seq<Row>, u: User, nowMs: int) returns (keys: seq<Listed>)
    ensures keys == ListRows(rows, u, nowMs)
  {
    keys := [];
    for i := 0 to |rows|
      invariant keys == ListRows(rows[..i], u, nowMs)
    {
      var row := rows[i];
      assert rows[..i + 1] == rows[..i] + [row];
      ListRowsSnoc(rows[..i], row, u, nowMs);
      var usable := HasEffectiveAny(u.mask, row.acl, u.userId);
      if InWindow(row.notBefore, row.expiresAt, nowMs) && usable {
        keys := keys + [Listed(row.keyId, row.kty, row.alg)];
      }
    }
    assert rows[..|rows|] == rows;
  }

  /** listKeys: query by ACL user, then filter by window and effective rights. */
  method ListKeys(db: VaultDb, u: User, nowMs: int) returns (keys: seq<Listed>)
    ensures keys == ListRows(ByAclUser(db.rows, u.userId), u, nowMs)
  {
    var rows := db.KeysByAclUser(u.userId);
    keys := UsableRows(rows, u, nowMs);
  }

  /** generate: embed the new secret and insert its row; a key id already there makes the insert fail. */
  method GenerateKeyRow(ks: KeyStore, db: VaultDb, spec: KeySpec, acl: Grants, nbf: Option<int>, exp: Option<int>,
                        nowSeconds: int, o: Oracle) returns (ok: bool)
    modifies db`rows
    ensures ok <==> !HasKey(old(db.rows), o.kid)
    ensures db.rows == if ok then old(db.rows) + [NewRow(ks.kek, spec, acl, nbf, exp, nowSeconds, o)] else old(db.rows)
    ensures ok && ManagerOk(ks.kek) ==>
              HasKey(db.rows, o.kid) && ExtractRow(ks.kek, Find(db.rows, o.kid).value) == Ok(NewSecret(spec, o))
  {
    var secret := NewSecret(spec, o);
    var e := Embed(ks.kek, secret, Meta(o.kid, nowSeconds, nbf, exp), o.nonce);
    var publicKey := if spec.kty == "oct" then None else Some(PublicHalf(secret));
    var row := Row(o.kid, spec.kty, spec.alg, DateOf(nbf), DateOf(exp), publicKey, e.embeddingKeyId,
                   e.embeddedKey, acl);
    FindInserted(db.rows, row, o.kid);
    ok := db.InsertKey(row);
  }
}
