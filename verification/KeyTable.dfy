/** The vault_key table of serverdb.js: rows in serial order, one atomic step per SQL statement. */
module KeyTable {
  import opened Text
  import opened Acl
  import opened Kek

  /** Timestamps come back as dates, here in milliseconds. */
  datatype Row = Row(keyId: Kid, kty: string, alg: string, notBefore: Option<int>, expiresAt: Option<int>,
                     publicKey: Option<PublicJwk>, embeddingKeyId: KekId, embeddedKey: Jwe, acl: Grants)

  type Table = seq<Row>

  predicate HasKey(t: Table, kid: Kid) { exists i :: 0 <= i < |t| && t[i].keyId == kid }

  /** The UNIQUE constraint on key_id. */
  ghost predicate UniqueKids(t: Table) { forall i, j :: 0 <= i < j < |t| ==> t[i].keyId != t[j].keyId }

  function Find(t: Table, kid: Kid): (r: Option<Row>)
    ensures r.Some? <==> HasKey(t, kid)
    ensures r.Some? ==> r.value in t && r.value.keyId == kid
  {
    if t == [] then None
    else if t[0].keyId == kid then Some(t[0])
    else
      assert t[1..] == t[1..] && forall i :: 0 <= i < |t| - 1 ==> t[1..][i] == t[i + 1];
      Find(t[1..], kid)
  }

  function Delete(t: Table, kid: Kid): Table {
    if t == [] then []
    else (if t[0].keyId == kid then [] else [t[0]]) + Delete(t[1..], kid)
  }

  function SetAcl(t: Table, kid: Kid, acl: Grants): Table {
    if t == [] then []
    else [if t[0].keyId == kid then t[0].(acl := acl) else t[0]] + SetAcl(t[1..], kid, acl)
  }

  function SetEmbedding(t: Table, kid: Kid, e: Embedded): Table {
    if t == [] then []
    else [if t[0].keyId == kid then Rewrapped(t[0], e) else t[0]] + SetEmbedding(t[1..], kid, e)
  }

  function Rewrapped(r: Row, e: Embedded): Row {
    r.(embeddingKeyId := e.embeddingKeyId, embeddedKey := e.embeddedKey)
  }

  /** Does the sweep delete the row? The database clock counts microseconds. */
  predicate Sweepable(r: Row, nowUs: int, graceSeconds: nat) {
    r.expiresAt.Some? && r.expiresAt.value * 1000 < nowUs - graceSeconds * 1_000_000
  }

  function Sweep(t: Table, nowUs: int, graceSeconds: nat): Table {
    if t == [] then []
    else (if Sweepable(t[0], nowUs, graceSeconds) then [] else [t[0]]) + Sweep(t[1..], nowUs, graceSeconds)
  }

  /** acl ? user: the rows whose ACL object has the user as a member. */
  function ByAclUser(t: Table, userId: string): Table {
    if t == [] then []
    else (if userId in t[0].acl then [t[0]] else []) + ByAclUser(t[1..], userId)
  }

  function NotEmbeddedWith(t: Table, kek: KekId): Table {
    if t == [] then []
    else (if t[0].embeddingKeyId != kek then [t[0]] else []) + NotEmbeddedWith(t[1..], kek)
  }

  /** TO_TIMESTAMP of whole seconds. */
  function DateOf(seconds: Option<int>): Option<int> {
    if seconds.None? then None else Some(seconds.value * 1000)
  }

  /** Math.floor(date.getTime() / 1000). */
  function SecondsOf(date: Option<int>): Option<int> {
    if date.None? then None else Some(date.value / 1000)
  }

  /** Database access. Each method is one statement. */
  class VaultDb {
    var rows: Table
    var users: set<string>

    constructor (users: set<string>)
      ensures this.users == users && rows == []
    {
      this.users := users;
      rows := [];
    }

    /** Fails on a key id that is already there. */
    method InsertKey(row: Row) returns (ok: bool)
      modifies this`rows
      ensures ok <==> !HasKey(old(rows), row.keyId)
      ensures rows == if ok then old(rows) + [row] else old(rows)
    {
      ok := !HasKey(rows, row.keyId);
      if ok { rows := rows + [row]; }
    }

    /** With unique key ids there is at most one such row. */
    method KeyById(kid: Kid) returns (r: Option<Row>)
      ensures r == Find(rows, kid)
      ensures r.None? <==> forall row :: row in rows ==> row.keyId != kid
      ensures r.Some? ==> r.value in rows && r.value.keyId == kid
      ensures r.Some? && UniqueKids(rows) ==> forall row :: row in rows && row.keyId == kid ==> row == r.value
    {
      FindIsOnly(rows, kid);
      r := Find(rows, kid);
    }

    method KeysByAclUser(userId: string) returns (r: seq<Row>)
      ensures r == ByAclUser(rows, userId)
      ensures (forall row :: row in r <==> row in rows && userId in row.acl) && InOrder(r, rows)
    {
      AclUserRows(rows, userId);
      r := ByAclUser(rows, userId);
    }

    method DeleteKey(kid: Kid) returns (deleted: bool)
      modifies this`rows
      ensures deleted <==> HasKey(old(rows), kid)
      ensures rows == Delete(old(rows), kid)
    {
      deleted := HasKey(rows, kid);
      rows := Delete(rows, kid);
    }

    method UpdateKeyAcl(kid: Kid, acl: Grants) returns (updated: bool)
      modifies this`rows
      ensures updated <==> HasKey(old(rows), kid)
      ensures rows == SetAcl(old(rows), kid, acl)
    {
      updated := HasKey(rows, kid);
      rows := SetAcl(rows, kid, acl);
    }

    method UpdateKeyEmbedding(kid: Kid, e: Embedded) returns (updated: bool)
      modifies this`rows
      ensures updated <==> HasKey(old(rows), kid)
      ensures rows == SetEmbedding(old(rows), kid, e)
    {
      updated := HasKey(rows, kid);
      rows := SetEmbedding(rows, kid, e);
    }

    method SweepExpiredKeys(nowUs: int, graceSeconds: nat) returns (n: nat)
      modifies this`rows
      ensures rows == Sweep(old(rows), nowUs, graceSeconds) && n == |old(rows)| - |rows|
    {
      SweepShrinks(rows, nowUs, graceSeconds);
      var left := Sweep(rows, nowUs, graceSeconds);
      n := |rows| - |left|;
      rows := left;
    }

    method KeysNotEmbeddedWith(kek: KekId) returns (r: seq<Row>)
      ensures r == NotEmbeddedWith(rows, kek)
      ensures (forall row :: row in r <==> row in rows && row.embeddingKeyId != kek) && InOrder(r, rows)
    {
      OtherKekRows(rows, kek);
      r := NotEmbeddedWith(rows, kek);
    }

    /** The ids that are not users, in the order given. */
    method MissingUsers(ids: seq<string>) returns (missing: seq<string>)
      ensures (forall u :: u in missing <==> u in ids && u !in users) && InOrder(missing, ids)
    {
      MissingInOrder(ids, users);
      missing := Missing(ids, users);
    }
  }

  function Missing(ids: seq<string>, users: set<string>): (r: seq<string>)
    ensures forall u :: u in r <==> u in ids && u !in users
  {
    if ids == [] then []
    else (if ids[0] in users then [] else [ids[0]]) + Missing(ids[1..], users)
  }

  /** Part of a list, in the order of the list and without repeating a place. */
  ghost predicate InOrder<T>(part: seq<T>, whole: seq<T>) { exists at: seq<nat> :: Places(part, whole, at) }

  ghost predicate Places<T>(part: seq<T>, whole: seq<T>, at: seq<nat>) {
    && |at| == |part|
    && (forall i :: 0 <= i < |at| ==> at[i] < |whole| && part[i] == whole[at[i]])
    && (forall i, j :: 0 <= i < j < |at| ==> at[i] < at[j])
  }

  lemma InOrderStep<T>(part: seq<T>, x: T, rest: seq<T>)
    requires InOrder(part, rest)
    ensures InOrder(part, [x] + rest) && InOrder([x] + part, [x] + rest)
  {
    var at: seq<nat> :| Places(part, rest, at);
    var later: seq<nat> := seq(|at|, i requires 0 <= i < |at| => at[i] + 1);
    assert Places(part, [x] + rest, later);
    assert Places([x] + part, [x] + rest, [0] + later);
  }

  lemma NothingInOrder<T>(whole: seq<T>)
    ensures InOrder([], whole)
  {
    var nowhere: seq<nat> := [];
    assert Places([], whole, nowhere);
  }

  lemma {:induction false} FindIsOnly(t: Table, kid: Kid)
    ensures Find(t, kid).None? <==> forall row :: row in t ==> row.keyId != kid
    ensures Find(t, kid).Some? && UniqueKids(t) ==>
              forall row :: row in t && row.keyId == kid ==> row == Find(t, kid).value
  {
    forall row | row in t && row.keyId == kid ensures HasKey(t, kid) {
      var i :| 0 <= i < |t| && t[i] == row;
      assert t[i].keyId == kid;
    }
  }

  lemma {:induction false} AclUserRows(t: Table, userId: string)
    ensures forall row :: row in ByAclUser(t, userId) <==> row in t && userId in row.acl
    ensures InOrder(ByAclUser(t, userId), t)
  {
    if t == [] {
      NothingInOrder(t);
    } else {
      AclUserRows(t[1..], userId);
      assert t == [t[0]] + t[1..];
      InOrderStep(ByAclUser(t[1..], userId), t[0], t[1..]);
      assert [] + ByAclUser(t[1..], userId) == ByAclUser(t[1..], userId);
    }
  }

  lemma {:induction false} OtherKekRows(t: Table, kek: KekId)
    ensures forall row :: row in NotEmbeddedWith(t, kek) <==> row in t && row.embeddingKeyId != kek
    ensures InOrder(NotEmbeddedWith(t, kek), t)
  {
    if t == [] {
      NothingInOrder(t);
    } else {
      OtherKekRows(t[1..], kek);
      assert t == [t[0]] + t[1..];
      InOrderStep(NotEmbeddedWith(t[1..], kek), t[0], t[1..]);
      assert [] + NotEmbeddedWith(t[1..], kek) == NotEmbeddedWith(t[1..], kek);
    }
  }

  lemma {:induction false} MissingInOrder(ids: seq<string>, users: set<string>)
    ensures InOrder(Missing(ids, users), ids)
  {
    if ids == [] {
      NothingInOrder(ids);
    } else {
      MissingInOrder(ids[1..], users);
      assert ids == [ids[0]] + ids[1..];
      InOrderStep(Missing(ids[1..], users), ids[0], ids[1..]);
      assert [] + Missing(ids[1..], users) == Missing(ids[1..], users);
    }
  }

  // ---- what the statements do, key by key ----

  lemma {:induction false} SweepShrinks(t: Table, nowUs: int, grace: nat)
    ensures |Sweep(t, nowUs, grace)| <= |t|
  {
    if t != [] { SweepShrinks(t[1..], nowUs, grace); }
  }

  lemma TailUnique(t: Table)
    requires UniqueKids(t) && t != []
    ensures UniqueKids(t[1..]) && !HasKey(t[1..], t[0].keyId)
  {
    assert forall i :: 0 <= i < |t| - 1 ==> t[1..][i] == t[i + 1];
  }

  lemma FindCons(r: Row, t: Table, kid: Kid)
    ensures Find([r] + t, kid) == if r.keyId == kid then Some(r) else Find(t, kid)
  {
    assert ([r] + t)[1..] == t;
  }

  lemma FindSkip(t: Table, kid: Kid)
    ensures Find([] + t, kid) == Find(t, kid)
  {
    assert [] + t == t;
  }

  /** Each statement changes the row of its own key and no other. */
  lemma {:induction false} FindAfter(t: Table, kid: Kid, k: Kid, acl: Grants, e: Embedded)
    ensures Find(Delete(t, kid), k) == if k == kid then None else Find(t, k)
    ensures Find(SetAcl(t, kid, acl), k)
            == if k == kid && Find(t, k).Some? then Some(Find(t, k).value.(acl := acl)) else Find(t, k)
    ensures Find(SetEmbedding(t, kid, e), k)
            == if k == kid && Find(t, k).Some? then Some(Rewrapped(Find(t, k).value, e)) else Find(t, k)
  {
    if t != [] {
      FindAfter(t[1..], kid, k, acl, e);
      if t[0].keyId != kid { FindCons(t[0], Delete(t[1..], kid), k); } else { FindSkip(Delete(t[1..], kid), k); }
      FindCons(SetAcl(t, kid, acl)[0], SetAcl(t[1..], kid, acl), k);
      FindCons(SetEmbedding(t, kid, e)[0], SetEmbedding(t[1..], kid, e), k);
    }
  }

  lemma {:induction false} FindInserted(t: Table, row: Row, k: Kid)
    ensures Find(t + [row], k) == if Find(t, k).Some? then Find(t, k) else if row.keyId == k then Some(row) else None
  {
    if t == [] {
      assert t + [row] == [row] && [row][1..] == [];
    } else {
      assert (t + [row])[1..] == t[1..] + [row];
      FindInserted(t[1..], row, k);
    }
  }

  /** With unique key ids, a sweep removes exactly the rows past their expiry by more than the grace. */
  lemma {:induction false} FindSwept(t: Table, nowUs: int, grace: nat, k: Kid)
    requires UniqueKids(t)
    ensures Find(Sweep(t, nowUs, grace), k)
            == if Find(t, k).Some? && Find(t, k).value.expiresAt.Some?
                  && Find(t, k).value.expiresAt.value * 1000 + grace * 1_000_000 < nowUs
               then None else Find(t, k)
  {
    if t != [] {
      TailUnique(t);
      FindSwept(t[1..], nowUs, grace, k);
      if !Sweepable(t[0], nowUs, grace) {
        FindCons(t[0], Sweep(t[1..], nowUs, grace), k);
      } else {
        FindSkip(Sweep(t[1..], nowUs, grace), k);
      }
    }
  }

  /** Whole seconds survive the trip through a timestamp column and a date. */
  lemma SecondsRoundTrip(seconds: Option<int>)
    ensures SecondsOf(DateOf(seconds)) == seconds
  {
  }

  /** The rewrap update and update-acl commute, whether on one key or on two. */
  lemma {:induction false} UpdatesCommute(t: Table, kid: Kid, e: Embedded, kid2: Kid, acl: Grants)
    ensures SetAcl(SetEmbedding(t, kid, e), kid2, acl) == SetEmbedding(SetAcl(t, kid2, acl), kid, e)
  {
    if t != [] {
      UpdatesCommute(t[1..], kid, e, kid2, acl);
      var a, b := SetEmbedding(t, kid, e), SetAcl(t, kid2, acl);
      assert a[1..] == SetEmbedding(t[1..], kid, e) && b[1..] == SetAcl(t[1..], kid2, acl);
    }
  }

  /** A late update never brings a deleted or swept row back. */
  lemma {:induction false} UpdateRestoresNothing(t: Table, kid: Kid, e: Embedded)
    requires !HasKey(t, kid)
    ensures SetEmbedding(t, kid, e) == t
  {
    if t != [] {
      assert t[0].keyId != kid && forall i :: 0 <= i < |t| - 1 ==> t[1..][i] == t[i + 1];
      UpdateRestoresNothing(t[1..], kid, e);
    }
  }
}
