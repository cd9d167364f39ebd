/** The commands of kvadmin.js that edit keys: update-acl, and rewrap, which walks the table without a
    transaction. */
module KvAdmin {
  import opened Text
  import opened Acl
  import opened Kek
  import opened KeyTable
  import opened UnwrapCache
  import opened Vault
  import opened VaultInvariant
  import opened Listing

  datatype CommandError = InvalidAcl(why: AclError) | KeyNotFound

  /** update-acl succeeds for a valid ACL of known users on a key that is there, and changes nothing else. */
  method UpdateAclCommand(db: VaultDb, kid: Kid, acl: AclInput, ghost s: State)
    returns (r: Result<Grants, CommandError>)
    requires s.rows == db.rows && s.users == db.users
    modifies db`rows
    ensures db.rows == AdminAcl(s, kid, acl).rows
    ensures r.Ok? <==> Validated(acl).Ok? && (forall u :: u in Validated(acl).value ==> u in s.users)
                       && HasKey(s.rows, kid)
    ensures r.Ok? ==> r.value == Validated(acl).value
                      && Find(db.rows, kid) == Some(Find(s.rows, kid).value.(acl := r.value))
    ensures r.Err? ==> db.rows == s.rows
    ensures r.Err? && r.error.InvalidAcl? ==>
              r.error.why == if Validated(acl).Err? then Validated(acl).error else UnknownUser
  {
    var v := ValidateAcl(acl);
    if v.Err? { return Err(InvalidAcl(v.error)); }
    if exists u :: u in v.value && u !in db.users { return Err(InvalidAcl(UnknownUser)); }
    var row := db.KeyById(kid);
    FindAfter(db.rows, kid, kid, v.value, Embedded("", Jwe("", 0, OtherJson)));
    if row.None? {
      SetAclAbsent(db.rows, kid, v.value);
      return Err(KeyNotFound);
    }
    var _ := db.UpdateKeyAcl(kid, v.value);
    return Ok(v.value);
  }

  lemma {:induction false} SetAclAbsent(rows: Table, kid: Kid, acl: Grants)
    requires !HasKey(rows, kid)
    ensures SetAcl(rows, kid, acl) == rows
  {
    if rows != [] {
      assert rows[0].keyId != kid && forall i :: 0 <= i < |rows| - 1 ==> rows[1..][i] == rows[i + 1];
      SetAclAbsent(rows[1..], kid, acl);
    }
  }

  /** The table after the loop has gone through `work`. */
  function AfterWork(rows: Table, m: Manager, work: seq<Row>, clock: nat -> int, nonce: nat -> nat): Table {
    if work == [] then rows
    else
      var n := |work| - 1;
      RewrapRow(AfterWork(rows, m, work[..n], clock, nonce), m, work[n], clock(n), nonce(n))
  }

  /** How many of the rows the manager cannot extract. */
  function Unreadable(m: Manager, work: seq<Row>): nat {
    if work == [] then 0
    else Unreadable(m, work[..|work| - 1]) + if ExtractRow(m, work[|work| - 1]).Err? then 1 else 0
  }

  /** The command on its own. `clock` and `nonce` give the time and the randomness of each iteration. */
  method RewrapKeys(db: VaultDb, kek: Manager, clock: nat -> int, nonce: nat -> nat)
    returns (rewrapped: nat, skipped: nat)
    modifies db`rows
    ensures var work := NotEmbeddedWith(old(db.rows), kek.active.kid);
            && db.rows == AfterWork(old(db.rows), kek, work, clock, nonce)
            && rewrapped + skipped == |work| && skipped == Unreadable(kek, work)
  {
    ghost var before := db.rows;
    var work := db.KeysNotEmbeddedWith(kek.active.kid);
    rewrapped, skipped := 0, 0;
    for i := 0 to |work|
      invariant db.rows == AfterWork(before, kek, work[..i], clock, nonce)
      invariant rewrapped + skipped == i && skipped == Unreadable(kek, work[..i])
    {
      var row := work[i];
      OneMore(before, kek, work, i, clock, nonce);
      var secret := ExtractRow(kek, row);
      if secret.Err? {
        skipped := skipped + 1;
        continue;
      }
      var _ := db.UpdateKeyEmbedding(row.keyId, Embed(kek, secret.value, RewrapMeta(row, clock(i)), nonce(i)));
      rewrapped := rewrapped + 1;
    }
    assert work[..|work|] == work;
  }

  lemma OneMore(rows: Table, m: Manager, work: seq<Row>, i: nat, clock: nat -> int, nonce: nat -> nat)
    requires i < |work|
    ensures AfterWork(rows, m, work[..i + 1], clock, nonce)
            == RewrapRow(AfterWork(rows, m, work[..i], clock, nonce), m, work[i], clock(i), nonce(i))
    ensures Unreadable(m, work[..i + 1]) == Unreadable(m, work[..i]) + if ExtractRow(m, work[i]).Err? then 1 else 0
  {
    assert work[..i + 1][..i] == work[..i];
  }

  // ---- stopping after any iteration ----

  /** What one row may have become: itself, or the same key wrapped under the active KEK. */
  ghost predicate Progress(m: Manager, before: Row, after: Row, reached: bool) {
    && after.(embeddingKeyId := before.embeddingKeyId, embeddedKey := before.embeddedKey) == before
    && after.embeddingKeyId == (if reached && ExtractRow(m, before).Ok? then m.active.kid else before.embeddingKeyId)
    && ExtractRow(m, after) == ExtractRow(m, before)
  }

  ghost predicate Reached(work: seq<Row>, kid: Kid) { exists i :: 0 <= i < |work| && work[i].keyId == kid }

  /** The rows of the work list are the table's own. */
  ghost predicate OwnWork(rows: Table, work: seq<Row>) {
    forall i :: 0 <= i < |work| ==> Find(rows, work[i].keyId) == Some(work[i])
  }

  /** However far the loop got, every key is still there, unchanged but for its wrapping, and extracts under
      the active and retired KEKs exactly as before. The keys under the active KEK are those that were
      reached and extracted, and those that were there before. */
  lemma {:induction false} StopAnywhere(born: map<Kid, Born>, rows: Table, m: Manager, work: seq<Row>,
                                        clock: nat -> int, nonce: nat -> nat, kid: Kid)
    requires UniqueKids(rows) && RowsOk(born, rows) && ManagerOk(m) && OwnWork(rows, work)
    ensures var after := AfterWork(rows, m, work, clock, nonce);
            && UniqueKids(after) && RowsOk(born, after)
            && (HasKey(after, kid) <==> HasKey(rows, kid))
            && (HasKey(rows, kid) ==> Progress(m, Find(rows, kid).value, Find(after, kid).value, Reached(work, kid)))
  {
    if work != [] {
      var n := |work| - 1;
      var mid, from := AfterWork(rows, m, work[..n], clock, nonce), work[n];
      StopAnywhere(born, rows, m, work[..n], clock, nonce, kid);
      ReachedStep(work, kid);
      assert Find(rows, from.keyId) == Some(from) && RowOk(born, from);
      if ExtractRow(m, from).Ok? { OneRow(born, mid, m, from, clock(n), nonce(n), kid); }
    }
  }

  lemma ReachedStep(work: seq<Row>, kid: Kid)
    requires work != []
    ensures Reached(work, kid) <==> Reached(work[..|work| - 1], kid) || work[|work| - 1].keyId == kid
  {
    var n := |work| - 1;
    if Reached(work[..n], kid) {
      var i :| 0 <= i < n && work[..n][i].keyId == kid;
      assert work[i].keyId == kid;
    }
    if Reached(work, kid) && work[n].keyId != kid {
      var i :| 0 <= i < n + 1 && work[i].keyId == kid;
      assert work[..n][i].keyId == kid;
    }
  }

  lemma OneRow(born: map<Kid, Born>, rows: Table, m: Manager, from: Row, iat: int, nonce: nat, kid: Kid)
    requires UniqueKids(rows) && RowsOk(born, rows) && ManagerOk(m) && RowOk(born, from) && ExtractRow(m, from).Ok?
    ensures var after := RewrapRow(rows, m, from, iat, nonce);
            && UniqueKids(after) && RowsOk(born, after)
            && (HasKey(after, kid) <==> HasKey(rows, kid))
            && (HasKey(rows, kid) && kid != from.keyId ==> Find(after, kid) == Find(rows, kid))
            && (HasKey(rows, kid) && kid == from.keyId ==>
                  ExtractRow(m, Find(after, kid).value) == ExtractRow(m, from)
                  && Find(after, kid).value.embeddingKeyId == m.active.kid
                  && Find(after, kid).value == Rewrapped(Find(rows, kid).value,
                                                         Embed(m, born[kid].secret, RewrapMeta(from, iat), nonce)))
  {
    RowSecret(born, from, m);
    var e := Embed(m, born[from.keyId].secret, RewrapMeta(from, iat), nonce);
    SetEmbeddingRows(rows, from.keyId, e);
    FindAfter(rows, from.keyId, kid, map[], e);
    forall r | r in SetEmbedding(rows, from.keyId, e) ensures RowOk(born, r) {
      if r !in rows {
        var q :| q in rows && q.keyId == from.keyId && r == Rewrapped(q, e);
        RewrappedRowOk(born, q, from, m, iat, nonce);
      }
    }
  }

  /** What an iteration writes: the key's own claims as they were at generation, issued now, under the active
      KEK. */
  lemma RewrapWrites(born: map<Kid, Born>, rows: Table, m: Manager, from: Row, iat: int, nonce: nat)
    requires UniqueKids(rows) && RowsOk(born, rows) && ManagerOk(m) && RowOk(born, from)
    requires from.embeddingKeyId in m.byId && HasKey(rows, from.keyId)
    ensures var b := born[from.keyId];
            Find(RewrapRow(rows, m, from, iat, nonce), from.keyId)
            == Some(Find(rows, from.keyId).value.(
                      embeddingKeyId := m.active.kid,
                      embeddedKey := Jwe(m.active.kid, nonce,
                                         Embedding(Claims(Some(from.keyId), iat, b.nbf, b.exp, b.secret)))))
  {
    RowSecret(born, from, m);
    OneRow(born, rows, m, from, iat, nonce, from.keyId);
    SecondsRoundTrip(born[from.keyId].nbf);
    SecondsRoundTrip(born[from.keyId].exp);
  }

  // ---- finishing ----

  lemma {:induction false} UnreadableZero(m: Manager, work: seq<Row>)
    ensures Unreadable(m, work) == 0 <==> forall i :: 0 <= i < |work| ==> ExtractRow(m, work[i]).Ok?
  {
    if work != [] {
      var n := |work| - 1;
      UnreadableZero(m, work[..n]);
      assert forall i :: 0 <= i < n ==> work[..n][i] == work[i];
    }
  }

  lemma WorkIsOwn(rows: Table, kek: KekId)
    requires UniqueKids(rows)
    ensures OwnWork(rows, NotEmbeddedWith(rows, kek))
  {
    var work := NotEmbeddedWith(rows, kek);
    OtherKekRows(rows, kek);
    forall i | 0 <= i < |work| ensures Find(rows, work[i].keyId) == Some(work[i]) {
      assert work[i] in work;
      FindMember(rows, work[i]);
    }
  }

  /** The full run leaves a row off the active KEK exactly when it could not extract it. */
  lemma LeftOver(born: map<Kid, Born>, rows: Table, m: Manager, clock: nat -> int, nonce: nat -> nat, kid: Kid)
    requires UniqueKids(rows) && RowsOk(born, rows) && ManagerOk(m) && HasKey(rows, kid)
    ensures var after := AfterWork(rows, m, NotEmbeddedWith(rows, m.active.kid), clock, nonce);
            HasKey(after, kid)
            && (Find(after, kid).value.embeddingKeyId != m.active.kid <==> ExtractRow(m, Find(rows, kid).value).Err?)
  {
    var work := NotEmbeddedWith(rows, m.active.kid);
    var row := Find(rows, kid).value;
    OtherKekRows(rows, m.active.kid);
    WorkIsOwn(rows, m.active.kid);
    StopAnywhere(born, rows, m, work, clock, nonce, kid);
    assert RowOk(born, row);
    RowSecret(born, row, m);
    if row.embeddingKeyId != m.active.kid {
      assert row in work;
      var i :| 0 <= i < |work| && work[i] == row;
      assert Reached(work, kid);
    }
  }

  lemma {:induction false} NothingLeft(rows: Table, kek: KekId)
    ensures NotEmbeddedWith(rows, kek) == [] <==> forall row :: row in rows ==> row.embeddingKeyId == kek
  {
    if rows != [] {
      assert rows == [rows[0]] + rows[1..];
      NothingLeft(rows[1..], kek);
    }
  }

  lemma IncompleteIff(born: map<Kid, Born>, rows: Table, m: Manager, clock: nat -> int, nonce: nat -> nat)
    requires UniqueKids(rows) && RowsOk(born, rows) && ManagerOk(m)
    requires Unreadable(m, NotEmbeddedWith(rows, m.active.kid)) != 0
    ensures NotEmbeddedWith(AfterWork(rows, m, NotEmbeddedWith(rows, m.active.kid), clock, nonce), m.active.kid) != []
  {
    var work := NotEmbeddedWith(rows, m.active.kid);
    var after := AfterWork(rows, m, work, clock, nonce);
    UnreadableZero(m, work);
    WorkIsOwn(rows, m.active.kid);
    OtherKekRows(after, m.active.kid);
    var i :| 0 <= i < |work| && ExtractRow(m, work[i]).Err?;
    LeftOver(born, rows, m, clock, nonce, work[i].keyId);
    assert Find(after, work[i].keyId).value in NotEmbeddedWith(after, m.active.kid);
  }

  lemma CompleteRows(born: map<Kid, Born>, rows: Table, m: Manager, clock: nat -> int, nonce: nat -> nat,
                     alone: Manager)
    requires UniqueKids(rows) && RowsOk(born, rows) && ManagerOk(m) && ManagerOk(alone) && alone.active == m.active
    requires Unreadable(m, NotEmbeddedWith(rows, m.active.kid)) == 0
    ensures var after := AfterWork(rows, m, NotEmbeddedWith(rows, m.active.kid), clock, nonce);
            && NotEmbeddedWith(after, m.active.kid) == []
            && forall row :: row in after ==>
                 row.keyId in born && ExtractRow(alone, row) == Ok(born[row.keyId].secret)
  {
    var work := NotEmbeddedWith(rows, m.active.kid);
    var after := AfterWork(rows, m, work, clock, nonce);
    UnreadableZero(m, work);
    forall row | row in after
      ensures row.embeddingKeyId == m.active.kid && row.keyId in born
              && ExtractRow(alone, row) == Ok(born[row.keyId].secret)
    {
      AllRewrapped(born, rows, m, clock, nonce, row);
      RowSecret(born, row, alone);
    }
    NothingLeft(after, m.active.kid);
  }

  /** Nothing skipped means done: a second run then has nothing to do and changes nothing, and the active
      KEK alone is enough for every key. Something skipped means a second run has work. */
  lemma CompleteIff(born: map<Kid, Born>, rows: Table, m: Manager, clock: nat -> int, nonce: nat -> nat, alone: Manager)
    requires UniqueKids(rows) && RowsOk(born, rows) && ManagerOk(m) && ManagerOk(alone) && alone.active == m.active
    ensures var work := NotEmbeddedWith(rows, m.active.kid);
            var after := AfterWork(rows, m, work, clock, nonce);
            && (Unreadable(m, work) == 0 <==> NotEmbeddedWith(after, m.active.kid) == [])
            && (Unreadable(m, work) == 0 ==>
                  && AfterWork(after, m, NotEmbeddedWith(after, m.active.kid), clock, nonce) == after
                  && forall row :: row in after ==>
                       row.keyId in born && ExtractRow(alone, row) == Ok(born[row.keyId].secret))
  {
    if Unreadable(m, NotEmbeddedWith(rows, m.active.kid)) == 0 {
      CompleteRows(born, rows, m, clock, nonce, alone);
    } else {
      IncompleteIff(born, rows, m, clock, nonce);
    }
  }

  lemma AllRewrapped(born: map<Kid, Born>, rows: Table, m: Manager, clock: nat -> int, nonce: nat -> nat, row: Row)
    requires UniqueKids(rows) && RowsOk(born, rows) && ManagerOk(m)
    requires forall r :: r in NotEmbeddedWith(rows, m.active.kid) ==> ExtractRow(m, r).Ok?
    requires row in AfterWork(rows, m, NotEmbeddedWith(rows, m.active.kid), clock, nonce)
    ensures row.embeddingKeyId == m.active.kid && RowOk(born, row)
  {
    var work := NotEmbeddedWith(rows, m.active.kid);
    var after := AfterWork(rows, m, work, clock, nonce);
    WorkIsOwn(rows, m.active.kid);
    OtherKekRows(rows, m.active.kid);
    StopAnywhere(born, rows, m, work, clock, nonce, row.keyId);
    FindMember(after, row);
    LeftOver(born, rows, m, clock, nonce, row.keyId);
    var was := Find(rows, row.keyId).value;
    assert RowOk(born, was);
    RowSecret(born, was, m);
  }
}
