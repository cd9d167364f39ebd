/** list-keys is exact: it lists each key the user can use, once, in table order, and no other. */
module Listing {
  import opened Text
  import opened Acl
  import opened Kek
  import opened KeyTable
  import opened Handlers
  import opened Vault

  /** authorizedKey would succeed for the class on the key, at this instant. */
  ghost predicate CanUse(s: State, u: User, kid: Kid, cls: string) {
    Find(s.rows, kid).Some?
    && Authorize(Some(ViewOf(Find(s.rows, kid).value, Err(KekUnavailable))), u, cls, NowMs(s)).Ok?
  }

  /** The SQL prefilter loses nothing: a user with an effective class is a member of the ACL object,
      because stored ACLs and user ids are in lower case. */
  lemma {:induction false} PrefilterLosesNothing(rows: Table, u: User, nowMs: int)
    requires UserOk(u)
    ensures ListRows(ByAclUser(rows, u.userId), u, nowMs) == ListRows(rows, u, nowMs)
  {
    if rows != [] {
      PrefilterLosesNothing(rows[1..], u, nowMs);
      var rest := ByAclUser(rows[1..], u.userId);
      if u.userId in rows[0].acl {
        assert ([rows[0]] + rest)[1..] == rest;
      } else {
        assert [] + rest == rest;
      }
    }
  }

  /** What list-keys reads of a row; it never unwraps. */
  function Sight(row: Row): KeyView { ViewOf(row, Err(KekUnavailable)) }

  predicate Shows(row: Row, u: User, nowMs: int, x: Listed) { Visible(Sight(row), u, nowMs) && x == ListOf(Sight(row)) }

  lemma {:induction false} ListedIff(rows: Table, u: User, nowMs: int, x: Listed)
    ensures x in ListRows(rows, u, nowMs) <==> exists i :: 0 <= i < |rows| && Shows(rows[i], u, nowMs, x)
  {
    if rows != [] {
      var tail := rows[1..];
      ListedIff(tail, u, nowMs, x);
      forall i | 0 <= i < |tail| && Shows(tail[i], u, nowMs, x) ensures Shows(rows[i + 1], u, nowMs, x) {}
      forall i | 0 < i < |rows| && Shows(rows[i], u, nowMs, x) ensures Shows(tail[i - 1], u, nowMs, x) {}
    }
  }

  /** Table order gives list order, so distinct keys stay distinct. */
  lemma {:induction false} ListedOnce(rows: Table, u: User, nowMs: int)
    requires UniqueKids(rows)
    ensures var l := ListRows(rows, u, nowMs); forall i, j :: 0 <= i < j < |l| ==> l[i].kid != l[j].kid
  {
    if rows != [] {
      TailUnique(rows);
      ListedOnce(rows[1..], u, nowMs);
      var rest := ListRows(rows[1..], u, nowMs);
      forall i | 0 <= i < |rest| ensures rest[i].kid != rows[0].keyId { ListedIn(rows[1..], u, nowMs, rest[i]); }
      if Visible(Sight(rows[0]), u, nowMs) {
        assert ListRows(rows, u, nowMs) == [ListOf(Sight(rows[0]))] + rest;
      } else {
        assert ListRows(rows, u, nowMs) == rest;
      }
    }
  }

  lemma ListedIn(rows: Table, u: User, nowMs: int, x: Listed)
    requires x in ListRows(rows, u, nowMs)
    ensures HasKey(rows, x.kid)
  {
    ListedIff(rows, u, nowMs, x);
    var i :| 0 <= i < |rows| && Shows(rows[i], u, nowMs, x);
    assert rows[i].keyId == x.kid;
  }

  lemma {:induction false} FindMember(t: Table, row: Row)
    requires UniqueKids(t) && row in t
    ensures Find(t, row.keyId) == Some(row)
  {
    assert t == [t[0]] + t[1..];
    if row != t[0] {
      TailUnique(t);
      var i :| 0 <= i < |t| && t[i] == row;
      assert t[1..][i - 1] == row;
      FindMember(t[1..], row);
    }
  }

  /** Some class is usable on a key exactly when list-keys shows its row. */
  lemma UsableIffVisible(s: State, u: User, kid: Kid)
    ensures (exists cls :: cls in KEY_OP_CLASSES && CanUse(s, u, kid, cls))
            <==> (Find(s.rows, kid).Some? && Visible(Sight(Find(s.rows, kid).value), u, NowMs(s)))
  {
    if Find(s.rows, kid).Some? {
      var row := Find(s.rows, kid).value;
      if Visible(Sight(row), u, NowMs(s)) {
        var k :| 0 <= k < |KEY_OP_CLASSES| && Effective(u.mask, row.acl, u.userId, KEY_OP_CLASSES[k]);
        assert CanUse(s, u, kid, KEY_OP_CLASSES[k]);
      }
      forall cls | cls in KEY_OP_CLASSES && CanUse(s, u, kid, cls) ensures Visible(Sight(row), u, NowMs(s)) {
        var k :| 0 <= k < |KEY_OP_CLASSES| && KEY_OP_CLASSES[k] == cls;
        assert Effective(u.mask, row.acl, u.userId, KEY_OP_CLASSES[k]);
      }
    }
  }

  /** In every reachable state the list holds a key exactly when some key class is usable on it; no key is
      listed twice, and the order is the table's. */
  lemma ListExact(s: State, u: User, kid: Kid)
    requires Inv(s) && UserOk(u)
    ensures var l := ListRows(ByAclUser(s.rows, u.userId), u, NowMs(s));
            (exists x :: x in l && x.kid == kid) <==> (exists cls :: cls in KEY_OP_CLASSES && CanUse(s, u, kid, cls))
    ensures var l := ListRows(ByAclUser(s.rows, u.userId), u, NowMs(s));
            (forall i, j :: 0 <= i < j < |l| ==> l[i].kid != l[j].kid) && l == ListRows(s.rows, u, NowMs(s))
  {
    var l := ListRows(s.rows, u, NowMs(s));
    PrefilterLosesNothing(s.rows, u, NowMs(s));
    ListedOnce(s.rows, u, NowMs(s));
    UsableIffVisible(s, u, kid);
    forall x | x in l && x.kid == kid
      ensures Find(s.rows, kid).Some? && Visible(Sight(Find(s.rows, kid).value), u, NowMs(s))
    {
      ListedIff(s.rows, u, NowMs(s), x);
      var i :| 0 <= i < |s.rows| && Shows(s.rows[i], u, NowMs(s), x);
      FindMember(s.rows, s.rows[i]);
    }
    if Find(s.rows, kid).Some? && Visible(Sight(Find(s.rows, kid).value), u, NowMs(s)) {
      var row := Find(s.rows, kid).value;
      var i :| 0 <= i < |s.rows| && s.rows[i] == row;
      assert Shows(s.rows[i], u, NowMs(s), ListOf(Sight(row)));
      ListedIff(s.rows, u, NowMs(s), ListOf(Sight(row)));
    }
  }
}
