/** What an API caller can learn of keys it has no rights on, and of keys that are expired: two vaults that
    differ only in these, run side by side, answer alike. */
module Masking {
  import opened Text
  import opened Acl
  import opened Kek
  import opened KeyTable
  import opened UnwrapCache
  import opened Handlers
  import opened Vault
  import opened VaultInvariant
  import opened Listing
  import opened RewrapLive

  // ---- the rows that count ----

  /** Leaves out a set of key ids and, with a cut, the rows expired by then. */
  datatype Lens = Lens(hidden: set<Kid>, cut: Option<int>)

  predicate Keep(l: Lens, row: Row) {
    row.keyId !in l.hidden && !(l.cut.Some? && Expired(row.expiresAt, l.cut.value))
  }

  function Kept(l: Lens, rows: Table): (r: Table)
    ensures forall x :: x in r <==> x in rows && Keep(l, x)
  {
    if rows == [] then []
    else
      assert rows == [rows[0]] + rows[1..];
      (if Keep(l, rows[0]) then [rows[0]] else []) + Kept(l, rows[1..])
  }

  lemma SkipNothing<T>(s: seq<T>)
    ensures [] + s == s && s + [] == s
  {
  }

  lemma TailOf<T>(x: T, s: seq<T>)
    ensures ([x] + s)[1..] == s && ([x] + s)[0] == x && [x] + s != []
  {
  }

  lemma {:induction false} FindKept(l: Lens, rows: Table, kid: Kid)
    requires UniqueKids(rows)
    ensures Find(Kept(l, rows), kid)
            == if Find(rows, kid).Some? && Keep(l, Find(rows, kid).value) then Find(rows, kid) else None
  {
    if rows != [] {
      TailUnique(rows);
      FindKept(l, rows[1..], kid);
      TailOf(rows[0], Kept(l, rows[1..]));
      SkipNothing(Kept(l, rows[1..]));
    }
  }

  lemma {:induction false} KeptDelete(l: Lens, rows: Table, kid: Kid)
    ensures Kept(l, Delete(rows, kid)) == Delete(Kept(l, rows), kid)
    ensures kid in l.hidden ==> Kept(l, Delete(rows, kid)) == Kept(l, rows)
  {
    if rows != [] {
      KeptDelete(l, rows[1..], kid);
      TailOf(rows[0], Kept(l, rows[1..]));
      TailOf(rows[0], Delete(rows[1..], kid));
      SkipNothing(Kept(l, rows[1..]));
      SkipNothing(Delete(rows[1..], kid));
    }
  }

  lemma {:induction false} KeptSetAcl(l: Lens, rows: Table, kid: Kid, acl: Grants)
    ensures Kept(l, SetAcl(rows, kid, acl)) == SetAcl(Kept(l, rows), kid, acl)
    ensures kid in l.hidden ==> Kept(l, SetAcl(rows, kid, acl)) == Kept(l, rows)
  {
    if rows != [] {
      KeptSetAcl(l, rows[1..], kid, acl);
      var row' := if rows[0].keyId == kid then rows[0].(acl := acl) else rows[0];
      TailOf(rows[0], Kept(l, rows[1..]));
      TailOf(row', SetAcl(rows[1..], kid, acl));
      SkipNothing(Kept(l, rows[1..]));
    }
  }

  lemma {:induction false} KeptSetEmbedding(l: Lens, rows: Table, kid: Kid, e: Embedded)
    ensures Kept(l, SetEmbedding(rows, kid, e)) == SetEmbedding(Kept(l, rows), kid, e)
  {
    if rows != [] {
      KeptSetEmbedding(l, rows[1..], kid, e);
      var row' := if rows[0].keyId == kid then Rewrapped(rows[0], e) else rows[0];
      TailOf(rows[0], Kept(l, rows[1..]));
      TailOf(row', SetEmbedding(rows[1..], kid, e));
      SkipNothing(Kept(l, rows[1..]));
    }
  }

  lemma {:induction false} KeptSweep(l: Lens, rows: Table, clock: nat, grace: nat)
    ensures Kept(l, Sweep(rows, clock, grace)) == Sweep(Kept(l, rows), clock, grace)
  {
    if rows != [] {
      KeptSweep(l, rows[1..], clock, grace);
      TailOf(rows[0], Kept(l, rows[1..]));
      TailOf(rows[0], Sweep(rows[1..], clock, grace));
      SkipNothing(Kept(l, rows[1..]));
      SkipNothing(Sweep(rows[1..], clock, grace));
    }
  }

  /** What the sweep deletes is expired already: the database clock in microseconds is never behind the
      process clock in milliseconds, and the grace only delays. */
  lemma {:induction false} SweepTakesExpired(l: Lens, rows: Table, clock: nat, grace: nat)
    requires l.cut == Some(clock / 1000)
    ensures Kept(l, Sweep(rows, clock, grace)) == Kept(l, rows)
  {
    if rows != [] {
      SweepTakesExpired(l, rows[1..], clock, grace);
      assert Sweepable(rows[0], clock, grace) ==> Expired(rows[0].expiresAt, clock / 1000);
      TailOf(rows[0], Sweep(rows[1..], clock, grace));
      SkipNothing(Sweep(rows[1..], clock, grace));
      SkipNothing(Kept(l, rows[1..]));
    }
  }

  lemma {:induction false} KeptAppend(l: Lens, rows: Table, row: Row)
    ensures Kept(l, rows + [row]) == Kept(l, rows) + if Keep(l, row) then [row] else []
  {
    if rows == [] {
      assert rows + [row] == [row] && [row][1..] == [];
    } else {
      assert (rows + [row])[1..] == rows[1..] + [row];
      KeptAppend(l, rows[1..], row);
    }
  }

  predicate Finer(l: Lens, l': Lens) {
    l.hidden == l'.hidden && (l.cut == l'.cut || (l.cut.Some? && l'.cut.Some? && l.cut.value <= l'.cut.value))
  }

  lemma {:induction false} KeptTwice(l: Lens, l': Lens, rows: Table)
    requires Finer(l, l')
    ensures Kept(l', rows) == Kept(l', Kept(l, rows))
  {
    if rows != [] {
      KeptTwice(l, l', rows[1..]);
      TailOf(rows[0], Kept(l, rows[1..]));
      SkipNothing(Kept(l, rows[1..]));
      SkipNothing(Kept(l', rows[1..]));
    }
  }

  lemma {:induction false} KeptWork(l: Lens, rows: Table, kek: KekId)
    ensures Kept(l, NotEmbeddedWith(rows, kek)) == NotEmbeddedWith(Kept(l, rows), kek)
  {
    if rows != [] {
      KeptWork(l, rows[1..], kek);
      TailOf(rows[0], Kept(l, rows[1..]));
      TailOf(rows[0], NotEmbeddedWith(rows[1..], kek));
      SkipNothing(Kept(l, rows[1..]));
      SkipNothing(NotEmbeddedWith(rows[1..], kek));
    }
  }

  lemma {:induction false} AllKept(l: Lens, rows: Table)
    requires forall row :: row in rows ==> Keep(l, row)
    ensures Kept(l, rows) == rows
  {
    if rows != [] {
      assert rows == [rows[0]] + rows[1..] && rows[0] in rows;
      AllKept(l, rows[1..]);
    }
  }

  lemma {:induction false} NoneKept(l: Lens, rows: Table, kid: Kid, e: Embedded)
    requires forall row :: row in rows && row.keyId == kid ==> !Keep(l, row)
    ensures Kept(l, SetEmbedding(rows, kid, e)) == Kept(l, rows)
  {
    if rows != [] {
      assert rows == [rows[0]] + rows[1..] && rows[0] in rows;
      NoneKept(l, rows[1..], kid, e);
      var row' := if rows[0].keyId == kid then Rewrapped(rows[0], e) else rows[0];
      TailOf(row', SetEmbedding(rows[1..], kid, e));
    }
  }

  // ---- observers ----

  /** A set of key ids, and the observers with their fixed masks. */
  datatype Scope = Scope(hidden: set<Kid>, masks: map<string, AllowedOps>)

  predicate Watched(e: Step, w: Scope) { e.Api? && (e.user.userId in w.masks || w.hidden == {}) }

  /** The user has no effective class on any hidden row. */
  ghost predicate HiddenFrom(rows: Table, hidden: set<Kid>, mask: AllowedOps, userId: string) {
    forall row :: row in rows && row.keyId in hidden ==> !EffectiveAny(mask, row.acl, userId)
  }

  /** No observer has an effective class on a hidden row. */
  ghost predicate Unseen(rows: Table, w: Scope) {
    forall u :: u in w.masks ==> HiddenFrom(rows, w.hidden, w.masks[u], u)
  }

  /** The step is possible and observers keep their masks. */
  ghost predicate GoodStep(s: State, e: Step, w: Scope) {
    StepOk(s, e) && (e.Api? && e.user.userId in w.masks ==> e.user.mask == w.masks[e.user.userId])
  }

  ghost predicate GoodRun(p: Policy, cc: CacheConfig, s: State, es: seq<Step>, w: Scope)
    decreases |es|
  {
    Unseen(s.rows, w) && (es != [] ==> GoodStep(s, es[0], w) && GoodRun(p, cc, Next(p, cc, s, es[0]).0, es[1..], w))
  }

  /** The responses that the observers get, in order. */
  function Watch(p: Policy, cc: CacheConfig, s: State, es: seq<Step>, w: Scope): seq<Outcome>
    decreases |es|
  {
    if es == [] then []
    else
      var (s', out) := Next(p, cc, s, es[0]);
      (if Watched(es[0], w) then [Seen(out.value)] else []) + Watch(p, cc, s', es[1..], w)
  }

  // ---- steps on hidden keys only, and steps nobody can see ----

  predicate HasNext(s: State, i: nat) { i < |s.rewraps| && s.rewraps[i].done < |s.rewraps[i].work| }

  function NextRow(s: State, i: nat): Row
    requires HasNext(s, i)
  {
    s.rewraps[i].work[s.rewraps[i].done]
  }

  /** The step touches hidden keys only: an ACL edit, another user's request, or a rewrap iteration. */
  predicate Hidden(p: Policy, s: State, e: Step, w: Scope) {
    match e
    case UpdateAcl(kid, _) => kid in w.hidden
    case NextRewrap(i, _) => HasNext(s, i) && NextRow(s, i).keyId in w.hidden
    case Api(u, r, o) =>
      u.userId !in w.masks
      && ((OnKey(r) && Target(p, r).Ok? && Target(p, r).value in w.hidden) || (r.GenerateKey? && o.kid in w.hidden))
    case _ => false
  }

  /** Besides: any sweep, any cache clear, and a rewrap iteration with nothing to do or on an expired row. */
  predicate Quiet(p: Policy, s: State, e: Step, w: Scope) {
    || Hidden(p, s, e, w) || e.SweepExpired? || e.ClearCache?
    || (e.NextRewrap? && (HasNext(s, e.proc) ==> Expired(NextRow(s, e.proc).expiresAt, NowMs(s))))
  }

  lemma QuietUnwatched(p: Policy, s: State, e: Step, w: Scope)
    requires Quiet(p, s, e, w)
    ensures !Watched(e, w)
  {
  }

  // ---- two vaults that agree on what counts ----

  /** The rows a rewrap still has to visit. */
  function Rest(r: Rewrap): Table { if r.done <= |r.work| then r.work[r.done..] else [] }

  ghost predicate RewrapsAlike(l: Lens, xs: seq<Rewrap>, ys: seq<Rewrap>) {
    |xs| == |ys| && forall i :: 0 <= i < |xs| ==> xs[i].kek == ys[i].kek && Kept(l, Rest(xs[i])) == Kept(l, Rest(ys[i]))
  }

  /** The same times, users, KEKs and kept rows, also in the work lists of the rewraps under way. Caches,
      rows that are not kept, and counters may differ. */
  ghost predicate Alike(l: Lens, s: State, t: State) {
    && s.clock == t.clock && s.started == t.started && s.users == t.users && s.kek == t.kek
    && Kept(l, s.rows) == Kept(l, t.rows) && RewrapsAlike(l, s.rewraps, t.rewraps)
  }

  /** Without a cut, or with the cut at the present. */
  predicate Current(l: Lens, s: State) { l.cut.None? || l.cut == Some(NowMs(s)) }

  function At(l: Lens, s: State): Lens { if l.cut.None? then l else l.(cut := Some(NowMs(s))) }

  // ---- API requests ----

  /** What a key operation answers about a row, as the caller sees it. */
  function SeenAnswer(p: Policy, m: Manager, nowMs: int, found: Option<Row>, u: User, r: Request, o: Oracle): Outcome
    requires OnKey(r) && Target(p, r).Ok?
  {
    if found.None? || !Effective(u.mask, found.value.acl, u.userId, OpClass(r))
       || !InWindow(found.value.notBefore, found.value.expiresAt, nowMs)
    then Fail(Fault(KEY_NOT_FOUND))
    else Seen(After(p, r, ViewOf(found.value, ExtractRow(m, found.value)), nowMs, o.nonce))
  }

  ghost predicate Denied(rows: Table, u: User, cls: string, kid: Kid) {
    Find(rows, kid).Some? ==> !Effective(u.mask, Find(rows, kid).value.acl, u.userId, cls)
  }

  lemma RevokeSucceeds(p: Policy, r: Request, v: KeyView, nowMs: int, rnd: nat)
    requires OnKey(r) && Target(p, r).Ok?
    ensures r.RevokeKey? ==> After(p, r, v, nowMs, rnd).Done?
  {
  }

  lemma OutcomeKept(p: Policy, cc: CacheConfig, s: State, u: User, r: Request, o: Oracle, l: Lens)
    requires Inv(s) && Current(l, s) && OnKey(r) && Target(p, r).Ok?
    requires Target(p, r).value in l.hidden ==> Denied(s.rows, u, OpClass(r), Target(p, r).value)
    ensures Seen(KeyOperation(p, cc, s, u, r, o).1)
            == SeenAnswer(p, s.kek, NowMs(s), Find(Kept(l, s.rows), Target(p, r).value), u, r, o)
  {
    var kid := Target(p, r).value;
    FindKept(l, s.rows, kid);
    if Find(s.rows, kid).Some? { KeyAnswer(p, cc, s, u, r, o, Find(s.rows, kid).value); }
  }

  lemma RowsKept(p: Policy, cc: CacheConfig, s: State, u: User, r: Request, o: Oracle, l: Lens)
    requires Inv(s) && Current(l, s) && OnKey(r) && Target(p, r).Ok?
    requires Target(p, r).value in l.hidden ==> Denied(s.rows, u, OpClass(r), Target(p, r).value)
    ensures Kept(l, KeyOperation(p, cc, s, u, r, o).0.rows)
            == if r.RevokeKey?
                  && SeenAnswer(p, s.kek, NowMs(s), Find(Kept(l, s.rows), Target(p, r).value), u, r, o).Done?
               then Delete(Kept(l, s.rows), Target(p, r).value) else Kept(l, s.rows)
  {
    OutcomeKept(p, cc, s, u, r, o, l);
    OperationRows(p, cc, s, u, r, o);
    KeptDelete(l, s.rows, Target(p, r).value);
  }

  lemma KeyOperationAlike(p: Policy, cc: CacheConfig, cc2: CacheConfig, l: Lens, s: State, t: State, u: User,
                          r: Request, o: Oracle)
    requires Inv(s) && Inv(t) && Alike(l, s, t) && Current(l, s) && OnKey(r)
    requires Target(p, r).Ok? && Target(p, r).value in l.hidden ==>
               Denied(s.rows, u, OpClass(r), Target(p, r).value) && Denied(t.rows, u, OpClass(r), Target(p, r).value)
    ensures Alike(l, KeyOperation(p, cc, s, u, r, o).0, KeyOperation(p, cc2, t, u, r, o).0)
    ensures Seen(KeyOperation(p, cc, s, u, r, o).1) == Seen(KeyOperation(p, cc2, t, u, r, o).1)
  {
    OperationRows(p, cc, s, u, r, o);
    OperationRows(p, cc2, t, u, r, o);
    if Target(p, r).Ok? {
      OutcomeKept(p, cc, s, u, r, o, l);
      OutcomeKept(p, cc2, t, u, r, o, l);
      RowsKept(p, cc, s, u, r, o, l);
      RowsKept(p, cc2, t, u, r, o, l);
    }
  }

  lemma DeniedWhenHidden(s: State, u: User, kid: Kid, cls: string, w: Scope)
    requires kid in w.hidden && u.userId in w.masks && u.mask == w.masks[u.userId]
    requires Unseen(s.rows, w) && cls in KEY_OP_CLASSES
    ensures Denied(s.rows, u, cls, kid)
  {
    var k :| 0 <= k < |KEY_OP_CLASSES| && KEY_OP_CLASSES[k] == cls;
    assert HiddenFrom(s.rows, w.hidden, u.mask, u.userId);
    if Find(s.rows, kid).Some? { assert !EffectiveAny(u.mask, Find(s.rows, kid).value.acl, u.userId); }
  }

  lemma GenerateAlike(l: Lens, s: State, t: State, u: User, extra: bool, g: GenParams, o: Oracle)
    requires Inv(s) && Inv(t) && Alike(l, s, t) && o.kid !in s.born && o.kid !in t.born
    ensures Alike(l, Generate(s, u, extra, g, o).0, Generate(t, u, extra, g, o).0)
    ensures Generate(s, u, extra, g, o).1 == Generate(t, u, extra, g, o).1
  {
    Unborn(s, o.kid);
    Unborn(t, o.kid);
    if GenerateProblem(u, extra, g, NowSeconds(s)).None? && NewAcl(u, g.acl, s.users).Ok? {
      var acl := NewAcl(u, g.acl, s.users).value;
      var row := NewRow(s.kek, g.spec.value, acl, TsValue(g.nbf), TsValue(g.exp), NowSeconds(s), o);
      KeptAppend(l, s.rows, row);
      KeptAppend(l, t.rows, row);
    }
  }

  lemma Unborn(s: State, kid: Kid)
    requires Inv(s) && kid !in s.born
    ensures !HasKey(s.rows, kid)
  {
    forall i | 0 <= i < |s.rows| ensures s.rows[i].keyId in s.born { assert RowOk(s.born, s.rows[i]); }
  }

  lemma {:induction false} ListKept(l: Lens, rows: Table, u: User, nowMs: int)
    requires l.cut.None? || l.cut == Some(nowMs)
    requires HiddenFrom(rows, l.hidden, u.mask, u.userId)
    ensures ListRows(Kept(l, rows), u, nowMs) == ListRows(rows, u, nowMs)
  {
    if rows != [] {
      assert rows == [rows[0]] + rows[1..];
      ListKept(l, rows[1..], u, nowMs);
      TailOf(rows[0], Kept(l, rows[1..]));
      SkipNothing(Kept(l, rows[1..]));
      SkipNothing(ListRows(rows[1..], u, nowMs));
    }
  }

  lemma ListAlike(l: Lens, s: State, t: State, u: User, extra: bool)
    requires Alike(l, s, t) && Current(l, s) && UserOk(u)
    requires HiddenFrom(s.rows, l.hidden, u.mask, u.userId) && HiddenFrom(t.rows, l.hidden, u.mask, u.userId)
    ensures ListOperation(s, u, extra) == ListOperation(t, u, extra)
  {
    PrefilterLosesNothing(s.rows, u, NowMs(s));
    PrefilterLosesNothing(t.rows, u, NowMs(t));
    ListKept(l, s.rows, u, NowMs(s));
    ListKept(l, t.rows, u, NowMs(t));
  }

  /** A request that is not on hidden keys by another user: the same effect on what is kept, and for an
      observer the same response. */
  lemma ApiAlike(p: Policy, cc: CacheConfig, cc2: CacheConfig, l: Lens, s: State, t: State, e: Step, w: Scope)
    requires Inv(s) && Inv(t) && Alike(l, s, t) && Current(l, s) && l.hidden == w.hidden && e.Api?
    requires GoodStep(s, e, w) && GoodStep(t, e, w) && Unseen(s.rows, w) && Unseen(t.rows, w) && !Hidden(p, s, e, w)
    ensures var (s', out) := Handle(p, cc, s, e.user, e.req, e.oracle);
            var (t', out2) := Handle(p, cc2, t, e.user, e.req, e.oracle);
            Alike(l, s', t') && s'.clock == s.clock && (Watched(e, w) ==> Seen(out) == Seen(out2))
  {
    var (u, r, o) := (e.user, e.req, e.oracle);
    if OnKey(r) {
      if Target(p, r).Ok? && Target(p, r).value in w.hidden {
        DeniedWhenHidden(s, u, Target(p, r).value, OpClass(r), w);
        DeniedWhenHidden(t, u, Target(p, r).value, OpClass(r), w);
      }
      KeyOperationAlike(p, cc, cc2, l, s, t, u, r, o);
      OperationRows(p, cc, s, u, r, o);
    } else if r.GenerateKey? {
      GenerateAlike(l, s, t, u, r.extra, r.gen, o);
    } else if r.ListKeys? && Watched(e, w) {
      if u.userId in w.masks {
        assert HiddenFrom(s.rows, w.hidden, u.mask, u.userId) && HiddenFrom(t.rows, w.hidden, u.mask, u.userId);
      }
      ListAlike(l, s, t, u, r.extra);
    }
  }

  // ---- the other steps ----

  lemma TickAlike(l: Lens, s: State, t: State, to: nat)
    requires Alike(l, s, t) && Current(l, s) && to >= s.clock
    ensures Alike(At(l, s.(clock := to)), s.(clock := to), t.(clock := to))
  {
    var l' := At(l, s.(clock := to));
    KeptTwice(l, l', s.rows);
    KeptTwice(l, l', t.rows);
    forall i | 0 <= i < |s.rewraps| ensures Kept(l', Rest(s.rewraps[i])) == Kept(l', Rest(t.rewraps[i])) {
      KeptTwice(l, l', Rest(s.rewraps[i]));
      KeptTwice(l, l', Rest(t.rewraps[i]));
    }
  }

  lemma AdminAclAlike(l: Lens, s: State, t: State, kid: Kid, acl: AclInput)
    requires Alike(l, s, t)
    ensures Alike(l, AdminAcl(s, kid, acl), AdminAcl(t, kid, acl))
    ensures kid in l.hidden ==> Alike(l, AdminAcl(s, kid, acl), t)
  {
    if Validated(acl).Ok? {
      KeptSetAcl(l, s.rows, kid, Validated(acl).value);
      KeptSetAcl(l, t.rows, kid, Validated(acl).value);
    }
  }

  lemma StartAlike(l: Lens, s: State, t: State, m: Manager)
    requires Alike(l, s, t)
    ensures var xs := s.rewraps + [Rewrap(m, NotEmbeddedWith(s.rows, m.active.kid), 0, 0, 0)];
            var ys := t.rewraps + [Rewrap(m, NotEmbeddedWith(t.rows, m.active.kid), 0, 0, 0)];
            Alike(l, s.(rewraps := xs), t.(rewraps := ys))
  {
    KeptWork(l, s.rows, m.active.kid);
    KeptWork(l, t.rows, m.active.kid);
    var xs := s.rewraps + [Rewrap(m, NotEmbeddedWith(s.rows, m.active.kid), 0, 0, 0)];
    var ys := t.rewraps + [Rewrap(m, NotEmbeddedWith(t.rows, m.active.kid), 0, 0, 0)];
    assert Rest(xs[|s.rewraps|]) == NotEmbeddedWith(s.rows, m.active.kid);
    assert Rest(ys[|t.rewraps|]) == NotEmbeddedWith(t.rows, m.active.kid);
  }

  /** The first row that a rewrap still has to visit. */
  lemma RestStep(l: Lens, r: Rewrap, r': Rewrap)
    requires r.done < |r.work| && r'.work == r.work && r'.done == r.done + 1
    ensures Rest(r) == [r.work[r.done]] + Rest(r')
    ensures Kept(l, Rest(r)) == (if Keep(l, r.work[r.done]) then [r.work[r.done]] else []) + Kept(l, Rest(r'))
  {
    assert Rest(r) == [r.work[r.done]] + Rest(r');
    TailOf(r.work[r.done], Rest(r'));
  }

  lemma SameNext(l: Lens, s: State, t: State, i: nat, r: Rewrap, r2: Rewrap)
    requires Alike(l, s, t) && HasNext(s, i) && HasNext(t, i) && Keep(l, NextRow(s, i)) && Keep(l, NextRow(t, i))
    requires r.work == s.rewraps[i].work && r.done == s.rewraps[i].done + 1
    requires r2.work == t.rewraps[i].work && r2.done == t.rewraps[i].done + 1
    ensures NextRow(s, i) == NextRow(t, i) && Kept(l, Rest(r)) == Kept(l, Rest(r2))
  {
    RestStep(l, s.rewraps[i], r);
    RestStep(l, t.rewraps[i], r2);
    TailOf(NextRow(s, i), Kept(l, Rest(r)));
    TailOf(NextRow(t, i), Kept(l, Rest(r2)));
  }

  lemma RewrapRowAlike(l: Lens, rows: Table, rows2: Table, m: Manager, from: Row, iat: int, nonce: nat)
    requires Kept(l, rows) == Kept(l, rows2)
    ensures Kept(l, RewrapRow(rows, m, from, iat, nonce)) == Kept(l, RewrapRow(rows2, m, from, iat, nonce))
  {
    if ExtractRow(m, from).Ok? {
      var e := Embed(m, ExtractRow(m, from).value, RewrapMeta(from, iat), nonce);
      KeptSetEmbedding(l, rows, from.keyId, e);
      KeptSetEmbedding(l, rows2, from.keyId, e);
    }
  }

  /** Both vaults do the same iteration of the same rewrap. */
  lemma IterationAlike(l: Lens, s: State, t: State, i: nat, nonce: nat)
    requires Alike(l, s, t) && HasNext(s, i) && HasNext(t, i) && Keep(l, NextRow(s, i)) && Keep(l, NextRow(t, i))
    ensures var (rows, r) := RewrapIteration(s, s.rewraps[i], nonce);
            var (rows2, r2) := RewrapIteration(t, t.rewraps[i], nonce);
            Alike(l, s.(rows := rows, rewraps := s.rewraps[i := r]), t.(rows := rows2, rewraps := t.rewraps[i := r2]))
  {
    SameNext(l, s, t, i, RewrapIteration(s, s.rewraps[i], nonce).1, RewrapIteration(t, t.rewraps[i], nonce).1);
    RewrapRowAlike(l, s.rows, t.rows, s.rewraps[i].kek, NextRow(s, i), NowSeconds(s), nonce);
  }

  /** An iteration on a row that is not kept changes nothing that is: the row stored under the id by now has
      the same id and expiry. */
  lemma IterationUnkept(l: Lens, s: State, i: nat, nonce: nat)
    requires Inv(s) && HasNext(s, i) && !Keep(l, NextRow(s, i))
    ensures Kept(l, RewrapIteration(s, s.rewraps[i], nonce).0) == Kept(l, s.rows)
    ensures Kept(l, Rest(RewrapIteration(s, s.rewraps[i], nonce).1)) == Kept(l, Rest(s.rewraps[i]))
  {
    var from := NextRow(s, i);
    assert RewrapOk(s.born, s.rewraps[i]) && RowOk(s.born, from);
    var r := RewrapIteration(s, s.rewraps[i], nonce).1;
    RestStep(l, s.rewraps[i], r);
    SkipNothing(Kept(l, Rest(r)));
    forall row | row in s.rows && row.keyId == from.keyId ensures !Keep(l, row) { assert RowOk(s.born, row); }
    if ExtractRow(r.kek, from).Ok? {
      NoneKept(l, s.rows, from.keyId,
               Embed(r.kek, ExtractRow(r.kek, from).value, RewrapMeta(from, NowSeconds(s)), nonce));
    }
  }

  // ---- one step ----

  /** A rewrap step finds both vaults idle or at a kept row. */
  predicate Aligned(l: Lens, s: State, t: State, e: Step) {
    e.NextRewrap? ==>
      if HasNext(s, e.proc) then HasNext(t, e.proc) && Keep(l, NextRow(s, e.proc)) && Keep(l, NextRow(t, e.proc))
      else !HasNext(t, e.proc)
  }

  lemma OtherAlike(p: Policy, cc: CacheConfig, cc2: CacheConfig, l: Lens, s: State, t: State, e: Step)
    requires Alike(l, s, t) && Current(l, s) && Aligned(l, s, t, e) && !e.Api?
    ensures Alike(At(l, Next(p, cc, s, e).0), Next(p, cc, s, e).0, Next(p, cc2, t, e).0)
  {
    match e
    case Tick(to) => { if to >= s.clock { TickAlike(l, s, t, to); } }
    case SweepExpired(grace) => {
      KeptSweep(l, s.rows, s.clock, grace);
      KeptSweep(l, t.rows, t.clock, grace);
    }
    case UpdateAcl(kid, acl) => { AdminAclAlike(l, s, t, kid, acl); }
    case StartRewrap(m) => { StartAlike(l, s, t, m); }
    case NextRewrap(i, nonce) => { if HasNext(s, i) { IterationAlike(l, s, t, i, nonce); } }
    case _ =>
  }

  lemma StepTogether(p: Policy, cc: CacheConfig, cc2: CacheConfig, l: Lens, s: State, t: State, e: Step, w: Scope)
    requires Inv(s) && Inv(t) && Alike(l, s, t) && Current(l, s) && l.hidden == w.hidden
    requires GoodStep(s, e, w) && GoodStep(t, e, w) && Unseen(s.rows, w) && Unseen(t.rows, w)
    requires !Hidden(p, s, e, w) && Aligned(l, s, t, e)
    ensures Alike(At(l, Next(p, cc, s, e).0), Next(p, cc, s, e).0, Next(p, cc2, t, e).0)
    ensures Watched(e, w) ==> Seen(Next(p, cc, s, e).1.value) == Seen(Next(p, cc2, t, e).1.value)
  {
    if e.Api? { ApiAlike(p, cc, cc2, l, s, t, e, w); } else { OtherAlike(p, cc, cc2, l, s, t, e); }
  }

  lemma HiddenApiAlone(p: Policy, cc: CacheConfig, l: Lens, s: State, t: State, e: Step, w: Scope)
    requires Inv(s) && Alike(l, s, t) && l.hidden == w.hidden && StepOk(s, e) && e.Api? && Hidden(p, s, e, w)
    ensures Alike(l, Handle(p, cc, s, e.user, e.req, e.oracle).0, t)
  {
    var (u, r, o) := (e.user, e.req, e.oracle);
    if OnKey(r) {
      OperationRows(p, cc, s, u, r, o);
      KeptDelete(l, s.rows, Target(p, r).value);
    } else if Generate(s, u, r.extra, r.gen, o).0 != s {
      KeptAppend(l, s.rows, Generate(s, u, r.extra, r.gen, o).0.rows[|s.rows|]);
      SkipNothing(Kept(l, s.rows));
    }
  }

  lemma RewrapAlone(l: Lens, s: State, t: State, i: nat, nonce: nat)
    requires Inv(s) && Alike(l, s, t) && HasNext(s, i) && !Keep(l, NextRow(s, i))
    ensures var (rows, r) := RewrapIteration(s, s.rewraps[i], nonce);
            Alike(l, s.(rows := rows, rewraps := s.rewraps[i := r]), t)
  {
    var (rows, r) := RewrapIteration(s, s.rewraps[i], nonce);
    var s' := s.(rows := rows, rewraps := s.rewraps[i := r]);
    IterationUnkept(l, s, i, nonce);
    assert r.kek == s.rewraps[i].kek && s'.rewraps[i] == r;
    assert forall j :: 0 <= j < |s.rewraps| && j != i ==> s'.rewraps[j] == s.rewraps[j];
    UpdateAlike(l, s.rewraps, t.rewraps, i, r);
  }

  lemma UpdateAlike(l: Lens, xs: seq<Rewrap>, ys: seq<Rewrap>, i: nat, r: Rewrap)
    requires RewrapsAlike(l, xs, ys) && i < |xs| && r.kek == xs[i].kek && Kept(l, Rest(r)) == Kept(l, Rest(xs[i]))
    ensures RewrapsAlike(l, xs[i := r], ys)
  {
  }

  /** A step that only one of the vaults takes. */
  lemma StepAlone(p: Policy, cc: CacheConfig, l: Lens, s: State, t: State, e: Step, w: Scope)
    requires Inv(s) && Alike(l, s, t) && Current(l, s) && l.hidden == w.hidden && StepOk(s, e)
    requires Hidden(p, s, e, w) || (l.cut.Some? && Quiet(p, s, e, w))
    ensures Alike(l, Next(p, cc, s, e).0, t) && Next(p, cc, s, e).0.clock == s.clock
  {
    match e
    case SweepExpired(grace) => { SweepTakesExpired(l, s.rows, s.clock, grace); }
    case UpdateAcl(kid, acl) => { AdminAclAlike(l, s, t, kid, acl); }
    case NextRewrap(i, nonce) => { if HasNext(s, i) { RewrapAlone(l, s, t, i, nonce); } }
    case Api(u, r, o) => { HiddenApiAlone(p, cc, l, s, t, e, w); }
    case _ =>
  }

  lemma AlikeSymmetric(l: Lens, s: State, t: State)
    requires Alike(l, s, t)
    ensures Alike(l, t, s)
  {
  }

  // ---- two runs ----

  /** The steps of a run that can make a difference to an observer. */
  function Loud(p: Policy, cc: CacheConfig, s: State, es: seq<Step>, w: Scope): seq<Step>
    decreases |es|
  {
    if es == [] then []
    else (if Quiet(p, s, es[0], w) then [] else [es[0]]) + Loud(p, cc, Next(p, cc, s, es[0]).0, es[1..], w)
  }

  /** The same keys, apart from hidden and expired ones. */
  function Now(w: Scope, s: State): Lens { Lens(w.hidden, Some(NowMs(s))) }

  lemma LoudAligned(p: Policy, s: State, t: State, e: Step, w: Scope)
    requires Alike(Now(w, s), s, t) && !Quiet(p, s, e, w) && !Quiet(p, t, e, w)
    ensures Aligned(Now(w, s), s, t, e)
  {
  }

  /** Two vaults that differ only in hidden keys, expired keys and caches, and two runs that differ only in
      steps on hidden keys, in sweeps, in cache clears and in rewrap iterations on hidden or expired keys,
      give every observer the same responses. Restarts and all other rewraps are part of both runs. */
  lemma {:induction false} Indistinguishable(p: Policy, cc: CacheConfig, cc2: CacheConfig, s: State, t: State,
                                             es: seq<Step>, fs: seq<Step>, w: Scope)
    requires Inv(s) && Inv(t) && Alike(Now(w, s), s, t)
    requires GoodRun(p, cc, s, es, w) && GoodRun(p, cc2, t, fs, w) && Loud(p, cc, s, es, w) == Loud(p, cc2, t, fs, w)
    ensures Watch(p, cc, s, es, w) == Watch(p, cc2, t, fs, w)
    decreases |es| + |fs|
  {
    if es != [] && Quiet(p, s, es[0], w) {
      LeftAlone(p, cc, s, t, es, w);
      Indistinguishable(p, cc, cc2, Next(p, cc, s, es[0]).0, t, es[1..], fs, w);
    } else if fs != [] && Quiet(p, t, fs[0], w) {
      AlikeSymmetric(Now(w, s), s, t);
      LeftAlone(p, cc2, t, s, fs, w);
      AlikeSymmetric(Now(w, s), Next(p, cc2, t, fs[0]).0, s);
      Indistinguishable(p, cc, cc2, s, Next(p, cc2, t, fs[0]).0, es, fs[1..], w);
    } else if es != [] && fs != [] {
      var s', t' := Next(p, cc, s, es[0]).0, Next(p, cc2, t, fs[0]).0;
      TailOf(es[0], Loud(p, cc, s', es[1..], w));
      TailOf(fs[0], Loud(p, cc2, t', fs[1..], w));
      LoudAligned(p, s, t, es[0], w);
      StepTogether(p, cc, cc2, Now(w, s), s, t, es[0], w);
      StepKeepsInv(p, cc, s, es[0]);
      StepKeepsInv(p, cc2, t, fs[0]);
      Indistinguishable(p, cc, cc2, s', t', es[1..], fs[1..], w);
    }
  }

  lemma LeftAlone(p: Policy, cc: CacheConfig, s: State, t: State, es: seq<Step>, w: Scope)
    requires Inv(s) && Alike(Now(w, s), s, t) && es != [] && Quiet(p, s, es[0], w) && GoodRun(p, cc, s, es, w)
    ensures var s' := Next(p, cc, s, es[0]).0;
            && Inv(s') && Alike(Now(w, s'), s', t) && Now(w, s') == Now(w, s) && GoodRun(p, cc, s', es[1..], w)
            && Loud(p, cc, s, es, w) == Loud(p, cc, s', es[1..], w)
            && Watch(p, cc, s, es, w) == Watch(p, cc, s', es[1..], w)
  {
    var s' := Next(p, cc, s, es[0]).0;
    StepKeepsInv(p, cc, s, es[0]);
    StepAlone(p, cc, Now(w, s), s, t, es[0], w);
    QuietUnwatched(p, s, es[0], w);
    SkipNothing(Loud(p, cc, s', es[1..], w));
    SkipNothing(Watch(p, cc, s', es[1..], w));
  }

  // ---- one run, and what is left of it without the hidden keys ----

  function Erased(r: Rewrap, l: Lens): Rewrap { Rewrap(r.kek, Kept(l, Rest(r)), 0, 0, 0) }

  /** The vault in which the hidden keys never were: without their rows, with an empty cache, and with the
      rewraps under way about to visit the other keys. */
  function Erase(s: State, hidden: set<Kid>): State {
    var l := Lens(hidden, None);
    s.(rows := Kept(l, s.rows), cache := [],
       rewraps := seq(|s.rewraps|, i requires 0 <= i < |s.rewraps| => Erased(s.rewraps[i], l)))
  }

  /** The run without its steps on hidden keys. All else stays: restarts, sweeps, cache clears, and every
      rewrap with its iterations on other keys. */
  function Purge(p: Policy, cc: CacheConfig, s: State, es: seq<Step>, w: Scope): seq<Step>
    decreases |es|
  {
    if es == [] then []
    else (if Hidden(p, s, es[0], w) then [] else [es[0]]) + Purge(p, cc, Next(p, cc, s, es[0]).0, es[1..], w)
  }

  ghost predicate NoneHidden(s: State, hidden: set<Kid>) {
    && (forall k :: k in hidden ==> !HasKey(s.rows, k))
    && (forall i, row :: 0 <= i < |s.rewraps| && row in Rest(s.rewraps[i]) ==> row.keyId !in hidden)
  }

  /** `t` is what is left of `s` without the hidden keys. */
  ghost predicate Shadow(s: State, t: State, w: Scope) {
    && Inv(s) && Inv(t) && Alike(Lens(w.hidden, None), s, t) && NoneHidden(t, w.hidden) && t.born.Keys <= s.born.Keys
  }

  lemma {:induction false} KeptUnique(l: Lens, rows: Table)
    requires UniqueKids(rows)
    ensures UniqueKids(Kept(l, rows))
  {
    if rows != [] {
      TailUnique(rows);
      KeptUnique(l, rows[1..]);
      var rest := Kept(l, rows[1..]);
      FindKept(l, rows[1..], rows[0].keyId);
      SkipNothing(rest);
      if Keep(l, rows[0]) { UniqueCons(rows[0], rest); }
    }
  }

  lemma KeptIsKept(l: Lens, rows: Table)
    ensures Kept(l, Kept(l, rows)) == Kept(l, rows)
  {
    AllKept(l, Kept(l, rows));
  }

  lemma EraseShadow(s: State, w: Scope)
    requires Inv(s)
    ensures Shadow(s, Erase(s, w.hidden), w)
  {
    var l, t := Lens(w.hidden, None), Erase(s, w.hidden);
    KeptUnique(l, s.rows);
    KeptIsKept(l, s.rows);
    forall i | 0 <= i < |s.rewraps|
      ensures RewrapOk(t.born, t.rewraps[i]) && Rest(t.rewraps[i]) == Kept(l, Rest(s.rewraps[i]))
              && Kept(l, Rest(t.rewraps[i])) == Kept(l, Rest(s.rewraps[i]))
    {
      assert RewrapOk(s.born, s.rewraps[i]);
      KeptIsKept(l, Rest(s.rewraps[i]));
      RestRows(s.rewraps[i]);
    }
    forall k | k in w.hidden ensures !HasKey(t.rows, k) {
      forall j | 0 <= j < |t.rows| ensures t.rows[j].keyId != k { assert t.rows[j] in t.rows; }
    }
  }

  lemma RestRows(r: Rewrap)
    ensures forall row :: row in Rest(r) ==> row in r.work
  {
  }

  lemma UnseenWithout(t: State, w: Scope)
    requires NoneHidden(t, w.hidden)
    ensures Unseen(t.rows, w)
  {
    forall row | row in t.rows ensures row.keyId !in w.hidden {
      var i :| 0 <= i < |t.rows| && t.rows[i] == row;
      assert HasKey(t.rows, row.keyId);
    }
  }

  /** Of two work lists with the same kept rows, one without any other: if the other one is at a kept row or
      at its end, so is it, and at the same row. */
  lemma HeadsAgree(l: Lens, x: Rewrap, y: Rewrap)
    requires x.done <= |x.work| && y.done <= |y.work| && Kept(l, Rest(x)) == Rest(y)
    requires x.done < |x.work| ==> Keep(l, x.work[x.done])
    ensures x.done < |x.work| <==> y.done < |y.work|
    ensures x.done < |x.work| ==> x.work[x.done] == y.work[y.done]
  {
    if x.done < |x.work| {
      assert Rest(x) == [x.work[x.done]] + x.work[x.done + 1..];
      TailOf(x.work[x.done], x.work[x.done + 1..]);
      assert Rest(y)[0] == x.work[x.done];
    } else {
      assert Rest(x) == [];
    }
  }

  lemma ListsAligned(hidden: set<Kid>, x: Rewrap, y: Rewrap)
    requires x.done <= |x.work| && y.done <= |y.work|
    requires Kept(Lens(hidden, None), Rest(x)) == Kept(Lens(hidden, None), Rest(y))
    requires forall row :: row in Rest(y) ==> row.keyId !in hidden
    requires x.done < |x.work| ==> x.work[x.done].keyId !in hidden
    ensures x.done < |x.work| <==> y.done < |y.work|
    ensures x.done < |x.work| ==> x.work[x.done] == y.work[y.done]
  {
    AllKept(Lens(hidden, None), Rest(y));
    HeadsAgree(Lens(hidden, None), x, y);
  }

  lemma ShadowRewraps(s: State, t: State, i: nat, w: Scope)
    requires Shadow(s, t, w) && i < |s.rewraps|
    ensures i < |t.rewraps|
    ensures var x, y := s.rewraps[i], t.rewraps[i];
            && x.done <= |x.work| && y.done <= |y.work| && (forall row :: row in Rest(y) ==> row.keyId !in w.hidden)
            && Kept(Lens(w.hidden, None), Rest(x)) == Kept(Lens(w.hidden, None), Rest(y))
  {
    assert RewrapOk(t.born, t.rewraps[i]) && RewrapOk(s.born, s.rewraps[i]);
  }

  lemma ShadowNext(s: State, t: State, i: nat, w: Scope)
    requires Shadow(s, t, w) && i < |s.rewraps| && (HasNext(s, i) ==> NextRow(s, i).keyId !in w.hidden)
    ensures (HasNext(s, i) <==> HasNext(t, i)) && (HasNext(s, i) ==> NextRow(s, i) == NextRow(t, i))
  {
    ShadowRewraps(s, t, i, w);
    ListsAligned(w.hidden, s.rewraps[i], t.rewraps[i]);
  }

  lemma NextAligned(p: Policy, s: State, t: State, i: nat, nonce: nat, w: Scope)
    requires !Hidden(p, s, NextRewrap(i, nonce), w)
    requires (HasNext(s, i) <==> HasNext(t, i)) && (HasNext(s, i) ==> NextRow(s, i) == NextRow(t, i))
    ensures Aligned(Lens(w.hidden, None), s, t, NextRewrap(i, nonce))
  {
  }

  lemma ShadowAligned(p: Policy, s: State, t: State, e: Step, w: Scope)
    requires Shadow(s, t, w) && !Hidden(p, s, e, w)
    ensures Aligned(Lens(w.hidden, None), s, t, e)
  {
    if e.NextRewrap? {
      assert |s.rewraps| == |t.rewraps|;
      if e.proc < |s.rewraps| { ShadowNext(s, t, e.proc, w); }
      NextAligned(p, s, t, e.proc, e.nonce, w);
    }
  }

  /** Only another key generation could bring a hidden key into the vault without any. */
  lemma StaysWithout(p: Policy, cc: CacheConfig, t: State, e: Step, hidden: set<Kid>)
    requires Inv(t) && StepOk(t, e) && NoneHidden(t, hidden)
    requires e.Api? && e.req.GenerateKey? ==> e.oracle.kid !in hidden
    ensures NoneHidden(Next(p, cc, t, e).0, hidden)
  {
    var t' := Next(p, cc, t, e).0;
    StepKeepsInv(p, cc, t, e);
    forall k | k in hidden ensures !HasKey(t'.rows, k) {
      if HasKey(t'.rows, k) {
        RowStep(p, cc, t, e, k);
        assert RowOk(t'.born, Find(t'.rows, k).value);
        BornStep(p, cc, t, e, k);
      }
    }
    RewrapsWithout(p, cc, t, e, hidden);
  }

  lemma BornStep(p: Policy, cc: CacheConfig, t: State, e: Step, k: Kid)
    requires k in Next(p, cc, t, e).0.born && (e.Api? && e.req.GenerateKey? ==> e.oracle.kid != k)
    ensures k in t.born
  {
    if !(e.Api? && e.req.GenerateKey?) { BornStands(p, cc, t, e); }
  }

  lemma RewrapsWithout(p: Policy, cc: CacheConfig, t: State, e: Step, hidden: set<Kid>)
    requires Inv(t) && NoneHidden(t, hidden)
    ensures var t' := Next(p, cc, t, e).0;
            forall i, row :: 0 <= i < |t'.rewraps| && row in Rest(t'.rewraps[i]) ==> row.keyId !in hidden
  {
    var t' := Next(p, cc, t, e).0;
    if e.StartRewrap? {
      OtherKekRows(t.rows, e.manager.active.kid);
      var r := t'.rewraps[|t.rewraps|];
      forall row | row in Rest(r) ensures row.keyId !in hidden {
        assert row in t.rows;
        var i :| 0 <= i < |t.rows| && t.rows[i] == row;
        assert HasKey(t.rows, row.keyId);
      }
      assert forall i :: 0 <= i < |t.rewraps| ==> t'.rewraps[i] == t.rewraps[i];
    } else if e.NextRewrap? {
      if HasNext(t, e.proc) {
        RestStep(Lens({}, None), t.rewraps[e.proc], t'.rewraps[e.proc]);
      }
    } else {
      RewrapsSame(p, cc, t, e);
    }
  }

  lemma RewrapsSame(p: Policy, cc: CacheConfig, t: State, e: Step)
    requires !e.StartRewrap? && !e.NextRewrap?
    ensures Next(p, cc, t, e).0.rewraps == t.rewraps
  {
    if e.Api? && OnKey(e.req) { OperationRows(p, cc, t, e.user, e.req, e.oracle); }
  }

  lemma BornTogether(p: Policy, cc: CacheConfig, cc2: CacheConfig, s: State, t: State, e: Step)
    requires Inv(s) && s.clock == t.clock && s.users == t.users && StepOk(s, e) && t.born.Keys <= s.born.Keys
    ensures Next(p, cc2, t, e).0.born.Keys <= Next(p, cc, s, e).0.born.Keys
  {
    if e.Api? && e.req.GenerateKey? {
      Unborn(s, e.oracle.kid);
    } else {
      BornStands(p, cc, s, e);
      BornStands(p, cc2, t, e);
    }
  }

  ghost predicate OwnKeysShown(es: seq<Step>, w: Scope) {
    forall i :: 0 <= i < |es| && es[i].Api? && es[i].req.GenerateKey? && es[i].user.userId in w.masks ==>
      es[i].oracle.kid !in w.hidden
  }

  lemma ShadowStep(p: Policy, cc: CacheConfig, cc2: CacheConfig, s: State, t: State, e: Step, w: Scope)
    requires Shadow(s, t, w) && GoodStep(s, e, w) && Unseen(s.rows, w) && !Hidden(p, s, e, w) && OwnKeysShown([e], w)
    ensures GoodStep(t, e, w) && Shadow(Next(p, cc, s, e).0, Next(p, cc2, t, e).0, w)
    ensures Watched(e, w) ==> Seen(Next(p, cc, s, e).1.value) == Seen(Next(p, cc2, t, e).1.value)
  {
    assert [e][0] == e;
    UnseenWithout(t, w);
    ShadowAligned(p, s, t, e, w);
    StepTogether(p, cc, cc2, Lens(w.hidden, None), s, t, e, w);
    StaysWithout(p, cc2, t, e, w.hidden);
    BornTogether(p, cc, cc2, s, t, e);
    StepKeepsInv(p, cc, s, e);
    StepKeepsInv(p, cc2, t, e);
  }

  lemma HiddenShadow(p: Policy, cc: CacheConfig, s: State, t: State, e: Step, w: Scope)
    requires Shadow(s, t, w) && GoodStep(s, e, w) && Hidden(p, s, e, w)
    ensures Shadow(Next(p, cc, s, e).0, t, w)
  {
    StepAlone(p, cc, Lens(w.hidden, None), s, t, e, w);
    StepKeepsInv(p, cc, s, e);
  }

  lemma {:induction false} Simulated(p: Policy, cc: CacheConfig, cc2: CacheConfig, s: State, t: State, es: seq<Step>,
                                     w: Scope)
    requires Shadow(s, t, w) && GoodRun(p, cc, s, es, w) && OwnKeysShown(es, w)
    ensures GoodRun(p, cc2, t, Purge(p, cc, s, es, w), w)
    ensures Watch(p, cc2, t, Purge(p, cc, s, es, w), w) == Watch(p, cc, s, es, w)
    decreases |es|
  {
    UnseenWithout(t, w);
    if es != [] {
      var s' := Next(p, cc, s, es[0]).0;
      var rest := Purge(p, cc, s', es[1..], w);
      assert OwnKeysShown(es[1..], w) by { assert forall i :: 0 <= i < |es| - 1 ==> es[1..][i] == es[i + 1]; }
      if Hidden(p, s, es[0], w) {
        HiddenShadow(p, cc, s, t, es[0], w);
        Simulated(p, cc, cc2, s', t, es[1..], w);
        QuietUnwatched(p, s, es[0], w);
        SkipNothing(rest);
        SkipNothing(Watch(p, cc, s', es[1..], w));
      } else {
        ShadowStep(p, cc, cc2, s, t, es[0], w);
        Simulated(p, cc, cc2, s', Next(p, cc2, t, es[0]).0, es[1..], w);
        TailOf(es[0], rest);
      }
    }
  }

  /** Existence masking. Take any run in which a user keeps one mask and never has an effective class on a
      key of a hidden set (of keys that it did not make itself; Indistinguishable covers those too). Erase
      these keys, with their ciphertexts, cache entries and places in work lists, from the starting state,
      and drop from the run every step that touches only them. What is left is again a possible run, under
      any cache configuration, and gives the user the same responses to all requests, in the same order. */
  lemma ExistenceMasking(p: Policy, cc: CacheConfig, cc2: CacheConfig, s: State, es: seq<Step>, hidden: set<Kid>,
                         userId: string, mask: AllowedOps)
    requires var w := Scope(hidden, map[userId := mask]); Inv(s) && GoodRun(p, cc, s, es, w) && OwnKeysShown(es, w)
    ensures var w := Scope(hidden, map[userId := mask]);
            && GoodRun(p, cc2, Erase(s, hidden), Purge(p, cc, s, es, w), w)
            && Watch(p, cc2, Erase(s, hidden), Purge(p, cc, s, es, w), w) == Watch(p, cc, s, es, w)
  {
    var w := Scope(hidden, map[userId := mask]);
    EraseShadow(s, w);
    Simulated(p, cc, cc2, s, Erase(s, hidden), es, w);
  }
}
