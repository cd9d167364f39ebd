/** KEK rotation as callers see it. The vault refines a machine that knows no KEKs, no ciphertexts, no cache
    and no expired rows, as long as each rewrap and each restart keeps readable what the server could read. */
module Rotation {
  import opened Text
  import opened Acl
  import opened Kek
  import opened KeyTable
  import opened UnwrapCache
  import opened Handlers
  import opened Vault
  import opened VaultInvariant
  import opened Listing
  import opened Masking
  import opened RewrapLive

  // ---- the abstract machine ----

  datatype Abs = Abs(views: seq<KeyView>, users: set<string>, clock: nat)

  function FindView(vs: seq<KeyView>, kid: Kid): Option<KeyView> {
    if vs == [] then None else if vs[0].keyId == kid then Some(vs[0]) else FindView(vs[1..], kid)
  }

  function DeleteView(vs: seq<KeyView>, kid: Kid): seq<KeyView> {
    if vs == [] then [] else (if vs[0].keyId == kid then [] else [vs[0]]) + DeleteView(vs[1..], kid)
  }

  function SetViewAcl(vs: seq<KeyView>, kid: Kid, acl: Grants): seq<KeyView> {
    if vs == [] then []
    else [if vs[0].keyId == kid then vs[0].(acl := acl) else vs[0]] + SetViewAcl(vs[1..], kid, acl)
  }

  function Unexpired(vs: seq<KeyView>, nowMs: int): seq<KeyView> {
    if vs == [] then [] else (if Expired(vs[0].expiresAt, nowMs) then [] else [vs[0]]) + Unexpired(vs[1..], nowMs)
  }

  function ListViews(vs: seq<KeyView>, u: User, nowMs: int): seq<Listed> {
    if vs == [] then []
    else (if Visible(vs[0], u, nowMs) then [ListOf(vs[0])] else []) + ListViews(vs[1..], u, nowMs)
  }

  function NewView(spec: KeySpec, acl: Grants, g: GenParams, o: Oracle): KeyView {
    var secret := NewSecret(spec, o);
    KeyView(o.kid, spec.kty, spec.alg, DateOf(TsValue(g.nbf)), DateOf(TsValue(g.exp)),
            if spec.kty == "oct" then None else Some(PublicHalf(secret)), acl, Ok(secret))
  }

  function AbsGenerate(a: Abs, u: User, extra: bool, g: GenParams, o: Oracle): (Abs, Outcome) {
    match GenerateProblem(u, extra, g, a.clock / 1000 / 1000)
    case Some(e) => (a, Fail(e))
    case None =>
      match NewAcl(u, g.acl, a.users)
      case Err(e) => (a, Fail(Explained(INVALID_ACL, AclText(e))))
      case Ok(acl) =>
        var v := NewView(g.spec.value, acl, g, o);
        (a.(views := a.views + [v]),
         Done(Generated(o.kid, if g.returnPublicKey == Bool(true) then v.publicKey else None)))
  }

  function AbsKeyOperation(p: Policy, a: Abs, u: User, r: Request, o: Oracle): (Abs, Outcome)
    requires OnKey(r)
  {
    match Target(p, r)
    case Err(e) => (a, Fail(e))
    case Ok(kid) =>
      match Authorize(FindView(a.views, kid), u, OpClass(r), a.clock / 1000)
      case Err(e) => (a, Fail(e))
      case Ok(v) =>
        (if r.RevokeKey? then a.(views := DeleteView(a.views, kid)) else a, After(p, r, v, a.clock / 1000, o.nonce))
  }

  /** What the caller sees of an outcome, the uptime of the process apart. */
  function ButUptime(o: Outcome): Outcome {
    if o.Done? && o.data.Uptime? then Done(Uptime(0)) else Seen(o)
  }

  function AbsHandle(p: Policy, a: Abs, u: User, r: Request, o: Oracle): (Abs, Outcome) {
    match r
    case Healthcheck(extra) =>
      (a, if extra then Fail(Fault(INVALID_REQUEST_DATA)) else Done(Uptime(0)))
    case ListKeys(extra) =>
      (a, if extra then Fail(Fault(INVALID_REQUEST_DATA))
          else if !AllowedOpsAllows(u.mask, "list-keys") then Fail(Fault(OPERATION_NOT_PERMITTED))
          else Done(KeyList(ListViews(a.views, u, a.clock / 1000))))
    case GenerateKey(extra, g) => AbsGenerate(a, u, extra, g, o)
    case _ => AbsKeyOperation(p, a, u, r, o)
  }

  function AbsNext(p: Policy, a: Abs, e: Step): (Abs, Option<Outcome>) {
    match e
    case Api(u, r, o) => var (a', out) := AbsHandle(p, a, u, r, o); (a', Some(out))
    case Tick(to) => (if to >= a.clock then a.(clock := to, views := Unexpired(a.views, to / 1000)) else a, None)
    case AddUser(u) => (a.(users := a.users + {u}), None)
    case RemoveUser(u) => (a.(users := a.users - {u}), None)
    case UpdateAcl(kid, acl) =>
      var v := Validated(acl);
      (if v.Err? || (exists u :: u in v.value && u !in a.users) then a
       else a.(views := SetViewAcl(a.views, kid, v.value)), None)
    case _ => (a, None)
  }

  // ---- the abstraction ----

  function View(m: Manager, row: Row): KeyView { ViewOf(row, ExtractRow(m, row)) }

  function Relevant(m: Manager, rows: Table, nowMs: int): seq<KeyView> {
    if rows == [] then []
    else (if Expired(rows[0].expiresAt, nowMs) then [] else [View(m, rows[0])]) + Relevant(m, rows[1..], nowMs)
  }

  function AbsOf(s: State): Abs { Abs(Relevant(s.kek, s.rows, NowMs(s)), s.users, s.clock) }

  lemma {:induction false} FindRelevant(m: Manager, rows: Table, nowMs: int, kid: Kid)
    requires UniqueKids(rows)
    ensures FindView(Relevant(m, rows, nowMs), kid)
            == if Find(rows, kid).Some? && !Expired(Find(rows, kid).value.expiresAt, nowMs)
               then Some(View(m, Find(rows, kid).value)) else None
  {
    if rows != [] {
      TailUnique(rows);
      FindRelevant(m, rows[1..], nowMs, kid);
      TailOf(View(m, rows[0]), Relevant(m, rows[1..], nowMs));
      SkipNothing(Relevant(m, rows[1..], nowMs));
    }
  }

  lemma {:induction false} RelevantDelete(m: Manager, rows: Table, nowMs: int, kid: Kid)
    ensures Relevant(m, Delete(rows, kid), nowMs) == DeleteView(Relevant(m, rows, nowMs), kid)
  {
    if rows != [] {
      RelevantDelete(m, rows[1..], nowMs, kid);
      TailOf(View(m, rows[0]), Relevant(m, rows[1..], nowMs));
      TailOf(rows[0], Delete(rows[1..], kid));
      SkipNothing(Relevant(m, rows[1..], nowMs));
      SkipNothing(Delete(rows[1..], kid));
    }
  }

  lemma {:induction false} RelevantSetAcl(m: Manager, rows: Table, nowMs: int, kid: Kid, acl: Grants)
    ensures Relevant(m, SetAcl(rows, kid, acl), nowMs) == SetViewAcl(Relevant(m, rows, nowMs), kid, acl)
  {
    if rows != [] {
      RelevantSetAcl(m, rows[1..], nowMs, kid, acl);
      var row' := if rows[0].keyId == kid then rows[0].(acl := acl) else rows[0];
      TailOf(View(m, rows[0]), Relevant(m, rows[1..], nowMs));
      TailOf(row', SetAcl(rows[1..], kid, acl));
      SkipNothing(Relevant(m, rows[1..], nowMs));
    }
  }

  lemma {:induction false} RelevantAppend(m: Manager, rows: Table, nowMs: int, row: Row)
    ensures Relevant(m, rows + [row], nowMs)
            == Relevant(m, rows, nowMs) + if Expired(row.expiresAt, nowMs) then [] else [View(m, row)]
  {
    if rows == [] {
      assert rows + [row] == [row] && [row][1..] == [];
    } else {
      assert (rows + [row])[1..] == rows[1..] + [row];
      RelevantAppend(m, rows[1..], nowMs, row);
    }
  }

  lemma {:induction false} RelevantSweep(m: Manager, rows: Table, clock: nat, grace: nat)
    ensures Relevant(m, Sweep(rows, clock, grace), clock / 1000) == Relevant(m, rows, clock / 1000)
  {
    if rows != [] {
      RelevantSweep(m, rows[1..], clock, grace);
      assert Sweepable(rows[0], clock, grace) ==> Expired(rows[0].expiresAt, clock / 1000);
      TailOf(rows[0], Sweep(rows[1..], clock, grace));
      SkipNothing(Sweep(rows[1..], clock, grace));
      SkipNothing(Relevant(m, rows[1..], clock / 1000));
    }
  }

  lemma {:induction false} RelevantLater(m: Manager, rows: Table, nowMs: int, later: int)
    requires nowMs <= later
    ensures Relevant(m, rows, later) == Unexpired(Relevant(m, rows, nowMs), later)
  {
    if rows != [] {
      RelevantLater(m, rows[1..], nowMs, later);
      TailOf(View(m, rows[0]), Relevant(m, rows[1..], nowMs));
      SkipNothing(Relevant(m, rows[1..], nowMs));
      SkipNothing(Relevant(m, rows[1..], later));
    }
  }

  lemma {:induction false} ListRelevant(m: Manager, rows: Table, u: User, nowMs: int)
    ensures ListRows(rows, u, nowMs) == ListViews(Relevant(m, rows, nowMs), u, nowMs)
  {
    if rows != [] {
      ListRelevant(m, rows[1..], u, nowMs);
      TailOf(View(m, rows[0]), Relevant(m, rows[1..], nowMs));
      SkipNothing(Relevant(m, rows[1..], nowMs));
      SkipNothing(ListRows(rows[1..], u, nowMs));
    }
  }

  // ---- one rewrap iteration, and one restart, as the server's callers see it ----

  lemma {:induction false} RelevantSetEmbedding(m: Manager, rows: Table, nowMs: int, kid: Kid, e: Embedded)
    requires forall row :: row in rows && row.keyId == kid ==>
               Expired(row.expiresAt, nowMs) || View(m, Rewrapped(row, e)) == View(m, row)
    ensures Relevant(m, SetEmbedding(rows, kid, e), nowMs) == Relevant(m, rows, nowMs)
  {
    if rows != [] {
      assert rows == [rows[0]] + rows[1..];
      RelevantSetEmbedding(m, rows[1..], nowMs, kid, e);
      var row' := if rows[0].keyId == kid then Rewrapped(rows[0], e) else rows[0];
      TailOf(row', SetEmbedding(rows[1..], kid, e));
      assert rows[0] in rows;
    }
  }

  /** The server knows the KEK that the row is under before the iteration exactly if it knows the new one. */
  predicate Neutral(s: State, i: nat)
    requires HasNext(s, i)
  {
    var r, now := s.rewraps[i], Find(s.rows, NextRow(s, i).keyId);
    now.Some? && ExtractRow(r.kek, NextRow(s, i)).Ok? ==>
      (now.value.embeddingKeyId in s.kek.byId <==> r.kek.active.kid in s.kek.byId)
  }

  /** A rewrap iteration changes what the server can read of the rewrapped row exactly when it is not
      neutral. */
  lemma RewrapSeenIff(s: State, i: nat, nonce: nat)
    requires Inv(s) && HasNext(s, i) && HasKey(s.rows, NextRow(s, i).keyId)
    ensures var kid := NextRow(s, i).keyId;
            var rows := RewrapIteration(s, s.rewraps[i], nonce).0;
            Neutral(s, i) <==> Find(rows, kid).Some?
                               && View(s.kek, Find(rows, kid).value) == View(s.kek, Find(s.rows, kid).value)
  {
    var r, from := s.rewraps[i], NextRow(s, i);
    assert RewrapOk(s.born, r) && RowOk(s.born, from);
    RowSecret(s.born, from, r.kek);
    if ExtractRow(r.kek, from).Ok? {
      var row := Find(s.rows, from.keyId).value;
      var e := Embed(r.kek, s.born[from.keyId].secret, RewrapMeta(from, NowSeconds(s)), nonce);
      assert RowOk(s.born, row);
      RewrappedRowOk(s.born, row, from, r.kek, NowSeconds(s), nonce);
      FindAfter(s.rows, from.keyId, from.keyId, map[], e);
      RowSecret(s.born, row, s.kek);
      RowSecret(s.born, Rewrapped(row, e), s.kek);
    }
  }

  lemma RewrapUnseen(s: State, i: nat, nonce: nat)
    requires Inv(s) && HasNext(s, i) && (Neutral(s, i) || Expired(NextRow(s, i).expiresAt, NowMs(s)))
    ensures Relevant(s.kek, RewrapIteration(s, s.rewraps[i], nonce).0, NowMs(s)) == Relevant(s.kek, s.rows, NowMs(s))
  {
    var r, from := s.rewraps[i], NextRow(s, i);
    assert RewrapOk(s.born, r) && RowOk(s.born, from);
    RowSecret(s.born, from, r.kek);
    if ExtractRow(r.kek, from).Ok? {
      var e := Embed(r.kek, s.born[from.keyId].secret, RewrapMeta(from, NowSeconds(s)), nonce);
      forall row | row in s.rows && row.keyId == from.keyId
        ensures Expired(row.expiresAt, NowMs(s)) || View(s.kek, Rewrapped(row, e)) == View(s.kek, row)
      {
        assert RowOk(s.born, row);
        FindMember(s.rows, row);
        RewrapSeenIff(s, i, nonce);
        FindAfter(s.rows, from.keyId, from.keyId, map[], e);
      }
      RelevantSetEmbedding(s.kek, s.rows, NowMs(s), from.keyId, e);
    }
  }

  /** Every key in force is under a KEK that the server knows before the restart exactly if it knows it
      afterwards. */
  ghost predicate NeutralRestart(s: State, m: Manager) {
    forall row :: row in s.rows && !Expired(row.expiresAt, NowMs(s)) ==>
      (row.embeddingKeyId in s.kek.byId <==> row.embeddingKeyId in m.byId)
  }

  /** A restart changes what the server can read exactly when it is not neutral. */
  lemma RestartSeenIff(s: State, m: Manager)
    requires Inv(s) && ManagerOk(m)
    ensures NeutralRestart(s, m) <==> Relevant(m, s.rows, NowMs(s)) == Relevant(s.kek, s.rows, NowMs(s))
  {
    ReadersAgree(s.born, s.rows, s.kek, m, NowMs(s));
  }

  lemma {:induction false} ReadersAgree(born: map<Kid, Born>, rows: Table, m: Manager, m': Manager, nowMs: int)
    requires RowsOk(born, rows) && ManagerOk(m) && ManagerOk(m')
    ensures Relevant(m', rows, nowMs) == Relevant(m, rows, nowMs) <==>
            forall row :: row in rows && !Expired(row.expiresAt, nowMs) ==>
              (row.embeddingKeyId in m.byId <==> row.embeddingKeyId in m'.byId)
  {
    if rows != [] {
      assert rows == [rows[0]] + rows[1..] && rows[0] in rows;
      ReadersAgree(born, rows[1..], m, m', nowMs);
      assert RowOk(born, rows[0]);
      RowSecret(born, rows[0], m);
      RowSecret(born, rows[0], m');
      TailOf(View(m, rows[0]), Relevant(m, rows[1..], nowMs));
      TailOf(View(m', rows[0]), Relevant(m', rows[1..], nowMs));
      SkipNothing(Relevant(m, rows[1..], nowMs));
      SkipNothing(Relevant(m', rows[1..], nowMs));
    }
  }

  // ---- one step ----

  /** The steps of a rotation, and those that no caller sees anyway. */
  predicate Backstage(e: Step) {
    e.StartRewrap? || e.NextRewrap? || e.Restart? || e.SweepExpired? || e.ClearCache?
  }

  /** A rewrap of a key in force, and a restart, keep readable what the server could read and add nothing. */
  ghost predicate KeepsReadable(s: State, e: Step) {
    && (e.NextRewrap? && HasNext(s, e.proc) ==> Neutral(s, e.proc) || Expired(NextRow(s, e.proc).expiresAt, NowMs(s)))
    && (e.Restart? ==> NeutralRestart(s, e.manager))
  }

  lemma BackstageStep(p: Policy, cc: CacheConfig, s: State, e: Step)
    requires Inv(s) && StepOk(s, e) && KeepsReadable(s, e) && Backstage(e)
    ensures AbsOf(Next(p, cc, s, e).0) == AbsOf(s)
  {
    match e
    case SweepExpired(grace) => { RelevantSweep(s.kek, s.rows, s.clock, grace); }
    case NextRewrap(i, nonce) => { if HasNext(s, i) { RewrapUnseen(s, i, nonce); } }
    case Restart(m) => { RestartSeenIff(s, m); }
    case _ =>
  }

  lemma KeyOperationRefines(p: Policy, cc: CacheConfig, s: State, u: User, r: Request, o: Oracle)
    requires Inv(s) && OnKey(r)
    ensures AbsOf(KeyOperation(p, cc, s, u, r, o).0) == AbsKeyOperation(p, AbsOf(s), u, r, o).0
    ensures Seen(KeyOperation(p, cc, s, u, r, o).1) == Seen(AbsKeyOperation(p, AbsOf(s), u, r, o).1)
  {
    OperationRows(p, cc, s, u, r, o);
    if Target(p, r).Ok? {
      var kid := Target(p, r).value;
      FindRelevant(s.kek, s.rows, NowMs(s), kid);
      RelevantDelete(s.kek, s.rows, NowMs(s), kid);
      if Find(s.rows, kid).Some? {
        var row := Find(s.rows, kid).value;
        KeyAnswer(p, cc, s, u, r, o, row);
        RevokeSucceeds(p, r, View(s.kek, row), NowMs(s), o.nonce);
      }
    }
  }

  lemma GenerateRefines(s: State, u: User, extra: bool, g: GenParams, o: Oracle)
    requires Inv(s) && o.kid !in s.born
    ensures AbsOf(Generate(s, u, extra, g, o).0) == AbsGenerate(AbsOf(s), u, extra, g, o).0
    ensures Generate(s, u, extra, g, o).1 == AbsGenerate(AbsOf(s), u, extra, g, o).1
  {
    Unborn(s, o.kid);
    if GenerateProblem(u, extra, g, NowSeconds(s)).None? && NewAcl(u, g.acl, s.users).Ok? {
      var acl := NewAcl(u, g.acl, s.users).value;
      var row := NewRow(s.kek, g.spec.value, acl, TsValue(g.nbf), TsValue(g.exp), NowSeconds(s), o);
      RelevantAppend(s.kek, s.rows, NowMs(s), row);
      NewRowView(s, u, extra, g, o, acl);
    }
  }

  /** A new row is never expired at birth, and reads back as what was generated. */
  lemma NewRowView(s: State, u: User, extra: bool, g: GenParams, o: Oracle, acl: Grants)
    requires ManagerOk(s.kek) && GenerateProblem(u, extra, g, NowSeconds(s)).None?
    ensures var row := NewRow(s.kek, g.spec.value, acl, TsValue(g.nbf), TsValue(g.exp), NowSeconds(s), o);
            View(s.kek, row) == NewView(g.spec.value, acl, g, o) && !Expired(row.expiresAt, NowMs(s))
  {
  }

  lemma ListRefines(s: State, u: User)
    requires UserOk(u)
    ensures ListRows(ByAclUser(s.rows, u.userId), u, NowMs(s)) == ListViews(AbsOf(s).views, u, NowMs(s))
  {
    PrefilterLosesNothing(s.rows, u, NowMs(s));
    ListRelevant(s.kek, s.rows, u, NowMs(s));
  }

  /** Every other step does the same on the vault and on the abstract machine, with the same response. */
  lemma StageStep(p: Policy, cc: CacheConfig, s: State, e: Step)
    requires Inv(s) && StepOk(s, e) && !Backstage(e)
    ensures AbsOf(Next(p, cc, s, e).0) == AbsNext(p, AbsOf(s), e).0
    ensures e.Api? ==> ButUptime(Next(p, cc, s, e).1.value) == ButUptime(AbsNext(p, AbsOf(s), e).1.value)
  {
    match e
    case Tick(to) => { if to >= s.clock { RelevantLater(s.kek, s.rows, NowMs(s), to / 1000); } }
    case UpdateAcl(kid, acl) => {
      if Validated(acl).Ok? { RelevantSetAcl(s.kek, s.rows, NowMs(s), kid, Validated(acl).value); }
    }
    case Api(u, r, o) => {
      if OnKey(r) { KeyOperationRefines(p, cc, s, u, r, o); }
      else if r.GenerateKey? { GenerateRefines(s, u, r.extra, r.gen, o); }
      else if r.ListKeys? { ListRefines(s, u); }
    }
    case _ =>
  }

  // ---- runs ----

  ghost predicate SmoothRun(p: Policy, cc: CacheConfig, s: State, es: seq<Step>)
    decreases |es|
  {
    es != [] ==> StepOk(s, es[0]) && KeepsReadable(s, es[0]) && SmoothRun(p, cc, Next(p, cc, s, es[0]).0, es[1..])
  }

  /** All responses, the uptime apart. */
  function Responses(p: Policy, cc: CacheConfig, s: State, es: seq<Step>): seq<Outcome>
    decreases |es|
  {
    if es == [] then []
    else
      var (s', out) := Next(p, cc, s, es[0]);
      (if out.Some? then [ButUptime(out.value)] else []) + Responses(p, cc, s', es[1..])
  }

  function Stage(es: seq<Step>): seq<Step> {
    if es == [] then [] else (if Backstage(es[0]) then [] else [es[0]]) + Stage(es[1..])
  }

  lemma BornSubset(p: Policy, cc: CacheConfig, cc2: CacheConfig, s: State, t: State, e: Step)
    requires Inv(s) && Inv(t) && AbsOf(s) == AbsOf(t) && StepOk(s, e) && t.born.Keys <= s.born.Keys
    ensures Next(p, cc2, t, e).0.born.Keys <= Next(p, cc, s, e).0.born.Keys
  {
    if e.Api? && e.req.GenerateKey? {
      Unborn(s, e.oracle.kid);
    } else {
      BornStands(p, cc, s, e);
      BornStands(p, cc2, t, e);
    }
  }

  lemma StageTogether(p: Policy, cc: CacheConfig, cc2: CacheConfig, s: State, t: State, e: Step)
    requires Inv(s) && Inv(t) && AbsOf(s) == AbsOf(t) && t.born.Keys <= s.born.Keys && StepOk(s, e) && !Backstage(e)
    ensures StepOk(t, e)
    ensures var (s', out) := Next(p, cc, s, e);
            var (t', out2) := Next(p, cc2, t, e);
            && Inv(t') && AbsOf(s') == AbsOf(t') && t'.born.Keys <= s'.born.Keys
            && (out.Some? <==> out2.Some?) && (out.Some? ==> ButUptime(out.value) == ButUptime(out2.value))
  {
    StageStep(p, cc, s, e);
    StageStep(p, cc2, t, e);
    StepKeepsInv(p, cc2, t, e);
    BornSubset(p, cc, cc2, s, t, e);
  }

  lemma {:induction false} SameStage(p: Policy, cc: CacheConfig, cc2: CacheConfig, s: State, t: State, es: seq<Step>)
    requires Inv(s) && Inv(t) && AbsOf(s) == AbsOf(t) && t.born.Keys <= s.born.Keys && SmoothRun(p, cc, s, es)
    ensures Possible(p, cc2, t, Stage(es))
    ensures Responses(p, cc2, t, Stage(es)) == Responses(p, cc, s, es)
    decreases |es|
  {
    if es != [] {
      var e, s' := es[0], Next(p, cc, s, es[0]).0;
      var rest := Stage(es[1..]);
      StepKeepsInv(p, cc, s, e);
      if Backstage(e) {
        BackstageStep(p, cc, s, e);
        SameStage(p, cc, cc2, s', t, es[1..]);
        SkipNothing(rest);
        SkipNothing(Responses(p, cc, s', es[1..]));
      } else {
        StageTogether(p, cc, cc2, s, t, e);
        SameStage(p, cc, cc2, s', Next(p, cc2, t, e).0, es[1..]);
        TailOf(e, rest);
      }
    }
  }

  /** A rotation is invisible: take away from a run all rewraps and all restarts, with their KEKs, and all
      sweeps and cache clears. What is left is a possible run of the same vault, under any cache
      configuration, and gives every caller the same responses but for the uptime, provided that every rewrap
      of a key in force and every restart keeps readable what the server could read (RewrapSeenIff and
      RestartSeenIff: each one that does not changes it). */
  lemma RotationUnseen(p: Policy, cc: CacheConfig, cc2: CacheConfig, s: State, es: seq<Step>)
    requires Inv(s) && SmoothRun(p, cc, s, es)
    ensures Possible(p, cc2, s, Stage(es))
    ensures Responses(p, cc2, s, Stage(es)) == Responses(p, cc, s, es)
  {
    SameStage(p, cc, cc2, s, s, es);
  }

  // ---- the documented rotation ----

  /** The server has every KEK that a key is under. */
  ghost predicate AllKnown(s: State) {
    forall k :: HasKey(s.rows, k) ==> Find(s.rows, k).value.embeddingKeyId in s.kek.byId
  }

  /** Rewraps wrap into KEKs that the server has, and it is restarted only with the KEKs of all keys: first
      with the new one added, and without the old one once nothing is under it. */
  ghost predicate RunbookRun(p: Policy, cc: CacheConfig, s: State, es: seq<Step>)
    decreases |es|
  {
    es != [] ==>
      var s' := Next(p, cc, s, es[0]).0;
      && StepOk(s, es[0]) && WrapsInto(s, es[0], s.kek.byId.Keys) && (es[0].Restart? ==> AllKnown(s'))
      && RunbookRun(p, cc, s', es[1..])
  }

  lemma SameKek(p: Policy, cc: CacheConfig, s: State, e: Step)
    requires !e.Restart?
    ensures Next(p, cc, s, e).0.kek == s.kek
  {
    if e.Api? && OnKey(e.req) { OperationRows(p, cc, s, e.user, e.req, e.oracle); }
  }

  lemma KnownStep(p: Policy, cc: CacheConfig, s: State, e: Step)
    requires Inv(s) && StepOk(s, e) && AllKnown(s) && !e.Restart? && WrapsInto(s, e, s.kek.byId.Keys)
    ensures AllKnown(Next(p, cc, s, e).0)
  {
    var s' := Next(p, cc, s, e).0;
    StepKeepsInv(p, cc, s, e);
    SameKek(p, cc, s, e);
    forall k | HasKey(s'.rows, k) ensures Find(s'.rows, k).value.embeddingKeyId in s.kek.byId {
      assert RowOk(s'.born, Find(s'.rows, k).value);
      if k in s.born { RowStep(p, cc, s, e, k); } else { NewKeyKnown(p, cc, s, e, k); }
    }
  }

  lemma NewKeyKnown(p: Policy, cc: CacheConfig, s: State, e: Step, k: Kid)
    requires Inv(s) && StepOk(s, e) && k !in s.born && k in Next(p, cc, s, e).0.born
    requires HasKey(Next(p, cc, s, e).0.rows, k)
    ensures Find(Next(p, cc, s, e).0.rows, k).value.embeddingKeyId in s.kek.byId
  {
    Unborn(s, k);
    if e.Api? && e.req.GenerateKey? {
      GenerateRowStep(s, e.user, e.req.extra, e.req.gen, e.oracle, k);
    } else {
      BornStands(p, cc, s, e);
    }
  }

  lemma KnownReadable(p: Policy, cc: CacheConfig, s: State, e: Step)
    requires Inv(s) && AllKnown(s) && StepOk(s, e) && WrapsInto(s, e, s.kek.byId.Keys)
    requires e.Restart? ==> AllKnown(Next(p, cc, s, e).0)
    ensures KeepsReadable(s, e)
  {
    if e.Restart? {
      forall row | row in s.rows ensures row.embeddingKeyId in s.kek.byId && row.embeddingKeyId in e.manager.byId {
        FindMember(s.rows, row);
        assert HasKey(Next(p, cc, s, e).0.rows, row.keyId);
      }
    }
  }

  lemma {:induction false} RunbookSmooth(p: Policy, cc: CacheConfig, s: State, es: seq<Step>)
    requires Inv(s) && AllKnown(s) && RunbookRun(p, cc, s, es)
    ensures SmoothRun(p, cc, s, es)
    decreases |es|
  {
    if es != [] {
      KnownReadable(p, cc, s, es[0]);
      StepKeepsInv(p, cc, s, es[0]);
      if !es[0].Restart? { KnownStep(p, cc, s, es[0]); }
      RunbookSmooth(p, cc, Next(p, cc, s, es[0]).0, es[1..]);
    }
  }

  /** The documented rotation is invisible, from its first restart to the one that drops the old KEK. */
  lemma RunbookUnseen(p: Policy, cc: CacheConfig, cc2: CacheConfig, s: State, es: seq<Step>)
    requires Inv(s) && AllKnown(s) && RunbookRun(p, cc, s, es)
    ensures Possible(p, cc2, s, Stage(es)) && Responses(p, cc2, s, Stage(es)) == Responses(p, cc, s, es)
  {
    RunbookSmooth(p, cc, s, es);
    RotationUnseen(p, cc, cc2, s, es);
  }
}
