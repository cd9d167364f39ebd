/** Concurrent unwraps on the running vault: each call reads its row from the table, unwraps it later, and is
    split at the await, while requests, rewraps, ACL edits, sweeps, clears and restarts go on. */
module VaultUnwraps {
  import opened Text
  import opened Acl
  import opened Kek
  import opened KeyTable
  import opened UnwrapCache
  import opened Handlers
  import opened Vault
  import opened VaultInvariant

  datatype Waiting = Waiting(row: Row, start: int)

  /** `held`: rows that callers have read; `waiting`: calls at their await. */
  datatype Server = Server(vault: State, held: map<nat, Row>, waiting: map<nat, Waiting>)

  datatype Event = Other(step: Step) | Load(id: nat, kid: Kid) | Call(id: nat) | Resolve(id: nat)

  /** What unwrap gave for a row, and the KEKs it had. */
  datatype Answer = Answer(row: Row, kek: Manager, result: Result<Jwk, ExtractError>)

  function WithCache(s: Server, c: Cache): Server { s.(vault := s.vault.(cache := c)) }

  /** unwrap of a held row up to its await, or to its return on a hit. */
  function Called(cc: CacheConfig, s: Server, id: nat): (Server, Option<Answer>) {
    if id !in s.held || id in s.waiting then (s, None)
    else
      var v, row := s.vault, s.held[id];
      var wait := s.waiting[id := Waiting(row, NowMs(v))];
      if cc.capacity < 1 then (s.(waiting := wait), None)
      else
        var (c, hit) := Begin(v.cache, row, NowMs(v));
        if hit.Some? then (WithCache(s, c), Some(Answer(row, v.kek, Ok(hit.value))))
        else (WithCache(s, c).(waiting := wait), None)
  }

  /** The rest of unwrap, after its await. */
  function Resolved(cc: CacheConfig, s: Server, id: nat): (Server, Option<Answer>) {
    if id !in s.waiting then (s, None)
    else
      var v, w := s.vault, s.waiting[id];
      var r := ExtractRow(v.kek, w.row);
      var c := if r.Ok? && cc.capacity >= 1 then Finish(v.cache, w.row, r.value, w.start, cc.ttl, cc.capacity)
               else v.cache;
      (WithCache(s, c).(waiting := s.waiting - {id}), Some(Answer(w.row, v.kek, r)))
  }

  function Turn(p: Policy, cc: CacheConfig, s: Server, e: Event): (Server, Option<Answer>) {
    var v := s.vault;
    match e
    case Other(Restart(m)) => (Server(Next(p, cc, v, Restart(m)).0, map[], map[]), None)
    case Other(step) => (s.(vault := Next(p, cc, v, step).0), None)
    case Load(id, kid) =>
      (if Find(v.rows, kid).Some? then s.(held := s.held[id := Find(v.rows, kid).value]) else s, None)
    case Call(id) => Called(cc, s, id)
    case Resolve(id) => Resolved(cc, s, id)
  }

  ghost predicate TurnOk(s: Server, e: Event) { e.Other? ==> StepOk(s.vault, e.step) }

  ghost predicate RunsOk(p: Policy, cc: CacheConfig, s: Server, es: seq<Event>)
    decreases |es|
  {
    es != [] ==> TurnOk(s, es[0]) && RunsOk(p, cc, Turn(p, cc, s, es[0]).0, es[1..])
  }

  function Run(p: Policy, cc: CacheConfig, s: Server, es: seq<Event>): (Server, seq<Answer>)
    decreases |es|
  {
    if es == [] then (s, [])
    else
      var (s1, a) := Turn(p, cc, s, es[0]);
      var (s2, rest) := Run(p, cc, s1, es[1..]);
      (s2, (if a.Some? then [a.value] else []) + rest)
  }

  /** Every row that a caller holds was a good row of the table when it was read, and still counts as one. */
  ghost predicate Good(s: Server) {
    && Inv(s.vault)
    && (forall id :: id in s.held ==> RowOk(s.vault.born, s.held[id]))
    && (forall id :: id in s.waiting ==> RowOk(s.vault.born, s.waiting[id].row))
  }

  ghost predicate Truthful(s: Server, a: Answer) {
    && RowOk(s.vault.born, a.row) && a.result == ExtractRow(a.kek, a.row)
    && a.result == (if a.row.embeddingKeyId in a.kek.byId then Ok(s.vault.born[a.row.keyId].secret)
                    else Err(KekUnavailable))
  }

  lemma OtherTurn(p: Policy, cc: CacheConfig, s: Server, step: Step)
    requires Good(s) && StepOk(s.vault, step)
    ensures var s' := Turn(p, cc, s, Other(step)).0; Good(s') && Grows(s.vault.born, s'.vault.born)
  {
    var v' := Next(p, cc, s.vault, step).0;
    StepKeepsInv(p, cc, s.vault, step);
    forall id | id in s.held ensures RowOk(v'.born, s.held[id]) { assert RowOk(s.vault.born, s.held[id]); }
    forall id | id in s.waiting ensures RowOk(v'.born, s.waiting[id].row) {
      assert RowOk(s.vault.born, s.waiting[id].row);
    }
    TurnOther(p, cc, s, step);
  }

  lemma TurnOther(p: Policy, cc: CacheConfig, s: Server, step: Step)
    ensures var s' := Turn(p, cc, s, Other(step)).0;
            && s'.vault == Next(p, cc, s.vault, step).0
            && (s'.held == s.held || s'.held == map[]) && (s'.waiting == s.waiting || s'.waiting == map[])
  {
  }

  /** A change of the cache to another truthful one. */
  lemma CacheTurn(s: Server, c: Cache)
    requires Good(s) && CacheOk(s.vault.kek, c)
    ensures Good(WithCache(s, c))
  {
  }

  lemma WaitTurn(s: Server, id: nat, row: Row, start: int)
    requires Good(s) && RowOk(s.vault.born, row)
    ensures Good(s.(waiting := s.waiting[id := Waiting(row, start)]))
  {
  }

  lemma HitTruthful(s: Server, c: Cache, row: Row, jwk: Jwk)
    requires Good(s) && RowOk(s.vault.born, row) && ExtractRow(s.vault.kek, row) == Ok(jwk)
    ensures Truthful(WithCache(s, c), Answer(row, s.vault.kek, Ok(jwk)))
  {
    RowSecret(s.vault.born, row, s.vault.kek);
  }

  lemma CallTurn(cc: CacheConfig, s: Server, id: nat)
    requires Good(s)
    ensures var (s', a) := Called(cc, s, id);
            Good(s') && s'.vault.born == s.vault.born && (a.Some? ==> Truthful(s', a.value))
  {
    if id in s.held && id !in s.waiting {
      var row, now := s.held[id], NowMs(s.vault);
      assert RowOk(s.vault.born, row);
      if cc.capacity < 1 {
        WaitTurn(s, id, row, now);
      } else {
        var (c, hit) := Begin(s.vault.cache, row, now);
        BeginAgrees(s.vault.kek, s.vault.cache, row, now);
        CacheTurn(s, c);
        if hit.Some? { HitTruthful(s, c, row, hit.value); } else { WaitTurn(WithCache(s, c), id, row, now); }
      }
    }
  }

  lemma ResolveTurn(cc: CacheConfig, s: Server, id: nat)
    requires Good(s)
    ensures var (s', a) := Resolved(cc, s, id);
            Good(s') && s'.vault.born == s.vault.born && (a.Some? ==> Truthful(s', a.value))
  {
    if id in s.waiting {
      var w := s.waiting[id];
      var r := ExtractRow(s.vault.kek, w.row);
      RowSecret(s.vault.born, w.row, s.vault.kek);
      if r.Ok? { FinishKeepsOk(s.vault.kek, s.vault.cache, w.row, r.value, w.start, cc.ttl, cc.capacity); }
    }
  }

  lemma TurnGood(p: Policy, cc: CacheConfig, s: Server, e: Event)
    requires Good(s) && TurnOk(s, e)
    ensures var (s', a) := Turn(p, cc, s, e);
            Good(s') && Grows(s.vault.born, s'.vault.born) && (a.Some? ==> Truthful(s', a.value))
  {
    match e
    case Other(step) => { OtherTurn(p, cc, s, step); }
    case Load(id, kid) => {
      if Find(s.vault.rows, kid).Some? { assert RowOk(s.vault.born, Find(s.vault.rows, kid).value); }
    }
    case Call(id) => { CallTurn(cc, s, id); }
    case Resolve(id) => { ResolveTurn(cc, s, id); }
  }

  /** Cache transparency on the whole vault. In every interleaving, with nothing assumed of the rows but that
      they were read from the table at some time before, each unwrap returns or fails exactly as a direct
      extract of its row, and so gives the secret generated for the key or reports the KEK missing: also for
      rows that were rewrapped, edited, revoked or swept meanwhile. */
  lemma {:induction false} AlwaysTransparent(p: Policy, cc: CacheConfig, s: Server, es: seq<Event>)
    requires Good(s) && RunsOk(p, cc, s, es)
    ensures var (s', answers) := Run(p, cc, s, es);
            Good(s') && Grows(s.vault.born, s'.vault.born) && forall a :: a in answers ==> Truthful(s', a)
    decreases |es|
  {
    if es != [] {
      var (s1, a) := Turn(p, cc, s, es[0]);
      var (s2, rest) := Run(p, cc, s1, es[1..]);
      TurnGood(p, cc, s, es[0]);
      AlwaysTransparent(p, cc, s1, es[1..]);
      if a.Some? { TruthLasts(s1, s2, a.value); }
    }
  }

  lemma TruthLasts(s: Server, s': Server, a: Answer)
    requires Truthful(s, a) && Grows(s.vault.born, s'.vault.born)
    ensures Truthful(s', a)
  {
  }

  lemma CallThenResolve(cc: CacheConfig, s: Server, id: nat)
    requires id in s.held && id !in s.waiting
    ensures var (s2, a2) := Called(cc, s, id);
            var (s3, a3) := Resolved(cc, s2, id);
            var (cache, result) :=
              Unwrap(s.vault.kek, s.vault.cache, s.held[id], NowMs(s.vault), cc.ttl, cc.capacity);
            && (a2.Some? <==> a3.None?)
            && (if a2.Some? then a2 else a3) == Some(Answer(s.held[id], s.vault.kek, result))
            && s3 == WithCache(s, cache)
  {
    var s2 := Called(cc, s, id).0;
    if id in s2.waiting { assert s2.waiting - {id} == s.waiting; }
  }

  /** A split call with nothing in between answers once, for the table's row of the key, and leaves the cache
      that the whole unwrap leaves. */
  lemma Undisturbed(p: Policy, cc: CacheConfig, s: Server, id: nat, kid: Kid)
    requires id !in s.waiting && HasKey(s.vault.rows, kid)
    ensures var row := Find(s.vault.rows, kid).value;
            var s1 := Turn(p, cc, s, Load(id, kid)).0;
            var (s2, a2) := Turn(p, cc, s1, Call(id));
            var (s3, a3) := Turn(p, cc, s2, Resolve(id));
            var (cache, result) := Unwrap(s.vault.kek, s.vault.cache, row, NowMs(s.vault), cc.ttl, cc.capacity);
            && (a2.Some? <==> a3.None?)
            && (if a2.Some? then a2 else a3) == Some(Answer(row, s.vault.kek, result))
            && s3.vault == s.vault.(cache := cache)
  {
    CallThenResolve(cc, Turn(p, cc, s, Load(id, kid)).0, id);
  }

  /** A vault with no call under way. */
  lemma StartGood(v: State)
    requires Inv(v)
    ensures Good(Server(v, map[], map[]))
  {
  }
}
