/** Runs of concurrent unwraps: each call is split at its await, and revokes, clears and the clock
    interleave freely. */
module UnwrapRuns {
  import opened Acl
  import opened Kek
  import opened KeyTable
  import opened UnwrapCache

  datatype Config = Config(kek: Manager, capacity: nat, ttl: int)

  /** A call waiting for its extract, with the time it read before waiting. */
  datatype Pending = Pending(row: Row, start: int)

  /** An extract that was begun: for which key, on which ciphertext, when. */
  datatype Started = Started(kid: Kid, jwe: Jwe, at: int)

  datatype State = State(cache: Cache, clock: int, pending: map<nat, Pending>, started: set<Started>)

  datatype Event = Call(id: nat, row: Row) | Resolve(id: nat) | Forget(kid: Kid) | Clear | Tick(to: int)

  datatype Output = Quiet | Returned(row: Row, result: Result<Jwk, ExtractError>, hit: bool)

  function Start(s: State, id: nat, row: Row, c: Cache): State {
    s.(cache := c, pending := s.pending[id := Pending(row, s.clock)],
       started := s.started + {Started(row.keyId, row.embeddedKey, s.clock)})
  }

  function Step(cfg: Config, s: State, e: Event): (State, Output) {
    match e
    case Call(id, row) =>
      if id in s.pending then (s, Quiet)
      else if cfg.capacity < 1 then (Start(s, id, row, s.cache), Quiet)
      else
        var (c, hit) := Begin(s.cache, row, s.clock);
        if hit.Some? then (s.(cache := c), Returned(row, Ok(hit.value), true))
        else (Start(s, id, row, c), Quiet)
    case Resolve(id) =>
      if id !in s.pending then (s, Quiet)
      else
        var p := s.pending[id];
        var r := ExtractRow(cfg.kek, p.row);
        var c := if r.Ok? && cfg.capacity >= 1
                 then Finish(s.cache, p.row, r.value, p.start, cfg.ttl, cfg.capacity) else s.cache;
        (s.(cache := c, pending := s.pending - {id}), Returned(p.row, r, false))
    case Forget(kid) => (s.(cache := Remove(s.cache, kid)), Quiet)
    case Clear => (s.(cache := []), Quiet)
    case Tick(to) => (if to >= s.clock then s.(clock := to) else s, Quiet)
  }

  const INITIAL := State([], 0, map[], {})

  function Run(cfg: Config, s: State, es: seq<Event>): (State, seq<Output>)
    decreases |es|
  {
    if es == [] then (s, [])
    else
      var (s1, o) := Step(cfg, s, es[0]);
      var (s2, os) := Run(cfg, s1, es[1..]);
      (s2, [o] + os)
  }

  /** Callers pass rows that they read from the table. */
  predicate EventOk(e: Event) { e.Call? ==> WellEmbedded(e.row) }

  predicate EventsOk(es: seq<Event>) { forall i :: 0 <= i < |es| ==> EventOk(es[i]) }

  ghost predicate EntryAged(cfg: Config, s: State, e: Entry) {
    Started(e.keyId, e.embHash.of, e.expires - cfg.ttl) in s.started && e.expires - cfg.ttl <= s.clock
  }

  ghost predicate PendingOk(s: State) {
    forall id :: id in s.pending ==>
      WellEmbedded(s.pending[id].row) && s.pending[id].start <= s.clock
      && Started(s.pending[id].row.keyId, s.pending[id].row.embeddedKey, s.pending[id].start) in s.started
  }

  ghost predicate Inv(cfg: Config, s: State) {
    && CacheOk(cfg.kek, s.cache) && |s.cache| <= cfg.capacity
    && (forall e :: e in s.cache ==> EntryAged(cfg, s, e))
    && PendingOk(s)
  }

  lemma {:induction false} PutPresent(c: Cache, e: Entry)
    requires Get(c, e.keyId).Some?
    ensures |Put(c, e)| == |c| && Get(Put(c, e), e.keyId).Some?
  {
    if c[0].keyId != e.keyId {
      PutPresent(c[1..], e);
      assert Put(c, e)[1..] == Put(c[1..], e);
    }
  }

  lemma {:induction false} GetFromMember(c: Cache, e: Entry)
    requires e in c
    ensures Get(c, e.keyId).Some?
  {
  }

  /** Storing never exceeds the capacity and keeps the key just stored. */
  lemma FinishBounds(c: Cache, row: Row, jwk: Jwk, start: int, ttl: int, capacity: nat)
    requires capacity >= 1 && |c| <= capacity
    ensures var c' := Finish(c, row, jwk, start, ttl, capacity);
            |c'| <= capacity && Get(c', row.keyId).Some?
            && forall x :: x in c' ==> x in c || x == Entry(row.keyId, Sha256(row.embeddedKey), jwk, start + ttl)
  {
    var e := Entry(row.keyId, Sha256(row.embeddedKey), jwk, start + ttl);
    if Get(c, row.keyId).Some? {
      PutPresent(c, e);
    } else {
      PutNew(c, e);
      var c' := Evict(c + [e], capacity);
      assert c'[|c'| - 1] == e;
      GetFromMember(c', e);
    }
  }

  /** A hit is served from an extract of this very ciphertext begun less than one time to live ago. */
  ghost predicate Fresh(cfg: Config, s: State, row: Row) {
    exists at :: Started(row.keyId, row.embeddedKey, at) in s.started && at <= s.clock < at + cfg.ttl
  }

  ghost predicate OutputOk(cfg: Config, s: State, s': State, o: Output) {
    o.Returned? ==>
      && o.result == ExtractRow(cfg.kek, o.row)
      && (o.result.Ok? && cfg.capacity >= 1 ==> Get(s'.cache, o.row.keyId).Some?)
      && (o.hit ==> Fresh(cfg, s, o.row))
  }

  lemma CallStep(cfg: Config, s: State, id: nat, row: Row)
    requires Inv(cfg, s) && WellEmbedded(row)
    ensures var (s', o) := Step(cfg, s, Call(id, row)); Inv(cfg, s') && OutputOk(cfg, s, s', o)
  {
    BeginAgrees(cfg.kek, s.cache, row, s.clock);
    var (c, hit) := Begin(s.cache, row, s.clock);
    assert forall e :: e in c ==> e in s.cache;
    if hit.Some? {
      var e := Get(s.cache, row.keyId).value;
      assert EntryAged(cfg, s, e);
      assert c[|c| - 1] == e;
      GetFromMember(c, e);
      RemoveShrinks(s.cache, row.keyId);
    }
  }

  lemma {:induction false} RemoveShrinks(c: Cache, kid: Kid)
    requires Get(c, kid).Some?
    ensures |Remove(c, kid)| < |c|
  {
    if c[0].keyId != kid { RemoveShrinks(c[1..], kid); }
  }

  lemma StoreInv(cfg: Config, s: State, p: Pending, jwk: Jwk)
    requires Inv(cfg, s) && cfg.capacity >= 1 && ExtractRow(cfg.kek, p.row) == Ok(jwk) && WellEmbedded(p.row)
    requires Started(p.row.keyId, p.row.embeddedKey, p.start) in s.started && p.start <= s.clock
    ensures var c := Finish(s.cache, p.row, jwk, p.start, cfg.ttl, cfg.capacity);
            Inv(cfg, s.(cache := c)) && Get(c, p.row.keyId).Some?
  {
    var c := Finish(s.cache, p.row, jwk, p.start, cfg.ttl, cfg.capacity);
    FinishKeepsOk(cfg.kek, s.cache, p.row, jwk, p.start, cfg.ttl, cfg.capacity);
    FinishBounds(s.cache, p.row, jwk, p.start, cfg.ttl, cfg.capacity);
    var s' := s.(cache := c);
    forall e | e in c ensures EntryAged(cfg, s', e) {
      if e in s.cache { assert EntryAged(cfg, s, e); }
    }
  }

  lemma Settle(cfg: Config, s: State, id: nat)
    requires Inv(cfg, s)
    ensures Inv(cfg, s.(pending := s.pending - {id}))
  {
    var s' := s.(pending := s.pending - {id});
    forall e | e in s'.cache ensures EntryAged(cfg, s', e) { assert EntryAged(cfg, s, e); }
  }

  lemma ResolveStep(cfg: Config, s: State, id: nat)
    requires Inv(cfg, s)
    ensures var (s', o) := Step(cfg, s, Resolve(id)); Inv(cfg, s') && OutputOk(cfg, s, s', o)
  {
    if id in s.pending {
      var p := s.pending[id];
      var r := ExtractRow(cfg.kek, p.row);
      if r.Ok? && cfg.capacity >= 1 {
        StoreInv(cfg, s, p, r.value);
        Settle(cfg, s.(cache := Finish(s.cache, p.row, r.value, p.start, cfg.ttl, cfg.capacity)), id);
      } else {
        Settle(cfg, s, id);
      }
    }
  }

  lemma StepInv(cfg: Config, s: State, e: Event)
    requires Inv(cfg, s) && EventOk(e)
    ensures var (s', o) := Step(cfg, s, e); Inv(cfg, s') && OutputOk(cfg, s, s', o)
  {
    match e
    case Call(id, row) => CallStep(cfg, s, id, row);
    case Resolve(id) => ResolveStep(cfg, s, id);
    case Forget(kid) =>
    case Clear =>
    case Tick(to) =>
  }

  /** In every interleaving each unwrap returns or fails exactly as a direct extract of its row, whatever
      the cache did in between. */
  lemma {:induction false} RunTransparent(cfg: Config, s: State, es: seq<Event>)
    requires Inv(cfg, s) && EventsOk(es)
    ensures var (s', os) := Run(cfg, s, es);
            Inv(cfg, s') && forall o :: o in os && o.Returned? ==> o.result == ExtractRow(cfg.kek, o.row)
    decreases |es|
  {
    if es != [] {
      assert EventOk(es[0]) && forall i :: 0 <= i < |es| - 1 ==> es[1..][i] == es[i + 1];
      StepInv(cfg, s, es[0]);
      RunTransparent(cfg, Step(cfg, s, es[0]).0, es[1..]);
    }
  }

  /** At every await point of every run the cache is within its capacity; the next step leaves the key of
      a finished unwrap in the cache, and serves no entry older than one time to live, because hits
      never extend an expiry. */
  lemma ReachableBounds(cfg: Config, es: seq<Event>, e: Event)
    requires EventsOk(es) && EventOk(e)
    ensures var s := Run(cfg, INITIAL, es).0; var (s', o) := Step(cfg, s, e);
            |s.cache| <= cfg.capacity && |s'.cache| <= cfg.capacity && OutputOk(cfg, s, s', o)
  {
    RunTransparent(cfg, INITIAL, es);
    StepInv(cfg, Run(cfg, INITIAL, es).0, e);
  }
}
