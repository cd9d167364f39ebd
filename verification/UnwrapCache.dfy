/** The unwrap cache of keystore.js: a JavaScript Map kept in insertion order, bounded, with a time to live. */
module UnwrapCache {
  import opened Text
  import opened Acl
  import opened Kek
  import opened KeyTable

  /** sha256, taken to be injective. */
  datatype Digest = Sha256(of: Jwe)

  datatype Entry = Entry(keyId: Kid, embHash: Digest, jwk: Jwk, expires: int)

  type Cache = seq<Entry>

  function Get(c: Cache, kid: Kid): (r: Option<Entry>)
    ensures r.Some? ==> r.value in c && r.value.keyId == kid
    ensures r.None? ==> forall e :: e in c ==> e.keyId != kid
  {
    if c == [] then None
    else if c[0].keyId == kid then Some(c[0])
    else
      assert c == [c[0]] + c[1..];
      Get(c[1..], kid)
  }

  function Remove(c: Cache, kid: Kid): (r: Cache)
    ensures |r| <= |c|
    ensures forall e :: e in r <==> e in c && e.keyId != kid
  {
    if c == [] then []
    else
      assert c == [c[0]] + c[1..];
      (if c[0].keyId == kid then [] else [c[0]]) + Remove(c[1..], kid)
  }

  /** Map.set: a present key keeps its position, a new one goes last. */
  function Put(c: Cache, e: Entry): (r: Cache)
    ensures e in r && forall x :: x in r ==> x == e || x in c
    ensures |r| <= |c| + 1
  {
    if c == [] then [e]
    else
      assert c == [c[0]] + c[1..];
      if c[0].keyId == e.keyId then [e] + c[1..] else [c[0]] + Put(c[1..], e)
  }

  /** Drop the oldest entries beyond the capacity. */
  function Evict(c: Cache, capacity: nat): Cache {
    if |c| <= capacity then c else c[|c| - capacity..]
  }

  /** unwrap up to its await: the key is taken out, and put back last on a hit. */
  function Begin(c: Cache, row: Row, now: int): (Cache, Option<Jwk>) {
    match Get(c, row.keyId)
    case None => (c, None)
    case Some(cached) =>
      if cached.embHash == Sha256(row.embeddedKey) && cached.expires > now
      then (Remove(c, row.keyId) + [cached], Some(cached.jwk))
      else (Remove(c, row.keyId), None)
  }

  /** unwrap after a successful extract; `start` is the time read before the await. */
  function Finish(c: Cache, row: Row, jwk: Jwk, start: int, ttl: int, capacity: nat): Cache {
    Evict(Put(c, Entry(row.keyId, Sha256(row.embeddedKey), jwk, start + ttl)), capacity)
  }

  function ExtractRow(m: Manager, row: Row): Result<Jwk, ExtractError> {
    Extract(m, row.embeddingKeyId, row.embeddedKey, row.keyId)
  }

  /** unwrap with nothing in between. A capacity below one turns the cache off. */
  function Unwrap(m: Manager, c: Cache, row: Row, now: int, ttl: int, capacity: nat)
    : (Cache, Result<Jwk, ExtractError>)
  {
    if capacity < 1 then (c, ExtractRow(m, row))
    else
      var (c', hit) := Begin(c, row, now);
      if hit.Some? then (c', Ok(hit.value))
      else
        match ExtractRow(m, row)
        case Ok(jwk) => (Finish(c', row, jwk, now, ttl, capacity), Ok(jwk))
        case Err(e) => (c', Err(e))
  }

  class KeyStore {
    const kek: Manager
    const cacheMaxEntries: nat
    const cacheTtlMs: int
    var cache: Cache

    /** 1024 entries and five minutes unless told otherwise; the option counts seconds. */
    constructor (kek: Manager, cacheMaxEntries: Option<nat>, cacheTtlSeconds: Option<int>)
      ensures this.kek == kek && cache == []
      ensures this.cacheMaxEntries == if cacheMaxEntries.Some? then cacheMaxEntries.value else 1024
      ensures this.cacheTtlMs == if cacheTtlSeconds.Some? then cacheTtlSeconds.value * 1000 else 300_000
    {
      this.kek := kek;
      this.cacheMaxEntries := if cacheMaxEntries.Some? then cacheMaxEntries.value else 1024;
      this.cacheTtlMs := (if cacheTtlSeconds.Some? then cacheTtlSeconds.value else 300) * 1000;
      cache := [];
    }

    /** The part of unwrap before the await. */
    method BeginUnwrap(row: Row, now: int) returns (hit: Option<Jwk>)
      modifies this
      ensures (cache, hit) == Begin(old(cache), row, now)
    {
      var cached := Get(cache, row.keyId);
      hit := None;
      if cached.Some? {
        cache := Remove(cache, row.keyId);
        if cached.value.embHash == Sha256(row.embeddedKey) && cached.value.expires > now {
          assert Get(cache, row.keyId).None?;
          PutNew(cache, cached.value);
          cache := Put(cache, cached.value);
          hit := Some(cached.value.jwk);
        }
      }
    }

    /** The part of unwrap after the await: store, then evict in a loop. */
    method FinishUnwrap(row: Row, jwk: Jwk, start: int)
      modifies this
      ensures cache == Finish(old(cache), row, jwk, start, cacheTtlMs, cacheMaxEntries)
    {
      cache := Put(cache, Entry(row.keyId, Sha256(row.embeddedKey), jwk, start + cacheTtlMs));
      EvictOldest();
    }

    /** Drop the oldest entry until the cache fits. */
    method EvictOldest()
      modifies this
      ensures cache == Evict(old(cache), cacheMaxEntries)
    {
      ghost var full := cache;
      while |cache| > cacheMaxEntries
        invariant |cache| <= |full| && cache == full[|full| - |cache|..]
        invariant |full| > cacheMaxEntries ==> |cache| >= cacheMaxEntries
        invariant |full| <= cacheMaxEntries ==> cache == full
      {
        cache := cache[1..];
      }
    }

    method UnwrapNow(row: Row, now: int) returns (r: Result<Jwk, ExtractError>)
      modifies this
      ensures (cache, r) == Unwrap(kek, old(cache), row, now, cacheTtlMs, cacheMaxEntries)
    {
      if cacheMaxEntries < 1 { return ExtractRow(kek, row); }
      var hit := BeginUnwrap(row, now);
      if hit.Some? { return Ok(hit.value); }
      r := ExtractRow(kek, row);
      if r.Ok? { FinishUnwrap(row, r.value, now); }
    }

    /** The cache part of revoke. */
    method Forget(kid: Kid)
      modifies this
      ensures cache == Remove(old(cache), kid)
    {
      cache := Remove(cache, kid);
    }

    method CacheClear()
      modifies this
      ensures cache == []
    {
      cache := [];
    }
  }

  lemma {:induction false} PutNew(c: Cache, e: Entry)
    requires forall x :: x in c ==> x.keyId != e.keyId
    ensures Put(c, e) == c + [e]
  {
    if c != [] {
      assert c == [c[0]] + c[1..] && c[0] in c;
      PutNew(c[1..], e);
      assert [c[0]] + (c[1..] + [e]) == c + [e];
    }
  }

  lemma BeginOn(c: Cache, row: Row, now: int, e: Entry)
    requires Get(c, row.keyId) == Some(e)
    ensures Begin(c, row, now).1
            == if e.embHash == Sha256(row.embeddedKey) && e.expires > now then Some(e.jwk) else None
  {
  }

  /** What was just stored is served again exactly until its time to live is over. */
  lemma ServedWhileFresh(c: Cache, row: Row, jwk: Jwk, start: int, ttl: int, capacity: nat, now: int)
    requires capacity >= 1 && Get(c, row.keyId).None?
    ensures var c' := Finish(c, row, jwk, start, ttl, capacity);
            Begin(c', row, now).1 == if now < start + ttl then Some(jwk) else None
  {
    var e := Entry(row.keyId, Sha256(row.embeddedKey), jwk, start + ttl);
    PutNew(c, e);
    StoredLast(c, e, capacity);
    BeginOn(Evict(c + [e], capacity), row, now, e);
  }

  lemma StoredLast(c: Cache, e: Entry, capacity: nat)
    requires capacity >= 1 && forall x :: x in c ==> x.keyId != e.keyId
    ensures Get(Evict(c + [e], capacity), e.keyId) == Some(e)
  {
    var all := c + [e];
    if |all| <= capacity {
      GetLast(c, e);
    } else {
      var rest := c[|all| - capacity..];
      assert Evict(all, capacity) == rest + [e];
      forall x | x in rest ensures x.keyId != e.keyId { assert x in c; }
      GetLast(rest, e);
    }
  }

  lemma {:induction false} GetLast(c: Cache, e: Entry)
    requires forall x :: x in c ==> x.keyId != e.keyId
    ensures Get(c + [e], e.keyId) == Some(e)
  {
    if c != [] {
      assert c == [c[0]] + c[1..] && c[0] in c && (c + [e])[1..] == c[1..] + [e];
      GetLast(c[1..], e);
    }
  }

  /** Another ciphertext for the key is never served from the cache. */
  lemma StaleNotServed(c: Cache, row: Row, now: int)
    requires Begin(c, row, now).1.Some?
    ensures exists e :: e in c && e.keyId == row.keyId && e.embHash == Sha256(row.embeddedKey) && e.expires > now
                        && Begin(c, row, now).1 == Some(e.jwk)
  {
    var e := Get(c, row.keyId).value;
    assert e in c;
  }

  // ---- the cache agrees with the direct unwrap ----

  /** Rows of the table name the KEK their ciphertext was made under. */
  predicate WellEmbedded(row: Row) { row.embeddedKey.kekId == row.embeddingKeyId }

  /** An entry holds what extracting its ciphertext, under the KEK that made it, gives. */
  predicate EntryOk(m: Manager, e: Entry) {
    Extract(m, e.embHash.of.kekId, e.embHash.of, e.keyId) == Ok(e.jwk)
  }

  ghost predicate CacheOk(m: Manager, c: Cache) { forall e :: e in c ==> EntryOk(m, e) }

  lemma BeginAgrees(m: Manager, c: Cache, row: Row, now: int)
    requires CacheOk(m, c) && WellEmbedded(row)
    ensures CacheOk(m, Begin(c, row, now).0)
    ensures Begin(c, row, now).1.Some? ==> ExtractRow(m, row) == Ok(Begin(c, row, now).1.value)
  {
  }

  lemma FinishKeepsOk(m: Manager, c: Cache, row: Row, jwk: Jwk, start: int, ttl: int, capacity: nat)
    requires CacheOk(m, c) && WellEmbedded(row) && ExtractRow(m, row) == Ok(jwk)
    ensures CacheOk(m, Finish(c, row, jwk, start, ttl, capacity))
  {
    var e := Entry(row.keyId, Sha256(row.embeddedKey), jwk, start + ttl);
    assert EntryOk(m, e);
  }

  /** Whatever the cache holds, its capacity and its time to live, unwrapping a row of the table gives
      what extracting it directly gives, and keeps the cache truthful. */
  lemma UnwrapTransparent(m: Manager, c: Cache, row: Row, now: int, ttl: int, capacity: nat)
    requires CacheOk(m, c) && WellEmbedded(row)
    ensures Unwrap(m, c, row, now, ttl, capacity).1 == ExtractRow(m, row)
    ensures CacheOk(m, Unwrap(m, c, row, now, ttl, capacity).0)
  {
    if capacity >= 1 {
      BeginAgrees(m, c, row, now);
      if Begin(c, row, now).1.None? && ExtractRow(m, row).Ok? {
        FinishKeepsOk(m, Begin(c, row, now).0, row, ExtractRow(m, row).value, now, ttl, capacity);
      }
    }
  }

  /** The hit test looks at the ciphertext only. On a live hit the two agree exactly when the row names
      the KEK the ciphertext was made under, which is what the table guarantees. */
  lemma HitAgreesIff(m: Manager, c: Cache, row: Row, now: int)
    requires ManagerOk(m) && CacheOk(m, c) && Begin(c, row, now).1.Some?
    ensures ExtractRow(m, row) == Ok(Begin(c, row, now).1.value) <==> WellEmbedded(row)
  {
    if WellEmbedded(row) { BeginAgrees(m, c, row, now); }
  }
}
