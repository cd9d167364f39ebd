/** The unwrap cache as a least-recently-used store: sequential unwraps whose extracts succeed, with
    revokes in between. */
module Lru {
  import opened Acl
  import opened Kek
  import opened KeyTable
  import opened UnwrapCache

  datatype Access = Use(row: Row, now: int) | Drop(kid: Kid)

  function Keys(c: Cache): (ks: seq<Kid>)
    ensures |ks| == |c| && forall i :: 0 <= i < |c| ==> ks[i] == c[i].keyId
  {
    seq(|c|, i requires 0 <= i < |c| => c[i].keyId)
  }

  function CacheStep(m: Manager, c: Cache, a: Access, ttl: int, capacity: nat): Cache {
    match a
    case Use(row, now) => Unwrap(m, c, row, now, ttl, capacity).0
    case Drop(kid) => Remove(c, kid)
  }

  function CacheRun(m: Manager, c: Cache, trace: seq<Access>, ttl: int, capacity: nat): Cache {
    if trace == [] then c
    else CacheStep(m, CacheRun(m, c, trace[..|trace| - 1], ttl, capacity), trace[|trace| - 1], ttl, capacity)
  }

  // ---- the reference: all keys by last use, most recent last ----

  function Without(ks: seq<Kid>, k: Kid): (r: seq<Kid>)
    ensures forall x :: x in r <==> x in ks && x != k
    ensures |r| <= |ks|
  {
    if ks == [] then []
    else
      assert ks == [ks[0]] + ks[1..];
      (if ks[0] == k then [] else [ks[0]]) + Without(ks[1..], k)
  }

  function RecencyStep(ks: seq<Kid>, a: Access): seq<Kid> {
    match a
    case Use(row, _) => Without(ks, row.keyId) + [row.keyId]
    case Drop(kid) => Without(ks, kid)
  }

  function Recency(trace: seq<Access>): seq<Kid> {
    if trace == [] then [] else RecencyStep(Recency(trace[..|trace| - 1]), trace[|trace| - 1])
  }

  function LastN(ks: seq<Kid>, n: nat): (r: seq<Kid>)
    ensures |r| == if |ks| <= n then |ks| else n
  {
    if |ks| <= n then ks else ks[|ks| - n..]
  }

  predicate ExtractsSucceed(m: Manager, trace: seq<Access>) {
    forall i :: 0 <= i < |trace| && trace[i].Use? ==> ExtractRow(m, trace[i].row).Ok?
  }

  // ---- lists without repetitions ----

  lemma {:induction false} WithoutAppend(a: seq<Kid>, b: seq<Kid>, k: Kid)
    ensures Without(a + b, k) == Without(a, k) + Without(b, k)
  {
    if a == [] {
      assert a + b == b;
    } else {
      assert (a + b)[1..] == a[1..] + b;
      WithoutAppend(a[1..], b, k);
    }
  }

  lemma {:induction false} WithoutAbsent(ks: seq<Kid>, k: Kid)
    requires k !in ks
    ensures Without(ks, k) == ks
  {
    if ks != [] { WithoutAbsent(ks[1..], k); }
  }

  lemma {:induction false} WithoutOne(ks: seq<Kid>, k: Kid)
    requires NoDup(ks)
    ensures NoDup(Without(ks, k))
    ensures |Without(ks, k)| == if k in ks then |ks| - 1 else |ks|
  {
    if ks != [] {
      assert ks == [ks[0]] + ks[1..] && forall i :: 0 <= i < |ks| - 1 ==> ks[1..][i] == ks[i + 1];
      WithoutOne(ks[1..], k);
      assert ks[0] !in ks[1..];
    }
  }

  ghost predicate IsSuffix(a: seq<Kid>, b: seq<Kid>) { |a| <= |b| && b[|b| - |a|..] == a }

  lemma SuffixSplit(a: seq<Kid>, b: seq<Kid>)
    requires IsSuffix(a, b)
    ensures b == b[..|b| - |a|] + a
  {
  }

  lemma SuffixWithout(a: seq<Kid>, b: seq<Kid>, k: Kid)
    requires IsSuffix(a, b)
    ensures IsSuffix(Without(a, k), Without(b, k))
    ensures IsSuffix(Without(a, k) + [k], Without(b, k) + [k])
  {
    SuffixSplit(a, b);
    WithoutAppend(b[..|b| - |a|], a, k);
  }

  lemma SuffixOfSame(a: seq<Kid>, b: seq<Kid>, r: seq<Kid>)
    requires IsSuffix(a, r) && IsSuffix(b, r) && |a| <= |b|
    ensures IsSuffix(a, b)
  {
    SuffixSplit(a, r);
    SuffixSplit(b, r);
    assert b == r[|r| - |b|..];
  }

  lemma SuffixLastN(a: seq<Kid>, b: seq<Kid>, n: nat)
    requires IsSuffix(a, b)
    ensures IsSuffix(LastN(a, n), b)
  {
    SuffixSplit(a, b);
  }

  // ---- what one access does to the keys ----

  lemma KeysCons(e: Entry, c: Cache)
    ensures Keys([e] + c) == [e.keyId] + Keys(c)
  {
  }

  lemma {:induction false} KeysRemove(c: Cache, kid: Kid)
    ensures Keys(Remove(c, kid)) == Without(Keys(c), kid)
  {
    if c != [] {
      KeysRemove(c[1..], kid);
      assert c == [c[0]] + c[1..];
      KeysCons(c[0], c[1..]);
      KeysCons(c[0], Remove(c[1..], kid));
      assert [] + Remove(c[1..], kid) == Remove(c[1..], kid);
      assert ([c[0].keyId] + Keys(c[1..]))[1..] == Keys(c[1..]);
    }
  }

  lemma GetIffKey(c: Cache, kid: Kid)
    ensures Get(c, kid).Some? <==> kid in Keys(c)
  {
    if kid in Keys(c) {
      var i :| 0 <= i < |c| && Keys(c)[i] == kid;
      assert c[i] in c;
    }
    if Get(c, kid).Some? {
      var i :| 0 <= i < |c| && c[i] == Get(c, kid).value;
      assert Keys(c)[i] == kid;
    }
  }

  /** A successful unwrap moves or adds its key to the most recent end and cuts at the capacity, whether
      it was a hit, a stale entry or a miss. */
  lemma UseKeys(m: Manager, c: Cache, row: Row, now: int, ttl: int, capacity: nat)
    requires ExtractRow(m, row).Ok? && |c| <= capacity && NoDup(Keys(c))
    ensures Keys(Unwrap(m, c, row, now, ttl, capacity).0) == LastN(Without(Keys(c), row.keyId) + [row.keyId], capacity)
  {
    if capacity >= 1 {
      var k := row.keyId;
      var rest := Remove(c, k);
      KeysRemove(c, k);
      GetIffKey(c, k);
      WithoutOne(Keys(c), k);
      if Get(c, k).None? { WithoutAbsent(Keys(c), k); }
      if Begin(c, row, now).1.Some? {
        assert Keys(rest + [Get(c, k).value]) == Keys(rest) + [k];
      } else {
        var e := Entry(k, Sha256(row.embeddedKey), ExtractRow(m, row).value, now + ttl);
        MissKeys(Begin(c, row, now).0, e, capacity);
      }
    }
  }

  lemma MissKeys(c: Cache, e: Entry, capacity: nat)
    requires forall x :: x in c ==> x.keyId != e.keyId
    ensures Keys(Evict(Put(c, e), capacity)) == LastN(Keys(c) + [e.keyId], capacity)
  {
    PutNew(c, e);
    assert Keys(c + [e]) == Keys(c) + [e.keyId];
  }

  // ---- refinement ----

  /** The cached keys are the most recent ones, and never more than the capacity. */
  ghost predicate Tracks(c: Cache, r: seq<Kid>, capacity: nat) {
    IsSuffix(Keys(c), r) && NoDup(r) && |c| <= capacity
  }

  lemma SuffixNoDup(a: seq<Kid>, b: seq<Kid>)
    requires IsSuffix(a, b) && NoDup(b)
    ensures NoDup(a)
  {
    forall i | 0 <= i < |a| ensures a[i] == b[|b| - |a| + i] {}
  }

  lemma TracksStep(m: Manager, c: Cache, r: seq<Kid>, a: Access, ttl: int, capacity: nat)
    requires Tracks(c, r, capacity) && (a.Use? ==> ExtractRow(m, a.row).Ok?)
    ensures Tracks(CacheStep(m, c, a, ttl, capacity), RecencyStep(r, a), capacity)
  {
    SuffixNoDup(Keys(c), r);
    match a
    case Use(row, now) => TracksUse(m, c, r, row, now, ttl, capacity);
    case Drop(kid) =>
      KeysRemove(c, kid);
      SuffixWithout(Keys(c), r, kid);
      WithoutOne(r, kid);
  }

  lemma SuffixUse(ks: seq<Kid>, r: seq<Kid>, k: Kid, capacity: nat)
    requires IsSuffix(ks, r) && NoDup(r)
    ensures IsSuffix(LastN(Without(ks, k) + [k], capacity), Without(r, k) + [k]) && NoDup(Without(r, k) + [k])
  {
    SuffixWithout(ks, r, k);
    SuffixLastN(Without(ks, k) + [k], Without(r, k) + [k], capacity);
    WithoutOne(r, k);
    NoDupSnoc(Without(r, k), k);
  }

  lemma NoDupSnoc(r: seq<Kid>, k: Kid)
    requires NoDup(r) && k !in r
    ensures NoDup(r + [k])
  {
  }

  lemma TracksUse(m: Manager, c: Cache, r: seq<Kid>, row: Row, now: int, ttl: int, capacity: nat)
    requires Tracks(c, r, capacity) && NoDup(Keys(c)) && ExtractRow(m, row).Ok?
    ensures Tracks(Unwrap(m, c, row, now, ttl, capacity).0, Without(r, row.keyId) + [row.keyId], capacity)
  {
    UseKeys(m, c, row, now, ttl, capacity);
    SuffixUse(Keys(c), r, row.keyId, capacity);
    assert |Keys(Unwrap(m, c, row, now, ttl, capacity).0)| == |Unwrap(m, c, row, now, ttl, capacity).0|;
  }

  /** On every trace the map order is the recency order cut short: the cache holds the most recent keys. */
  lemma {:induction false} RunTracks(m: Manager, trace: seq<Access>, ttl: int, capacity: nat)
    requires ExtractsSucceed(m, trace)
    ensures Tracks(CacheRun(m, [], trace, ttl, capacity), Recency(trace), capacity)
  {
    if trace != [] {
      var n := |trace| - 1;
      RunTracks(m, trace[..n], ttl, capacity);
      TracksStep(m, CacheRun(m, [], trace[..n], ttl, capacity), Recency(trace[..n]), trace[n], ttl, capacity);
    }
  }

  /** Full: no fewer keys than the recency order cut at the capacity has. */
  ghost predicate Full(c: Cache, r: seq<Kid>, capacity: nat) { Keys(c) == LastN(r, capacity) }

  /** A use keeps a full cache full. A revoke does so exactly when the revoked key is not cached or
      nothing older has been evicted: otherwise the evicted key does not come back. */
  lemma FullStep(m: Manager, c: Cache, r: seq<Kid>, a: Access, ttl: int, capacity: nat)
    requires Tracks(c, r, capacity) && Full(c, r, capacity) && (a.Use? ==> ExtractRow(m, a.row).Ok?)
    ensures Full(CacheStep(m, c, a, ttl, capacity), RecencyStep(r, a), capacity) <==>
            a.Use? || a.kid !in Keys(c) || |r| <= capacity
  {
    var c', r' := CacheStep(m, c, a, ttl, capacity), RecencyStep(r, a);
    TracksStep(m, c, r, a, ttl, capacity);
    SuffixNoDup(Keys(c), r);
    var k := if a.Use? then a.row.keyId else a.kid;
    WithoutOne(r, k);
    WithoutOne(Keys(c), k);
    if a.Use? { UseKeys(m, c, a.row, a.now, ttl, capacity); } else { KeysRemove(c, k); }
    FullIffLength(c', r', capacity);
    assert k in Keys(c) ==> k in r;
  }

  lemma FullIffLength(c: Cache, r: seq<Kid>, capacity: nat)
    requires Tracks(c, r, capacity)
    ensures Full(c, r, capacity) <==> |c| == |LastN(r, capacity)|
  {
    SuffixOfSame(LastN(r, capacity), LastN(r, capacity), r);
  }

  lemma RecencySnoc(trace: seq<Access>, a: Access)
    ensures Recency(trace + [a]) == RecencyStep(Recency(trace), a)
  {
    assert (trace + [a])[..|trace|] == trace;
  }

  lemma RecencyOfThree(a: Row, b: Row, c: Row)
    requires a.keyId != b.keyId && a.keyId != c.keyId && b.keyId != c.keyId
    ensures Recency([Use(a, 0), Use(b, 0), Use(c, 0)]) == [a.keyId, b.keyId, c.keyId]
  {
    RecencySnoc([], Use(a, 0));
    RecencySnoc([Use(a, 0)], Use(b, 0));
    RecencySnoc([Use(a, 0), Use(b, 0)], Use(c, 0));
    WithoutAbsent([], a.keyId);
    WithoutAbsent([a.keyId], b.keyId);
    WithoutAbsent([a.keyId, b.keyId], c.keyId);
    assert [] + [Use(a, 0)] == [Use(a, 0)] && [Use(a, 0)] + [Use(b, 0)] == [Use(a, 0), Use(b, 0)];
    assert [Use(a, 0), Use(b, 0)] + [Use(c, 0)] == [Use(a, 0), Use(b, 0), Use(c, 0)];
  }

  /** Three keys in a cache of two, and a revoke: the map then holds the second key only, although the
      recency order cut at the capacity still has the first. */
  lemma RevokeDeficit(m: Manager, a: Row, b: Row, c: Row, ttl: int)
    requires a.keyId != b.keyId && a.keyId != c.keyId && b.keyId != c.keyId
    requires ExtractRow(m, a).Ok? && ExtractRow(m, b).Ok? && ExtractRow(m, c).Ok?
    ensures var trace := [Use(a, 0), Use(b, 0), Use(c, 0)] + [Drop(c.keyId)];
            Keys(CacheRun(m, [], trace, ttl, 2)) == [b.keyId] && LastN(Recency(trace), 2) == [a.keyId, b.keyId]
  {
    var uses := [Use(a, 0), Use(b, 0), Use(c, 0)];
    RecencyOfThree(a, b, c);
    RecencySnoc(uses, Drop(c.keyId));
    ExactWithoutRevokes(m, uses, ttl, 2);
    var full := CacheRun(m, [], uses, ttl, 2);
    assert Keys(full) == [b.keyId] + [c.keyId];
    KeysRemove(full, c.keyId);
    WithoutLast([b.keyId], c.keyId);
    WithoutLast([a.keyId, b.keyId], c.keyId);
    assert [a.keyId, b.keyId] + [c.keyId] == [a.keyId, b.keyId, c.keyId];
    assert (uses + [Drop(c.keyId)])[..3] == uses;
  }

  lemma WithoutLast(ks: seq<Kid>, k: Kid)
    requires k !in ks
    ensures Without(ks + [k], k) == ks
  {
    WithoutAppend(ks, [k], k);
    WithoutAbsent(ks, k);
  }

  /** Without revokes the map order is exactly the recency order cut at the capacity. */
  lemma {:induction false} ExactWithoutRevokes(m: Manager, trace: seq<Access>, ttl: int, capacity: nat)
    requires ExtractsSucceed(m, trace) && forall i :: 0 <= i < |trace| ==> trace[i].Use?
    ensures Keys(CacheRun(m, [], trace, ttl, capacity)) == LastN(Recency(trace), capacity)
  {
    if trace != [] {
      var n := |trace| - 1;
      ExactWithoutRevokes(m, trace[..n], ttl, capacity);
      RunTracks(m, trace[..n], ttl, capacity);
      FullStep(m, CacheRun(m, [], trace[..n], ttl, capacity), Recency(trace[..n]), trace[n], ttl, capacity);
    }
  }

  function Min(a: int, b: int): int { if a <= b then a else b }

  /** How long the cache is after an access, from whether its key was cached. */
  lemma StepLength(m: Manager, c: Cache, a: Access, ttl: int, capacity: nat)
    requires |c| <= capacity && NoDup(Keys(c)) && (a.Use? ==> ExtractRow(m, a.row).Ok?)
    ensures var k := if a.Use? then a.row.keyId else a.kid;
            var kept := if k in Keys(c) then |c| - 1 else |c|;
            |CacheStep(m, c, a, ttl, capacity)| == if a.Use? then Min(kept + 1, capacity) else kept
  {
    match a
    case Use(row, now) =>
      UseKeys(m, c, row, now, ttl, capacity);
      WithoutOne(Keys(c), row.keyId);
      assert |Keys(CacheStep(m, c, a, ttl, capacity))| == |CacheStep(m, c, a, ttl, capacity)|;
    case Drop(kid) =>
      KeysRemove(c, kid);
      WithoutOne(Keys(c), kid);
      assert |Keys(Remove(c, kid))| == |Remove(c, kid)|;
  }

  lemma LengthStep(m: Manager, c: Cache, d: Cache, r: seq<Kid>, a: Access, ttl: int, ttl2: int, small: nat, large: nat)
    requires Tracks(c, r, small) && Tracks(d, r, large) && |c| <= |d| && small <= large
    requires a.Use? ==> ExtractRow(m, a.row).Ok?
    ensures |CacheStep(m, c, a, ttl, small)| <= |CacheStep(m, d, a, ttl2, large)|
  {
    SuffixNoDup(Keys(c), r);
    SuffixNoDup(Keys(d), r);
    SuffixOfSame(Keys(c), Keys(d), r);
    SuffixMembers(Keys(c), Keys(d), if a.Use? then a.row.keyId else a.kid);
    StepLength(m, c, a, ttl, small);
    StepLength(m, d, a, ttl2, large);
  }

  lemma SuffixMembers(a: seq<Kid>, b: seq<Kid>, k: Kid)
    requires IsSuffix(a, b)
    ensures k in a ==> k in b
    ensures |a| == |b| ==> a == b
  {
    SuffixSplit(a, b);
  }

  /** Stack inclusion: on any one trace, revokes included, a cache of smaller capacity holds the most
      recent part of what a larger one holds, whatever their times to live. */
  lemma {:induction false} StackInclusion(m: Manager, trace: seq<Access>, ttl: int, ttl2: int, small: nat, large: nat)
    requires ExtractsSucceed(m, trace) && small <= large
    ensures IsSuffix(Keys(CacheRun(m, [], trace, ttl, small)), Keys(CacheRun(m, [], trace, ttl2, large)))
  {
    RunTracks(m, trace, ttl, small);
    RunTracks(m, trace, ttl2, large);
    LengthsOrdered(m, trace, ttl, ttl2, small, large);
    SuffixOfSame(Keys(CacheRun(m, [], trace, ttl, small)), Keys(CacheRun(m, [], trace, ttl2, large)), Recency(trace));
  }

  lemma {:induction false} LengthsOrdered(m: Manager, trace: seq<Access>, ttl: int, ttl2: int, small: nat, large: nat)
    requires ExtractsSucceed(m, trace) && small <= large
    ensures |CacheRun(m, [], trace, ttl, small)| <= |CacheRun(m, [], trace, ttl2, large)|
  {
    if trace != [] {
      var n := |trace| - 1;
      LengthsOrdered(m, trace[..n], ttl, ttl2, small, large);
      RunTracks(m, trace[..n], ttl, small);
      RunTracks(m, trace[..n], ttl2, large);
      LengthStep(m, CacheRun(m, [], trace[..n], ttl, small), CacheRun(m, [], trace[..n], ttl2, large),
                 Recency(trace[..n]), trace[n], ttl, ttl2, small, large);
    }
  }

  // ---- the exact order on every trace ----

  /** How many keys the cache holds, computed from the trace alone: an access to a key among the most recent
      of that number takes it out, and a use then adds one, up to the capacity. */
  function Slots(trace: seq<Access>, capacity: nat): (n: nat)
    ensures n <= capacity && n <= |Recency(trace)|
    decreases |trace|
  {
    if trace == [] then 0
    else
      var before, a := trace[..|trace| - 1], trace[|trace| - 1];
      var n := Slots(before, capacity);
      var k := if a.Use? then a.row.keyId else a.kid;
      RecencyLength(before, a);
      LastNMember(Recency(before), n, k);
      var kept := if k in LastN(Recency(before), n) then n - 1 else n;
      if a.Use? then Min(kept + 1, capacity) else kept
  }

  lemma {:induction false} RecencyNoDup(trace: seq<Access>)
    ensures NoDup(Recency(trace))
  {
    if trace != [] {
      var n := |trace| - 1;
      RecencyNoDup(trace[..n]);
      var k := if trace[n].Use? then trace[n].row.keyId else trace[n].kid;
      WithoutOne(Recency(trace[..n]), k);
      NoDupSnoc(Without(Recency(trace[..n]), k), k);
    }
  }

  lemma RecencyLength(trace: seq<Access>, a: Access)
    ensures var k := if a.Use? then a.row.keyId else a.kid;
            |RecencyStep(Recency(trace), a)|
            == (if k in Recency(trace) then |Recency(trace)| - 1 else |Recency(trace)|) + if a.Use? then 1 else 0
  {
    RecencyNoDup(trace);
    WithoutOne(Recency(trace), if a.Use? then a.row.keyId else a.kid);
  }

  lemma LastNMember(r: seq<Kid>, n: nat, k: Kid)
    ensures k in LastN(r, n) ==> k in r
    ensures k in LastN(r, n) ==> n > 0 && |r| > 0
    ensures n == |r| && k in r ==> k in LastN(r, n)
  {
  }

  lemma SuffixIsLastN(a: seq<Kid>, r: seq<Kid>)
    requires IsSuffix(a, r)
    ensures a == LastN(r, |a|)
  {
  }

  lemma {:induction false} LengthIsSlots(m: Manager, trace: seq<Access>, ttl: int, capacity: nat)
    requires ExtractsSucceed(m, trace)
    ensures |CacheRun(m, [], trace, ttl, capacity)| == Slots(trace, capacity)
  {
    if trace != [] {
      var n := |trace| - 1;
      var c := CacheRun(m, [], trace[..n], ttl, capacity);
      LengthIsSlots(m, trace[..n], ttl, capacity);
      RunTracks(m, trace[..n], ttl, capacity);
      SuffixNoDup(Keys(c), Recency(trace[..n]));
      SuffixIsLastN(Keys(c), Recency(trace[..n]));
      StepLength(m, c, trace[n], ttl, capacity);
    }
  }

  /** On every trace the map order is exactly the recency order cut at the number of slots in use. It is the
      order cut at the capacity if and only if those are as many as the capacity and the recency order
      allow. */
  lemma ExactOrder(m: Manager, trace: seq<Access>, ttl: int, capacity: nat)
    requires ExtractsSucceed(m, trace)
    ensures var c := CacheRun(m, [], trace, ttl, capacity);
            && Keys(c) == LastN(Recency(trace), Slots(trace, capacity))
            && (Keys(c) == LastN(Recency(trace), capacity) <==>
                  Slots(trace, capacity) == Min(|Recency(trace)|, capacity))
  {
    var c := CacheRun(m, [], trace, ttl, capacity);
    RunTracks(m, trace, ttl, capacity);
    LengthIsSlots(m, trace, ttl, capacity);
    assert |Keys(c)| == |c|;
    SuffixIsLastN(Keys(c), Recency(trace));
  }
}
