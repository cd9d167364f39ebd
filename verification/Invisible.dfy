/** What no caller can see: when expired keys are swept, and whether and what the vault caches. */
module Invisible {
  import opened Text
  import opened KeyTable
  import opened UnwrapCache
  import opened Handlers
  import opened Vault
  import opened VaultInvariant
  import opened Masking
  import opened RewrapLive

  // ---- sweeps ----

  const ALL := Scope({}, map[])

  lemma {:induction false} PossibleGood(p: Policy, cc: CacheConfig, s: State, es: seq<Step>)
    requires Possible(p, cc, s, es)
    ensures GoodRun(p, cc, s, es, ALL)
    decreases |es|
  {
    if es != [] { PossibleGood(p, cc, Next(p, cc, s, es[0]).0, es[1..]); }
  }

  /** The sweep is pure hygiene. Two vaults that agree on all keys that are not expired, and two runs that
      differ only in sweeps with any grace, in cache clears, and in rewrap iterations that are idle or fall
      on expired keys, give every caller the same responses; restarts and all other rewraps included. */
  lemma SweepHygiene(p: Policy, cc: CacheConfig, cc2: CacheConfig, s: State, t: State, es: seq<Step>, fs: seq<Step>)
    requires Inv(s) && Inv(t) && Alike(Lens({}, Some(NowMs(s))), s, t)
    requires Possible(p, cc, s, es) && Possible(p, cc2, t, fs)
    requires Loud(p, cc, s, es, ALL) == Loud(p, cc2, t, fs, ALL)
    ensures Watch(p, cc, s, es, ALL) == Watch(p, cc2, t, fs, ALL)
  {
    PossibleGood(p, cc, s, es);
    PossibleGood(p, cc2, t, fs);
    Indistinguishable(p, cc, cc2, s, t, es, fs, ALL);
  }

  ghost predicate NoSweeps(es: seq<Step>) { forall i :: 0 <= i < |es| ==> !es[i].SweepExpired? }

  lemma NoSweepsCons(e: Step, es: seq<Step>)
    requires NoSweeps(es) && !e.SweepExpired?
    ensures NoSweeps([e] + es)
  {
    var all := [e] + es;
    forall i | 0 <= i < |all| ensures !all[i].SweepExpired? { if i > 0 { assert all[i] == es[i - 1]; } }
  }

  /** How many expired rows the vault without sweeps has to pass before the next step of the other. */
  function Detour(t: State, es: seq<Step>): nat {
    if es != [] && es[0].NextRewrap? && es[0].proc < |t.rewraps| then |Rest(t.rewraps[es[0].proc])| else 0
  }

  /** The vault that never sweeps is at an expired row where the other one is at a row in force. */
  predicate Behind(s: State, t: State, e: Step) {
    e.NextRewrap? && HasNext(s, e.proc) && HasNext(t, e.proc)
    && Expired(NextRow(t, e.proc).expiresAt, NowMs(t))
  }

  lemma CatchUp(p: Policy, cc: CacheConfig, s: State, t: State, i: nat)
    requires Inv(t) && Alike(Now(ALL, s), s, t) && Behind(s, t, NextRewrap(i, 0))
    ensures Quiet(p, t, NextRewrap(i, 0), ALL)
    ensures var t' := Next(p, cc, t, NextRewrap(i, 0)).0;
            Inv(t') && Alike(Now(ALL, s), s, t') && t'.born == t.born
  {
    var pass := NextRewrap(i, 0);
    StepKeepsInv(p, cc, t, pass);
    AlikeSymmetric(Now(ALL, s), s, t);
    StepAlone(p, cc, Now(ALL, s), t, s, pass, ALL);
    AlikeSymmetric(Now(ALL, s), Next(p, cc, t, pass).0, s);
    BornStands(p, cc, t, pass);
  }

  lemma DetourShrinks(p: Policy, cc: CacheConfig, t: State, i: nat)
    requires HasNext(t, i)
    ensures var t' := Next(p, cc, t, NextRewrap(i, 0)).0;
            i < |t'.rewraps| && |Rest(t'.rewraps[i])| < |Rest(t.rewraps[i])|
  {
  }

  /** Where the one vault is at a row in force, the other still has that row ahead. */
  lemma StillAhead(s: State, t: State, i: nat)
    requires Inv(s) && Inv(t) && Alike(Now(ALL, s), s, t) && HasNext(s, i) && Keep(Now(ALL, s), NextRow(s, i))
    ensures HasNext(t, i)
  {
    var x, y := s.rewraps[i], t.rewraps[i];
    assert RewrapOk(t.born, y);
    assert Rest(x) == [x.work[x.done]] + x.work[x.done + 1..];
    assert NextRow(s, i) in Kept(Now(ALL, s), Rest(x));
    assert NextRow(s, i) in Rest(y);
  }

  /** The run of a vault that never sweeps, to go with a run of one that does: the same loud steps, with
      iterations that take its rewraps past the expired rows they still find. */
  lemma {:induction false} Unswept(p: Policy, cc: CacheConfig, cc2: CacheConfig, s: State, t: State, es: seq<Step>)
    returns (fs: seq<Step>)
    requires Inv(s) && Inv(t) && Alike(Now(ALL, s), s, t) && t.born.Keys <= s.born.Keys && Possible(p, cc, s, es)
    ensures NoSweeps(fs) && Possible(p, cc2, t, fs) && Loud(p, cc2, t, fs, ALL) == Loud(p, cc, s, es, ALL)
    decreases |es|, Detour(t, es)
  {
    fs := [];
    if es != [] {
      var e, s' := es[0], Next(p, cc, s, es[0]).0;
      StepKeepsInv(p, cc, s, e);
      if Quiet(p, s, e, ALL) {
        StepAlone(p, cc, Now(ALL, s), s, t, e, ALL);
        QuietBorn(p, cc, s, e);
        fs := Unswept(p, cc, cc2, s', t, es[1..]);
        SkipNothing(Loud(p, cc, s', es[1..], ALL));
      } else if Behind(s, t, e) {
        var pass := NextRewrap(e.proc, 0);
        var t' := Next(p, cc2, t, pass).0;
        CatchUp(p, cc2, s, t, e.proc);
        DetourShrinks(p, cc2, t, e.proc);
        var rest := Unswept(p, cc, cc2, s, t', es);
        fs := [pass] + rest;
        NoSweepsCons(pass, rest);
        TailOf(pass, rest);
        SkipNothing(Loud(p, cc2, t', rest, ALL));
      } else {
        var t' := Next(p, cc2, t, e).0;
        if e.NextRewrap? { StillAhead(s, t, e.proc); }
        BothStep(p, cc, cc2, s, t, e);
        var rest := Unswept(p, cc, cc2, s', t', es[1..]);
        fs := [e] + rest;
        NoSweepsCons(e, rest);
        TailOf(e, rest);
      }
    }
  }

  lemma QuietBorn(p: Policy, cc: CacheConfig, s: State, e: Step)
    requires Quiet(p, s, e, ALL)
    ensures Next(p, cc, s, e).0.born == s.born
  {
  }

  lemma BothStep(p: Policy, cc: CacheConfig, cc2: CacheConfig, s: State, t: State, e: Step)
    requires Inv(s) && Inv(t) && Alike(Now(ALL, s), s, t) && t.born.Keys <= s.born.Keys && StepOk(s, e)
    requires !Quiet(p, s, e, ALL) && Aligned(Now(ALL, s), s, t, e)
    ensures var s', t' := Next(p, cc, s, e).0, Next(p, cc2, t, e).0;
            && StepOk(t, e) && !Quiet(p, t, e, ALL) && Inv(t') && Alike(Now(ALL, s'), s', t')
            && t'.born.Keys <= s'.born.Keys
  {
    StepTogether(p, cc, cc2, Now(ALL, s), s, t, e, ALL);
    BornTogether(p, cc, cc2, s, t, e);
    StepKeepsInv(p, cc2, t, e);
  }

  /** Sweeps can be done without. For every run there is one without any sweep, from the same vault and under
      any cache configuration, that is possible, has the same loud steps (requests, restarts and rewraps of
      keys in force included), and gives every caller the same responses. */
  lemma SweepFree(p: Policy, cc: CacheConfig, cc2: CacheConfig, s: State, es: seq<Step>)
    requires Inv(s) && Possible(p, cc, s, es)
    ensures exists fs :: NoSweeps(fs) && Possible(p, cc2, s, fs)
                         && Loud(p, cc2, s, fs, ALL) == Loud(p, cc, s, es, ALL)
                         && Watch(p, cc2, s, fs, ALL) == Watch(p, cc, s, es, ALL)
  {
    var fs := Unswept(p, cc, cc2, s, s, es);
    SweepHygiene(p, cc, cc2, s, s, es, fs);
  }

  function DropSweeps(es: seq<Step>): seq<Step> {
    if es == [] then [] else (if es[0].SweepExpired? then [] else [es[0]]) + DropSweeps(es[1..])
  }

  function DropClears(es: seq<Step>): seq<Step> {
    if es == [] then [] else (if es[0].ClearCache? then [] else [es[0]]) + DropClears(es[1..])
  }

  lemma {:induction false} LoudStatic(p: Policy, cc: CacheConfig, s: State, es: seq<Step>)
    requires forall i :: 0 <= i < |es| ==> !es[i].NextRewrap?
    ensures Loud(p, cc, s, es, ALL) == DropClears(DropSweeps(es))
    decreases |es|
  {
    if es != [] {
      assert forall i :: 0 <= i < |es| - 1 ==> es[1..][i] == es[i + 1];
      LoudStatic(p, cc, Next(p, cc, s, es[0]).0, es[1..]);
      TailOf(es[0], DropSweeps(es[1..]));
      SkipNothing(DropSweeps(es[1..]));
    }
  }

  /** Where no rewrap is under way, inserting, removing or moving sweeps changes no response. */
  lemma SweepsUnseen(p: Policy, cc: CacheConfig, s: State, es: seq<Step>, fs: seq<Step>)
    requires Inv(s) && Possible(p, cc, s, es) && Possible(p, cc, s, fs) && DropSweeps(es) == DropSweeps(fs)
    requires (forall i :: 0 <= i < |es| ==> !es[i].NextRewrap?) && (forall i :: 0 <= i < |fs| ==> !fs[i].NextRewrap?)
    ensures Watch(p, cc, s, es, ALL) == Watch(p, cc, s, fs, ALL)
  {
    LoudStatic(p, cc, s, es);
    LoudStatic(p, cc, s, fs);
    SweepHygiene(p, cc, cc, s, s, es, fs);
  }

  // ---- the cache ----

  ghost predicate SameButCache(s: State, t: State) { s.(cache := []) == t.(cache := []) }

  lemma KeyOperationUncached(p: Policy, cc: CacheConfig, cc2: CacheConfig, s: State, c: Cache, u: User,
                             r: Request, o: Oracle)
    requires Inv(s) && CacheOk(s.kek, c) && OnKey(r)
    ensures var (s', out) := KeyOperation(p, cc, s, u, r, o);
            var (t', out2) := KeyOperation(p, cc2, s.(cache := c), u, r, o);
            SameButCache(s', t') && out == out2
  {
    if Target(p, r).Ok? && Find(s.rows, Target(p, r).value).Some? {
      var row := Find(s.rows, Target(p, r).value).value;
      assert RowOk(s.born, row);
      KeyStep(p, cc, s, u, r, o, row);
      KeyStep(p, cc2, s.(cache := c), u, r, o, row);
      UnwrapTransparent(s.kek, s.cache, row, NowMs(s), cc.ttl, cc.capacity);
      UnwrapTransparent(s.kek, c, row, NowMs(s), cc2.ttl, cc2.capacity);
    }
  }

  lemma GenerateUncached(s: State, c: Cache, u: User, extra: bool, g: GenParams, o: Oracle)
    ensures var (s', out) := Generate(s, u, extra, g, o);
            Generate(s.(cache := c), u, extra, g, o) == (s'.(cache := c), out) && s'.cache == s.cache
  {
  }

  lemma OtherStepUncached(p: Policy, cc: CacheConfig, cc2: CacheConfig, s: State, c: Cache, e: Step)
    requires !(e.Api? && OnKey(e.req))
    ensures SameButCache(Next(p, cc, s, e).0, Next(p, cc2, s.(cache := c), e).0)
    ensures Next(p, cc, s, e).1 == Next(p, cc2, s.(cache := c), e).1
  {
    match e
    case Api(u, r, o) => { if r.GenerateKey? { GenerateUncached(s, c, u, r.extra, r.gen, o); } }
    case NextRewrap(i, nonce) => {}
    case UpdateAcl(kid, acl) => {}
    case _ =>
  }

  lemma CacheStepUnseen(p: Policy, cc: CacheConfig, cc2: CacheConfig, s: State, t: State, e: Step)
    requires Inv(s) && Inv(t) && SameButCache(s, t)
    ensures SameButCache(Next(p, cc, s, e).0, Next(p, cc2, t, e).0) && Next(p, cc, s, e).1 == Next(p, cc2, t, e).1
  {
    assert t == s.(cache := t.cache);
    if e.Api? && OnKey(e.req) { KeyOperationUncached(p, cc, cc2, s, t.cache, e.user, e.req, e.oracle); }
    else { OtherStepUncached(p, cc, cc2, s, t.cache, e); }
  }

  /** The cache is invisible: over any run, restarts and rewraps included, every response and every audit
      mark is the same whatever the cache holds at first, and whatever its capacity and time to live. */
  lemma {:induction false} CacheInvisible(p: Policy, cc: CacheConfig, cc2: CacheConfig, s: State, t: State,
                                          es: seq<Step>)
    requires Inv(s) && Inv(t) && SameButCache(s, t) && Possible(p, cc, s, es)
    ensures Possible(p, cc2, t, es) && Outputs(p, cc, s, es) == Outputs(p, cc2, t, es)
    decreases |es|
  {
    if es != [] {
      StepKeepsInv(p, cc, s, es[0]);
      StepKeepsInv(p, cc2, t, es[0]);
      CacheStepUnseen(p, cc, cc2, s, t, es[0]);
      CacheInvisible(p, cc, cc2, Next(p, cc, s, es[0]).0, Next(p, cc2, t, es[0]).0, es[1..]);
    }
  }
}
