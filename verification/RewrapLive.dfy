/** KEK rotation beside a live server: the loop's iterations interleave with requests, sweeps, ACL edits,
    other rewraps and restarts. */
module RewrapLive {
  import opened Acl
  import opened Kek
  import opened KeyTable
  import opened UnwrapCache
  import opened Handlers
  import opened Vault
  import opened VaultInvariant
  import opened Listing
  import opened KvAdmin

  /** If the step is an iteration of a rewrap, its active KEK is one of these. */
  predicate WrapsInto(s: State, e: Step, keks: set<KekId>) {
    e.NextRewrap? && e.proc < |s.rewraps| ==> s.rewraps[e.proc].kek.active.kid in keks
  }

  /** If the step inserts a key, it is under one of these KEKs. */
  predicate InsertsInto(s: State, e: Step, keks: set<KekId>) {
    e.Api? && e.req.GenerateKey? ==> s.kek.active.kid in keks
  }

  ghost predicate RunWrapsInto(p: Policy, cc: CacheConfig, s: State, es: seq<Step>, keks: set<KekId>) {
    forall i :: 0 <= i < |es| ==> WrapsInto(StateAfter(p, cc, s, es[..i]), es[i], keks)
  }

  ghost predicate RunInsertsInto(p: Policy, cc: CacheConfig, s: State, es: seq<Step>, keks: set<KekId>) {
    forall i :: 0 <= i < |es| ==> InsertsInto(StateAfter(p, cc, s, es[..i]), es[i], keks)
  }

  lemma PrefixInto(p: Policy, cc: CacheConfig, s: State, es: seq<Step>, keks: set<KekId>)
    requires es != []
    ensures RunWrapsInto(p, cc, s, es, keks) ==> RunWrapsInto(p, cc, s, es[..|es| - 1], keks)
    ensures RunInsertsInto(p, cc, s, es, keks) ==> RunInsertsInto(p, cc, s, es[..|es| - 1], keks)
  {
    var n := |es| - 1;
    assert forall i :: 0 <= i < n ==> es[..n][..i] == es[..i] && es[..n][i] == es[i];
  }

  // ---- one row, one step ----

  /** Nothing brings back a key that is gone, and only a rewrap changes which KEK a key is under. */
  ghost predicate RowStepOk(s: State, s': State, e: Step, kid: Kid) {
    HasKey(s'.rows, kid) && kid in s.born ==>
      HasKey(s.rows, kid)
      && var kek, kek' := Find(s.rows, kid).value.embeddingKeyId, Find(s'.rows, kid).value.embeddingKeyId;
         kek' == kek || (e.NextRewrap? && e.proc < |s.rewraps| && kek' == s.rewraps[e.proc].kek.active.kid)
  }

  lemma RewrapRowStep(s: State, i: nat, nonce: nat, kid: Kid)
    requires Inv(s) && i < |s.rewraps| && s.rewraps[i].done < |s.rewraps[i].work|
    ensures var r := s.rewraps[i];
            var from := r.work[r.done];
            var rows' := RewrapIteration(s, r, nonce).0;
            && (HasKey(rows', kid) <==> HasKey(s.rows, kid))
            && (HasKey(s.rows, kid) ==>
                  Find(rows', kid).value.embeddingKeyId
                  == if kid == from.keyId && ExtractRow(r.kek, from).Ok? then r.kek.active.kid
                     else Find(s.rows, kid).value.embeddingKeyId)
  {
    var r := s.rewraps[i];
    var from := r.work[r.done];
    assert RewrapOk(s.born, r) && RowOk(s.born, from);
    if ExtractRow(r.kek, from).Ok? { OneRow(s.born, s.rows, r.kek, from, NowSeconds(s), nonce, kid); }
  }

  const NO_EMBEDDING := Embedded("", Jwe("", 0, OtherJson))

  lemma KeyOperationRowStep(p: Policy, cc: CacheConfig, s: State, u: User, r: Request, o: Oracle, kid: Kid)
    requires OnKey(r)
    ensures var rows' := KeyOperation(p, cc, s, u, r, o).0.rows;
            HasKey(rows', kid) ==> Find(rows', kid) == Find(s.rows, kid)
  {
    OperationRows(p, cc, s, u, r, o);
    if Target(p, r).Ok? { FindAfter(s.rows, Target(p, r).value, kid, map[], NO_EMBEDDING); }
  }

  lemma AdminAclRowStep(s: State, k: Kid, acl: AclInput, kid: Kid)
    ensures var rows' := AdminAcl(s, k, acl).rows;
            HasKey(rows', kid) ==> HasKey(s.rows, kid)
                                   && Find(rows', kid).value.embeddingKeyId == Find(s.rows, kid).value.embeddingKeyId
  {
    if Validated(acl).Ok? { FindAfter(s.rows, k, kid, Validated(acl).value, NO_EMBEDDING); }
  }

  lemma RowStep(p: Policy, cc: CacheConfig, s: State, e: Step, kid: Kid)
    requires Inv(s) && StepOk(s, e)
    ensures RowStepOk(s, Next(p, cc, s, e).0, e, kid)
  {
    match e
    case Api(u, r, o) => {
      if OnKey(r) {
        KeyOperationRowStep(p, cc, s, u, r, o, kid);
      } else if r.GenerateKey? {
        GenerateRowStep(s, u, r.extra, r.gen, o, kid);
      }
    }
    case SweepExpired(grace) => { FindSwept(s.rows, s.clock, grace, kid); }
    case UpdateAcl(k, acl) => { AdminAclRowStep(s, k, acl, kid); }
    case NextRewrap(i, nonce) => {
      if i < |s.rewraps| && s.rewraps[i].done < |s.rewraps[i].work| { RewrapRowStep(s, i, nonce, kid); }
    }
    case _ =>
  }

  lemma GenerateRowStep(s: State, u: User, extra: bool, g: GenParams, o: Oracle, kid: Kid)
    requires o.kid !in s.born
    ensures var s' := Generate(s, u, extra, g, o).0;
            (kid in s.born ==> Find(s'.rows, kid) == Find(s.rows, kid))
            && (HasKey(s'.rows, kid) && !HasKey(s.rows, kid) ==>
                  Find(s'.rows, kid).value.embeddingKeyId == s.kek.active.kid)
            && (HasKey(s.rows, kid) ==> Find(s'.rows, kid) == Find(s.rows, kid))
  {
    var s' := Generate(s, u, extra, g, o).0;
    if s' != s { FindInserted(s.rows, s'.rows[|s.rows|], kid); }
  }

  /** A rewrap starts with exactly the keys that are not under its active KEK, in table order, and nothing
      done. */
  lemma StartWork(p: Policy, cc: CacheConfig, s: State, m: Manager)
    ensures var s' := Next(p, cc, s, StartRewrap(m)).0;
            && |s'.rewraps| == |s.rewraps| + 1 && s'.rewraps[..|s.rewraps|] == s.rewraps && s'.rows == s.rows
            && var r := s'.rewraps[|s.rewraps|];
            && r.kek == m && r.done == r.rewrapped == r.skipped == 0 && InOrder(r.work, s.rows)
            && forall row :: row in r.work <==> row in s.rows && row.embeddingKeyId != m.active.kid
  {
    OtherKekRows(s.rows, m.active.kid);
  }

  // ---- nothing is restored, nothing is lost ----

  /** A key that was revoked or swept never comes back, whatever rewraps and edits are still under way. */
  lemma {:induction false} NeverRestored(p: Policy, cc: CacheConfig, s: State, es: seq<Step>, kid: Kid)
    requires Inv(s) && RunOk(p, cc, s, es) && kid in s.born && !HasKey(s.rows, kid)
    ensures !HasKey(StateAfter(p, cc, s, es).rows, kid)
  {
    if es != [] {
      var n := |es| - 1;
      RunOkPrefix(p, cc, s, es);
      NeverRestored(p, cc, s, es[..n], kid);
      RunKeepsInv(p, cc, s, es[..n]);
      RowStep(p, cc, StateAfter(p, cc, s, es[..n]), es[n], kid);
    }
  }

  lemma {:induction false} StaysKnown(p: Policy, cc: CacheConfig, s: State, es: seq<Step>, kid: Kid, keks: set<KekId>)
    requires Inv(s) && RunOk(p, cc, s, es) && RunWrapsInto(p, cc, s, es, keks)
    requires HasKey(s.rows, kid) && Find(s.rows, kid).value.embeddingKeyId in keks
    requires HasKey(StateAfter(p, cc, s, es).rows, kid)
    ensures Find(StateAfter(p, cc, s, es).rows, kid).value.embeddingKeyId in keks
  {
    assert RowOk(s.born, Find(s.rows, kid).value);
    if es != [] {
      var n := |es| - 1;
      var t := StateAfter(p, cc, s, es[..n]);
      RunOkPrefix(p, cc, s, es);
      PrefixInto(p, cc, s, es, keks);
      RunKeepsInv(p, cc, s, es[..n]);
      RowStep(p, cc, t, es[n], kid);
      StaysKnown(p, cc, s, es[..n], kid, keks);
      assert WrapsInto(t, es[n], keks);
    }
  }

  /** Rotation is crash-safe beside a live server: if every iteration that runs, of any rewrap, wraps into
      a KEK that the manager knows, then at every moment each key that it could extract before, and that
      is still there, extracts to the same secret. */
  lemma RotationSafe(p: Policy, cc: CacheConfig, s: State, es: seq<Step>, kid: Kid, m: Manager)
    requires Inv(s) && RunOk(p, cc, s, es) && ManagerOk(m) && RunWrapsInto(p, cc, s, es, m.byId.Keys)
    requires HasKey(s.rows, kid) && HasKey(StateAfter(p, cc, s, es).rows, kid)
    requires ExtractRow(m, Find(s.rows, kid).value).Ok?
    ensures ExtractRow(m, Find(StateAfter(p, cc, s, es).rows, kid).value) == ExtractRow(m, Find(s.rows, kid).value)
  {
    SecretImmutable(p, cc, s, es, kid, m, m);
    StaysKnown(p, cc, s, es, kid, m.byId.Keys);
  }

  // ---- completion ----

  ghost predicate Ahead(r: Rewrap, kid: Kid) { exists j :: r.done <= j < |r.work| && r.work[j].keyId == kid }

  /** As long as nothing was skipped, every key not yet under the new KEK is still ahead in the work list. */
  ghost predicate OnTrack(s: State, i: nat, kek: KekId) {
    i < |s.rewraps| && s.rewraps[i].kek.active.kid == kek
    && (s.rewraps[i].skipped == 0 ==>
          forall k :: HasKey(s.rows, k) && Find(s.rows, k).value.embeddingKeyId != kek ==> Ahead(s.rewraps[i], k))
  }

  lemma StartOnTrack(p: Policy, cc: CacheConfig, s: State, m: Manager)
    requires Inv(s)
    ensures OnTrack(Next(p, cc, s, StartRewrap(m)).0, |s.rewraps|, m.active.kid)
  {
    var s' := Next(p, cc, s, StartRewrap(m)).0;
    var r := s'.rewraps[|s.rewraps|];
    OtherKekRows(s.rows, m.active.kid);
    forall k | HasKey(s.rows, k) && Find(s.rows, k).value.embeddingKeyId != m.active.kid ensures Ahead(r, k) {
      var j :| 0 <= j < |r.work| && r.work[j] == Find(s.rows, k).value;
      assert r.work[j].keyId == k;
    }
  }

  lemma IterationOnTrack(s: State, i: nat, j: nat, nonce: nat, kek: KekId, k: Kid)
    requires Inv(s) && OnTrack(s, i, kek)
    requires j < |s.rewraps| && s.rewraps[j].done < |s.rewraps[j].work| && s.rewraps[j].kek.active.kid == kek
    requires var (rows, r) := RewrapIteration(s, s.rewraps[j], nonce);
             HasKey(rows, k) && Find(rows, k).value.embeddingKeyId != kek
             && (if i == j then r else s.rewraps[i]).skipped == 0
    ensures var (rows, r) := RewrapIteration(s, s.rewraps[j], nonce); Ahead(if i == j then r else s.rewraps[i], k)
  {
    RewrapRowStep(s, j, nonce, k);
    assert Ahead(s.rewraps[i], k);
    var (rows, r) := RewrapIteration(s, s.rewraps[j], nonce);
    if i == j {
      var x :| s.rewraps[i].done <= x < |s.rewraps[i].work| && s.rewraps[i].work[x].keyId == k;
      assert x != s.rewraps[i].done;
      assert r.work[x].keyId == k;
    }
  }

  lemma OnTrackStep(p: Policy, cc: CacheConfig, s: State, e: Step, i: nat, kek: KekId)
    requires Inv(s) && StepOk(s, e) && OnTrack(s, i, kek) && WrapsInto(s, e, {kek}) && InsertsInto(s, e, {kek})
    ensures OnTrack(Next(p, cc, s, e).0, i, kek)
  {
    var s' := Next(p, cc, s, e).0;
    if e.NextRewrap? {
      if e.proc < |s.rewraps| && s.rewraps[e.proc].done < |s.rewraps[e.proc].work| && s'.rewraps[i].skipped == 0 {
        forall k | HasKey(s'.rows, k) && Find(s'.rows, k).value.embeddingKeyId != kek ensures Ahead(s'.rewraps[i], k) {
          IterationOnTrack(s, i, e.proc, e.nonce, kek, k);
        }
      }
    } else {
      RewrapsStand(p, cc, s, e, i);
      forall k | HasKey(s'.rows, k) && Find(s'.rows, k).value.embeddingKeyId != kek
        ensures HasKey(s.rows, k) && Find(s.rows, k).value.embeddingKeyId != kek
      {
        OldKey(p, cc, s, e, kek, k);
      }
    }
  }

  lemma RewrapsStand(p: Policy, cc: CacheConfig, s: State, e: Step, i: nat)
    requires !e.NextRewrap? && i < |s.rewraps|
    ensures i < |Next(p, cc, s, e).0.rewraps| && Next(p, cc, s, e).0.rewraps[i] == s.rewraps[i]
  {
  }

  /** A key found off the new KEK after a step that is no rewrap was there before, on the same KEK. */
  lemma OldKey(p: Policy, cc: CacheConfig, s: State, e: Step, kek: KekId, k: Kid)
    requires Inv(s) && StepOk(s, e) && InsertsInto(s, e, {kek}) && !e.NextRewrap?
    requires HasKey(Next(p, cc, s, e).0.rows, k) && Find(Next(p, cc, s, e).0.rows, k).value.embeddingKeyId != kek
    ensures HasKey(s.rows, k) && Find(s.rows, k).value.embeddingKeyId != kek
  {
    if e.Api? && e.req.GenerateKey? {
      GenerateRowStep(s, e.user, e.req.extra, e.req.gen, e.oracle, k);
    } else {
      StepKeepsInv(p, cc, s, e);
      assert RowOk(Next(p, cc, s, e).0.born, Find(Next(p, cc, s, e).0.rows, k).value);
      BornStands(p, cc, s, e);
      RowStep(p, cc, s, e, k);
    }
  }

  lemma BornStands(p: Policy, cc: CacheConfig, s: State, e: Step)
    requires !(e.Api? && e.req.GenerateKey?)
    ensures Next(p, cc, s, e).0.born == s.born
  {
  }

  lemma {:induction false} RunOnTrack(p: Policy, cc: CacheConfig, s: State, es: seq<Step>, i: nat, kek: KekId)
    requires Inv(s) && RunOk(p, cc, s, es) && OnTrack(s, i, kek)
    requires RunWrapsInto(p, cc, s, es, {kek}) && RunInsertsInto(p, cc, s, es, {kek})
    ensures OnTrack(StateAfter(p, cc, s, es), i, kek)
  {
    if es != [] {
      var n := |es| - 1;
      RunOkPrefix(p, cc, s, es);
      PrefixInto(p, cc, s, es, {kek});
      RunOnTrack(p, cc, s, es[..n], i, kek);
      RunKeepsInv(p, cc, s, es[..n]);
      OnTrackStep(p, cc, StateAfter(p, cc, s, es[..n]), es[n], i, kek);
    }
  }

  /** Rotation completes beside a live server: when a rewrap has gone through its work list and skipped
      nothing, while no key was inserted and no other rewrap wrote under another KEK, a second run has an
      empty work list and the active KEK alone extracts every key. */
  lemma RotationComplete(p: Policy, cc: CacheConfig, s: State, m: Manager, s1: State, es: seq<Step>, alone: Manager)
    requires Inv(s) && ManagerOk(m) && ManagerOk(alone) && alone.active == m.active
    requires s1 == Next(p, cc, s, StartRewrap(m)).0 && RunOk(p, cc, s1, es)
    requires RunWrapsInto(p, cc, s1, es, {m.active.kid}) && RunInsertsInto(p, cc, s1, es, {m.active.kid})
    ensures var s' := StateAfter(p, cc, s1, es);
            && |s'.rewraps| > |s.rewraps|
            && var r := s'.rewraps[|s.rewraps|];
            && r.rewrapped + r.skipped == r.done <= |r.work|
            && (r.done == |r.work| && r.skipped == 0 ==>
                  NotEmbeddedWith(s'.rows, m.active.kid) == []
                  && forall row :: row in s'.rows ==> row.keyId in s'.born
                                                      && ExtractRow(alone, row) == Ok(s'.born[row.keyId].secret))
  {
    var s' := StateAfter(p, cc, s1, es);
    StepKeepsInv(p, cc, s, StartRewrap(m));
    StartOnTrack(p, cc, s, m);
    RunOnTrack(p, cc, s1, es, |s.rewraps|, m.active.kid);
    RunKeepsInv(p, cc, s1, es);
    var r := s'.rewraps[|s.rewraps|];
    assert RewrapOk(s'.born, r);
    if r.done == |r.work| && r.skipped == 0 {
      forall row | row in s'.rows
        ensures row.embeddingKeyId == m.active.kid && row.keyId in s'.born
                && ExtractRow(alone, row) == Ok(s'.born[row.keyId].secret)
      {
        FindMember(s'.rows, row);
        assert RowOk(s'.born, row);
        RowSecret(s'.born, row, alone);
      }
      NothingLeft(s'.rows, m.active.kid);
    }
  }
}
