/** The ACL that generate-key stores: the submitted one merged with the caller as owner, or the default
    of the caller and the co-owners. */
module GenerateAcl {
  import opened Text
  import opened Acl

  // ---- an explicit ACL ----

  /** Position of the first member that names the caller in any case; the length when none does. */
  function FirstSelf(self: string, ms: seq<Member>): (k: nat)
    ensures k <= |ms| && (k < |ms| ==> ToLower(ms[k].key) == self)
    ensures forall i :: 0 <= i < k ==> ToLower(ms[i].key) != self
  {
    if ms == [] || ToLower(ms[0].key) == self then 0 else 1 + FirstSelf(self, ms[1..])
  }

  function SelfOps(self: string, ms: seq<Member>): Option<seq<string>> {
    var k := FirstSelf(self, ms);
    if k < |ms| then ms[k].ops else Some([])
  }

  function WithoutFirstSelf(self: string, ms: seq<Member>): seq<Member> {
    var k := FirstSelf(self, ms);
    if k < |ms| then ms[..k] + ms[k + 1..] else ms
  }

  function WithOwner(ops: seq<string>): (r: seq<string>)
    ensures "owner" in r && forall op :: op in r <==> op in ops || op == "owner"
  {
    if "owner" in ops then ops else ops + ["owner"]
  }

  /** Assignment to an object property: in place when the key is present, otherwise at the end. */
  function Assign(ms: seq<Member>, key: string, ops: Option<seq<string>>): seq<Member> {
    if ms == [] then [Member(key, ops)]
    else if ms[0].key == key then [Member(key, ops)] + ms[1..]
    else [ms[0]] + Assign(ms[1..], key, ops)
  }

  function Merged(self: string, ms: seq<Member>): seq<Member>
    requires SelfOps(self, ms).Some?
  {
    Assign(WithoutFirstSelf(self, ms), self, Some(WithOwner(SelfOps(self, ms).value)))
  }

  function ExplicitAcl(self: string, acl: AclInput): Result<Grants, AclError> {
    if acl.NotObject? then Err(NotAnObject)
    else if SelfOps(self, acl.members).None? then Err(OpsNotArray)
    else Validated(Object(Merged(self, acl.members)))
  }

  method MergeCaller(self: string, acl: AclInput) returns (r: Result<Grants, AclError>)
    ensures r == ExplicitAcl(self, acl)
  {
    if acl.NotObject? { return Err(NotAnObject); }
    var merged := acl.members;
    var selfKey := FirstSelf(self, merged);
    var selfOps := Some([]);
    if selfKey < |merged| {
      selfOps := merged[selfKey].ops;
      merged := merged[..selfKey] + merged[selfKey + 1..];
    }
    if selfOps.None? { return Err(OpsNotArray); }
    merged := Assign(merged, self, Some(selfOps.value + if "owner" in selfOps.value then [] else ["owner"]));
    assert selfOps.value + [] == selfOps.value;
    r := ValidateAcl(Object(merged));
  }

  predicate DistinctKeys(ms: seq<Member>) {
    forall i, j :: 0 <= i < j < |ms| ==> ms[i].key != ms[j].key
  }

  // ---- assignment to an object ----

  lemma {:induction false} AssignMembers(ms: seq<Member>, key: string, ops: Option<seq<string>>)
    requires DistinctKeys(ms)
    ensures forall m :: m in Assign(ms, key, ops) <==> (m in ms && m.key != key) || m == Member(key, ops)
  {
    if ms != [] {
      assert ms == [ms[0]] + ms[1..];
      assert DistinctKeys(ms[1..]) by { assert forall i :: 0 <= i < |ms| - 1 ==> ms[1..][i] == ms[i + 1]; }
      if ms[0].key == key {
        forall m | m in ms[1..] ensures m.key != key {
          var i :| 0 <= i < |ms| - 1 && ms[1..][i] == m;
          assert ms[i + 1] == m;
        }
      } else {
        AssignMembers(ms[1..], key, ops);
      }
    }
  }

  lemma RemovedMembers(ms: seq<Member>, k: nat)
    requires k < |ms|
    ensures var rest := ms[..k] + ms[k + 1..];
            forall m :: m in rest <==> exists i :: 0 <= i < |ms| && i != k && ms[i] == m
    ensures DistinctKeys(ms) ==> DistinctKeys(ms[..k] + ms[k + 1..])
  {
    var rest := ms[..k] + ms[k + 1..];
    forall i | 0 <= i < |rest| ensures rest[i] == ms[if i < k then i else i + 1] {}
    forall i | 0 <= i < |ms| && i != k ensures ms[i] in rest {
      assert rest[if i < k then i else i - 1] == ms[i];
    }
  }

  lemma RestMembers(self: string, ms: seq<Member>)
    requires DistinctKeys(ms)
    ensures var rest := WithoutFirstSelf(self, ms); var k := FirstSelf(self, ms);
            DistinctKeys(rest) && (forall m :: m in rest <==> exists i :: 0 <= i < |ms| && i != k && ms[i] == m)
  {
    if FirstSelf(self, ms) < |ms| { RemovedMembers(ms, FirstSelf(self, ms)); }
  }

  /** The merged object holds the caller's own entry and every other member but the caller's. */
  lemma MergedMembers(self: string, ms: seq<Member>)
    requires DistinctKeys(ms) && SelfOps(self, ms).Some?
    ensures var k := FirstSelf(self, ms);
            forall m :: m in Merged(self, ms) <==>
              (m.key != self && exists i :: 0 <= i < |ms| && i != k && ms[i] == m)
              || m == Member(self, Some(WithOwner(SelfOps(self, ms).value)))
  {
    RestMembers(self, ms);
    AssignMembers(WithoutFirstSelf(self, ms), self, Some(WithOwner(SelfOps(self, ms).value)));
  }

  /** In an accepted list a user is named once, so its grants are those of that member. */
  lemma GrantsOf(ms: seq<Member>, m: Member)
    requires Validated(Object(ms)).Ok? && m in ms
    ensures var g := Validated(Object(ms)).value;
            MemberOk(m) && ToLower(m.key) in g && g[ToLower(m.key)] == Dedup(m.ops.value)
  {
    ValidatedExactly(Object(ms));
    var i :| 0 <= i < |ms| && ms[i] == m;
    assert MemberOk(ms[i]);
  }

  lemma NamedOnce(ms: seq<Member>, m: Member, n: Member)
    requires Validated(Object(ms)).Ok? && m in ms && n in ms && ToLower(n.key) == ToLower(m.key)
    ensures n == m
  {
    AcceptedDistinct(ms);
    var i :| 0 <= i < |ms| && ms[i] == m;
    var j :| 0 <= j < |ms| && ms[j] == n;
    assert i == j;
  }

  lemma AcceptedDistinct(ms: seq<Member>)
    requires Validated(Object(ms)).Ok?
    ensures DistinctUsers(ms)
  {
    ValidatedExactly(Object(ms));
  }

  function CallerMember(self: string, ms: seq<Member>): Member
    requires SelfOps(self, ms).Some?
  {
    Member(self, Some(WithOwner(SelfOps(self, ms).value)))
  }

  /** The caller is an owner, on top of what its first own entry grants. */
  lemma CallerGrants(self: string, ms: seq<Member>)
    requires IsLower(self) && DistinctKeys(ms) && ExplicitAcl(self, Object(ms)).Ok?
    ensures var g := ExplicitAcl(self, Object(ms)).value;
            self in g && g[self] == Dedup(WithOwner(SelfOps(self, ms).value)) && "owner" in g[self]
  {
    MergedMembers(self, ms);
    assert CallerMember(self, ms) in Merged(self, ms);
    GrantsOf(Merged(self, ms), CallerMember(self, ms));
  }

  /** Everyone else keeps the submitted classes. */
  lemma OtherGrants(self: string, ms: seq<Member>, i: nat)
    requires IsLower(self) && DistinctKeys(ms) && ExplicitAcl(self, Object(ms)).Ok?
    requires i < |ms| && ToLower(ms[i].key) != self
    ensures var g := ExplicitAcl(self, Object(ms)).value;
            MemberOk(ms[i]) && ToLower(ms[i].key) in g && g[ToLower(ms[i].key)] == Dedup(ms[i].ops.value)
  {
    MergedMembers(self, ms);
    assert ms[i] in Merged(self, ms);
    GrantsOf(Merged(self, ms), ms[i]);
  }

  /** Nobody else is granted anything. */
  lemma NoOtherUser(self: string, ms: seq<Member>, u: string)
    requires IsLower(self) && DistinctKeys(ms) && ExplicitAcl(self, Object(ms)).Ok?
    requires u in ExplicitAcl(self, Object(ms)).value && u != self
    ensures exists i :: 0 <= i < |ms| && ToLower(ms[i].key) == u
  {
    var merged := Merged(self, ms);
    MergedMembers(self, ms);
    ValidatedExactly(Object(merged));
    var j :| 0 <= j < |merged| && ToLower(merged[j].key) == u;
    assert merged[j] in merged && merged[j] != CallerMember(self, ms);
  }

  /** An accepted explicit ACL is well formed, makes the caller an owner on top of its first own entry,
      keeps the deduplicated grants of everyone else, and grants nobody else anything. */
  lemma ExplicitGrants(self: string, ms: seq<Member>)
    requires IsUuid(self) && IsLower(self) && DistinctKeys(ms) && ExplicitAcl(self, Object(ms)).Ok?
    ensures var g := ExplicitAcl(self, Object(ms)).value;
      && WellFormed(g)
      && self in g && g[self] == Dedup(WithOwner(SelfOps(self, ms).value)) && "owner" in g[self]
      && (forall i :: 0 <= i < |ms| && ToLower(ms[i].key) != self ==>
            MemberOk(ms[i]) && ToLower(ms[i].key) in g && g[ToLower(ms[i].key)] == Dedup(ms[i].ops.value))
      && (forall u :: u in g && u != self ==> exists i :: 0 <= i < |ms| && ToLower(ms[i].key) == u)
  {
    var g := ExplicitAcl(self, Object(ms)).value;
    ValidatedWellFormed(Object(Merged(self, ms)));
    CallerGrants(self, ms);
    forall i | 0 <= i < |ms| && ToLower(ms[i].key) != self
      ensures MemberOk(ms[i]) && ToLower(ms[i].key) in g && g[ToLower(ms[i].key)] == Dedup(ms[i].ops.value)
    {
      OtherGrants(self, ms, i);
    }
    forall u | u in g && u != self ensures exists i :: 0 <= i < |ms| && ToLower(ms[i].key) == u {
      NoOtherUser(self, ms, u);
    }
  }

  // ---- which submitted ACLs are accepted ----

  /** Position of the caller's first own entry, in any case; none if it has no entry. */
  predicate IsFirstOwn(self: string, ms: seq<Member>, k: int) {
    0 <= k < |ms| && ToLower(ms[k].key) == self && forall i :: 0 <= i < k ==> ToLower(ms[i].key) != self
  }

  /** The entries that stay beside the caller's: all but its first own one, and but one spelled exactly like
      the caller, which is overwritten. */
  predicate IsOther(self: string, ms: seq<Member>, i: int) {
    0 <= i < |ms| && !IsFirstOwn(self, ms, i) && ms[i].key != self
  }

  /** What generate-key accepts: the caller's first own entry, if any, is a list of known classes; the other
      entries have UUID users and lists of known classes, are for users distinct up to case, and none of them
      is another spelling of the caller. */
  ghost predicate Acceptable(self: string, ms: seq<Member>) {
    && (forall k :: IsFirstOwn(self, ms, k) ==> ms[k].ops.Some? && Known(ms[k].ops.value))
    && (forall i :: IsOther(self, ms, i) ==>
          IsUuid(ms[i].key) && ms[i].ops.Some? && Known(ms[i].ops.value) && ToLower(ms[i].key) != self)
    && (forall i, j :: IsOther(self, ms, i) && IsOther(self, ms, j) && i != j ==>
          ToLower(ms[i].key) != ToLower(ms[j].key))
  }

  lemma FirstOwnIs(self: string, ms: seq<Member>, k: int)
    ensures IsFirstOwn(self, ms, k) <==> k == FirstSelf(self, ms) < |ms|
  {
  }

  lemma {:induction false} AssignDistinct(ms: seq<Member>, key: string, ops: Option<seq<string>>)
    requires DistinctKeys(ms)
    ensures DistinctKeys(Assign(ms, key, ops))
  {
    if ms != [] && ms[0].key != key {
      var rest := ms[1..];
      assert forall i :: 0 <= i < |rest| ==> rest[i] == ms[i + 1];
      AssignDistinct(rest, key, ops);
      AssignMembers(rest, key, ops);
      var placed := Assign(rest, key, ops);
      forall j | 0 <= j < |placed| ensures placed[j].key != ms[0].key {
        assert placed[j] in placed;
        if placed[j] in rest { var i :| 0 <= i < |rest| && rest[i] == placed[j]; }
      }
    }
  }

  lemma OthersMerged(self: string, ms: seq<Member>, m: Member)
    requires DistinctKeys(ms) && SelfOps(self, ms).Some?
    ensures m in Merged(self, ms) <==>
              m == CallerMember(self, ms) || exists i :: IsOther(self, ms, i) && ms[i] == m
  {
    MergedMembers(self, ms);
    var k := FirstSelf(self, ms);
    forall i | 0 <= i < |ms| ensures IsOther(self, ms, i) <==> i != k && ms[i].key != self { FirstOwnIs(self, ms, i); }
  }

  lemma MergedDistinct(self: string, ms: seq<Member>)
    requires DistinctKeys(ms) && SelfOps(self, ms).Some?
    ensures DistinctKeys(Merged(self, ms))
  {
    RestMembers(self, ms);
    AssignDistinct(WithoutFirstSelf(self, ms), self, Some(WithOwner(SelfOps(self, ms).value)));
  }

  lemma AcceptableMerges(self: string, ms: seq<Member>)
    requires IsUuid(self) && IsLower(self) && DistinctKeys(ms) && Acceptable(self, ms)
    ensures SelfOps(self, ms).Some? && Accepted(Merged(self, ms)) && HasOwner(Merged(self, ms))
  {
    FirstOwnIs(self, ms, FirstSelf(self, ms));
    var merged := Merged(self, ms);
    MergedDistinct(self, ms);
    forall a | 0 <= a < |merged| ensures MemberOk(merged[a]) {
      assert merged[a] in merged;
      OthersMerged(self, ms, merged[a]);
    }
    forall a, b | 0 <= a < b < |merged| ensures ToLower(merged[a].key) != ToLower(merged[b].key) {
      assert merged[a] in merged && merged[b] in merged;
      OthersMerged(self, ms, merged[a]);
      OthersMerged(self, ms, merged[b]);
      OthersApart(self, ms, merged[a], merged[b]);
    }
    OthersMerged(self, ms, CallerMember(self, ms));
    var c :| 0 <= c < |merged| && merged[c] == CallerMember(self, ms);
    assert merged[c].ops.Some? && "owner" in merged[c].ops.value;
  }

  lemma OthersApart(self: string, ms: seq<Member>, m: Member, n: Member)
    requires IsLower(self) && Acceptable(self, ms) && SelfOps(self, ms).Some? && m.key != n.key
    requires m == CallerMember(self, ms) || exists i :: IsOther(self, ms, i) && ms[i] == m
    requires n == CallerMember(self, ms) || exists i :: IsOther(self, ms, i) && ms[i] == n
    ensures ToLower(m.key) != ToLower(n.key)
  {
  }

  lemma MergedAccepts(self: string, ms: seq<Member>)
    requires IsUuid(self) && IsLower(self) && DistinctKeys(ms) && SelfOps(self, ms).Some?
    requires Validated(Object(Merged(self, ms))).Ok?
    ensures Acceptable(self, ms)
  {
    var merged, k := Merged(self, ms), FirstSelf(self, ms);
    OthersMerged(self, ms, CallerMember(self, ms));
    GrantsOf(merged, CallerMember(self, ms));
    forall i | IsFirstOwn(self, ms, i) ensures ms[i].ops.Some? && Known(ms[i].ops.value) {
      FirstOwnIs(self, ms, i);
      assert ms[i].ops == SelfOps(self, ms);
      forall op | op in ms[i].ops.value ensures op in OP_CLASSES { assert op in WithOwner(ms[i].ops.value); }
    }
    forall i | IsOther(self, ms, i)
      ensures IsUuid(ms[i].key) && ms[i].ops.Some? && Known(ms[i].ops.value) && ToLower(ms[i].key) != self
    {
      OthersMerged(self, ms, ms[i]);
      GrantsOf(merged, ms[i]);
      if ToLower(ms[i].key) == self { NamedOnce(merged, CallerMember(self, ms), ms[i]); }
    }
    forall i, j | IsOther(self, ms, i) && IsOther(self, ms, j) && i != j
      ensures ToLower(ms[i].key) != ToLower(ms[j].key)
    {
      OthersMerged(self, ms, ms[i]);
      OthersMerged(self, ms, ms[j]);
      if ToLower(ms[i].key) == ToLower(ms[j].key) { NamedOnce(merged, ms[i], ms[j]); }
    }
  }

  /** generate-key accepts exactly the acceptable ACLs. In particular one that does not name the caller. */
  lemma AcceptedIff(self: string, ms: seq<Member>)
    requires IsUuid(self) && IsLower(self) && DistinctKeys(ms)
    ensures ExplicitAcl(self, Object(ms)).Ok? <==> Acceptable(self, ms)
  {
    if Acceptable(self, ms) {
      AcceptableMerges(self, ms);
      ValidatedExactly(Object(Merged(self, ms)));
    } else if ExplicitAcl(self, Object(ms)).Ok? {
      MergedAccepts(self, ms);
    }
  }

  /** An entry of the caller, spelled in lower case, that follows another spelling of the caller. */
  predicate Shadowed(self: string, ms: seq<Member>, j: nat) {
    j < |ms| && ms[j].key == self && FirstSelf(self, ms) < j
  }

  /** The classes of one member are all granted. */
  ghost predicate Kept(m: Member, g: Grants) {
    m.ops.Some? && ToLower(m.key) in g && forall op :: op in m.ops.value ==> op in g[ToLower(m.key)]
  }

  /** Every submitted class is granted. */
  ghost predicate KeepsAll(ms: seq<Member>, g: Grants) { forall i :: 0 <= i < |ms| ==> Kept(ms[i], g) }

  /** A shadowed entry that asks for nothing beyond the caller's first entry. */
  ghost predicate Redundant(self: string, ms: seq<Member>, j: nat)
    requires j < |ms| && SelfOps(self, ms).Some?
  {
    ms[j].ops.Some? && forall op :: op in ms[j].ops.value ==> op in WithOwner(SelfOps(self, ms).value)
  }

  /** A shadowed entry is silently overwritten, not merged and not reported as a duplicate user. So an
      accepted ACL keeps every submitted grant exactly when every shadowed entry is redundant. */
  lemma KeepsAllIffUnshadowed(self: string, ms: seq<Member>)
    requires IsUuid(self) && IsLower(self) && DistinctKeys(ms) && ExplicitAcl(self, Object(ms)).Ok?
    ensures KeepsAll(ms, ExplicitAcl(self, Object(ms)).value) <==>
            forall j: nat :: Shadowed(self, ms, j) ==> Redundant(self, ms, j)
  {
    var g := ExplicitAcl(self, Object(ms)).value;
    forall i: nat | i < |ms| ensures Kept(ms[i], g) <==> (Shadowed(self, ms, i) ==> Redundant(self, ms, i)) {
      KeptIff(self, ms, i);
    }
  }

  lemma KeptIff(self: string, ms: seq<Member>, i: nat)
    requires IsUuid(self) && IsLower(self) && DistinctKeys(ms) && ExplicitAcl(self, Object(ms)).Ok? && i < |ms|
    ensures Kept(ms[i], ExplicitAcl(self, Object(ms)).value) <==> (Shadowed(self, ms, i) ==> Redundant(self, ms, i))
  {
    if ToLower(ms[i].key) != self {
      OtherGrants(self, ms, i);
    } else {
      CallerGrants(self, ms);
      if i != FirstSelf(self, ms) { OtherSpelling(self, ms, i); }
    }
  }

  lemma OtherSpelling(self: string, ms: seq<Member>, i: nat)
    requires IsUuid(self) && IsLower(self) && DistinctKeys(ms) && ExplicitAcl(self, Object(ms)).Ok?
    requires i < |ms| && ToLower(ms[i].key) == self && i != FirstSelf(self, ms)
    ensures ms[i].key == self
  {
    var merged := Merged(self, ms);
    MergedMembers(self, ms);
    assert CallerMember(self, ms) in merged;
    assert ms[i].key != self ==> ms[i] in merged;
    if ms[i].key != self { NamedOnce(merged, ms[i], CallerMember(self, ms)); }
  }

  /** The caller's second entry, not even an array, disappears without an error. */
  lemma ShadowedExample(self: string, upper: string)
    requires IsUuid(self) && IsLower(self) && IsUuid(upper) && ToLower(upper) == self && upper != self
    ensures ExplicitAcl(self, Object([Member(upper, Some(["sign"])), Member(self, None)]))
            == Ok(map[self := ["sign", "owner"]])
  {
    var ms := [Member(upper, Some(["sign"])), Member(self, None)];
    assert ms[0].key == upper && FirstSelf(self, ms) == 0;
    assert ms[..0] + ms[1..] == [Member(self, None)];
    assert WithOwner(["sign"]) == ["sign", "owner"] by { assert "sign" != "owner"; }
    assert Merged(self, ms) == [Member(self, Some(["sign", "owner"]))];
    SingleOwner(self);
  }

  lemma SingleOwner(self: string)
    requires IsUuid(self) && IsLower(self)
    ensures Validated(Object([Member(self, Some(["sign", "owner"]))])) == Ok(map[self := ["sign", "owner"]])
  {
    var me := Member(self, Some(["sign", "owner"]));
    var g: Grants := map[self := ["sign", "owner"]];
    assert [me][0] == me && Lists([me], g);
    assert OP_CLASSES[3] == "sign" && OP_CLASSES[0] == "owner" && "sign" != "owner";
    assert g[self][1] == "owner";
    WellFormedIsFixpoint([me], g);
  }

  // ---- the default ACL ----

  /** The syntactic UUIDs among the configured co-owners, in lower case, without the caller. */
  function Candidates(self: string, co: seq<JsValue>): (cs: seq<string>)
    ensures NoDup(cs)
    ensures forall u :: u in cs ==> IsUuid(u) && IsLower(u) && u != self
    ensures forall u :: u in cs <==>
              u != self && exists i :: 0 <= i < |co| && co[i].JsString? && IsUuid(co[i].s) && ToLower(co[i].s) == u
  {
    if co == [] then []
    else
      var n := |co| - 1;
      var cs := Candidates(self, co[..n]);
      assert forall i :: 0 <= i < n ==> co[..n][i] == co[i];
      if co[n].JsString? && IsUuid(co[n].s) && ToLower(co[n].s) != self && ToLower(co[n].s) !in cs
      then UuidLower(co[n].s); cs + [ToLower(co[n].s)]
      else cs
  }

  function Existing(cs: seq<string>, users: set<string>): (r: seq<string>)
    ensures forall u :: u in r <==> u in cs && u in users
    ensures NoDup(cs) ==> NoDup(r)
  {
    if cs == [] then []
    else
      var n := |cs| - 1;
      assert forall i :: 0 <= i < n ==> cs[..n][i] == cs[i];
      assert cs == cs[..n] + [cs[n]];
      if cs[n] in users then Existing(cs[..n], users) + [cs[n]] else Existing(cs[..n], users)
  }

  function Owners(us: seq<string>): seq<Member> {
    seq(|us|, i requires 0 <= i < |us| => Member(us[i], Some(["owner"])))
  }

  function DefaultAcl(self: string, co: seq<JsValue>, users: set<string>): Result<Grants, AclError> {
    Validated(Object(Owners([self] + Existing(Candidates(self, co), users))))
  }

  method BuildDefault(self: string, co: seq<JsValue>, users: set<string>) returns (r: Result<Grants, AclError>)
    ensures r == DefaultAcl(self, co, users)
  {
    var coOwners := Existing(Candidates(self, co), users);
    ghost var all := [self] + coOwners;
    var aclObj := [Member(self, Some(["owner"]))];
    for i := 0 to |coOwners|
      invariant aclObj == Owners(all[..i + 1])
    {
      assert coOwners[i] != self && coOwners[i] !in all[..i + 1] by {
        assert coOwners[i] in coOwners;
        assert forall j :: 0 <= j <= i ==> all[j] == if j == 0 then self else coOwners[j - 1];
      }
      aclObj := Put(aclObj, all[..i + 1], coOwners[i]);
      assert all[..i + 2] == all[..i + 1] + [coOwners[i]];
    }
    assert all[..|coOwners| + 1] == all;
    r := ValidateAcl(Object(aclObj));
  }

  /** Property assignment of an owner entry for a user not yet present. */
  method Put(aclObj: seq<Member>, ghost us: seq<string>, u: string) returns (r: seq<Member>)
    requires aclObj == Owners(us) && u !in us
    ensures r == Owners(us + [u])
  {
    r := Assign(aclObj, u, Some(["owner"]));
    AssignFresh(aclObj, u, Some(["owner"]));
  }

  lemma {:induction false} AssignFresh(ms: seq<Member>, key: string, ops: Option<seq<string>>)
    requires forall i :: 0 <= i < |ms| ==> ms[i].key != key
    ensures Assign(ms, key, ops) == ms + [Member(key, ops)]
  {
    if ms != [] { AssignFresh(ms[1..], key, ops); }
  }

  /** Without an `acl`, owner goes to exactly the caller and the existing valid co-owners; the
      validation cannot fail. */
  lemma DefaultGrants(self: string, co: seq<JsValue>, users: set<string>)
    requires IsUuid(self) && IsLower(self)
    ensures DefaultAcl(self, co, users).Ok?
    ensures var g := DefaultAcl(self, co, users).value;
      && WellFormed(g)
      && (forall u :: u in g ==> g[u] == ["owner"])
      && (forall u :: u in g <==> (u == self
            || (u in users
                && exists i :: 0 <= i < |co| && co[i].JsString? && IsUuid(co[i].s) && ToLower(co[i].s) == u)))
  {
    var us := [self] + Existing(Candidates(self, co), users);
    assert NoDup(us) && forall u :: u in us ==> IsUuid(u) && IsLower(u);
    var g: Grants := map u | u in us :: ["owner"];
    OwnersList(us, g);
    assert self in us && g[self] == ["owner"];
    WellFormedIsFixpoint(Owners(us), g);
  }

  lemma OwnersList(us: seq<string>, g: Grants)
    requires NoDup(us) && g == (map u | u in us :: ["owner"])
    ensures Lists(Owners(us), g)
  {
    forall u | u in g ensures exists i :: 0 <= i < |Owners(us)| && Owners(us)[i].key == u {
      var i :| 0 <= i < |us| && us[i] == u;
      assert Owners(us)[i].key == u;
    }
  }
}
