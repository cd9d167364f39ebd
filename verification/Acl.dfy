/** acl.js: key ACLs and the per-user capability mask. */
module Acl {
  import opened Text

  datatype Result<+T, +E> = Ok(value: T) | Err(error: E)

  const KEY_OP_CLASSES: seq<string> :=
    ["encrypt", "decrypt", "sign", "verify", "export-public-key", "export-secret-key", "revoke-key"]
  const OP_CLASSES: seq<string> := ["owner"] + KEY_OP_CLASSES

  /** A stored ACL: the operation classes of each user. */
  type Grants = map<string, seq<string>>

  /** One member of a submitted JSON object; `ops` is None when the value is not an array. An array
      element that is not a string is as unknown as any other text outside the classes. */
  datatype Member = Member(key: string, ops: Option<seq<string>>)

  datatype AclInput = NotObject | Object(members: seq<Member>)

  datatype AclError = NotAnObject | NotUuid | DuplicateUser | OpsNotArray | UnknownClass | NoOwner | UnknownUser

  predicate IsHexAnyCase(c: char) { IsHexDigit(LowerChar(c)) }

  predicate IsUuid(s: string) {
    |s| == 36 && forall i :: 0 <= i < 36 ==>
      if i == 8 || i == 13 || i == 18 || i == 23 then s[i] == '-' else IsHexAnyCase(s[i])
  }

  predicate IsLower(s: string) { ToLower(s) == s }

  predicate NoDup<T(==)>(s: seq<T>) { forall i, j :: 0 <= i < j < |s| ==> s[i] != s[j] }

  /** Eight, four, four, four and twelve hexadecimal digits of either case, with dashes between. */
  lemma UuidShape(s: string)
    ensures IsUuid(s) <==>
            |s| == 36 && s[8] == s[13] == s[18] == s[23] == '-'
            && forall i :: 0 <= i < 36 && i !in {8, 13, 18, 23} ==> s[i] in "0123456789abcdefABCDEF"
  {
    forall c: char ensures IsHexAnyCase(c) <==> c in "0123456789abcdefABCDEF" { HexAnyCase(c); }
  }

  lemma HexAnyCase(c: char)
    ensures IsHexAnyCase(c) <==> c in "0123456789abcdefABCDEF"
  {
    var (digits, lower, upper) := ("0123456789", "abcdef", "ABCDEF");
    assert "0123456789abcdefABCDEF" == digits + lower + upper;
    assert IsHexAnyCase(c) <==> c in digits || c in lower || c in upper by {
      if '0' <= c <= '9' { assert digits[c as int - '0' as int] == c; }
      if 'a' <= c <= 'f' { assert lower[c as int - 'a' as int] == c; }
      if 'A' <= c <= 'F' { assert upper[c as int - 'A' as int] == c; }
    }
  }

  lemma KnownIff(ops: seq<string>)
    ensures Known(ops) <==>
            forall op :: op in ops ==>
              op in {"owner", "encrypt", "decrypt", "sign", "verify", "export-public-key", "export-secret-key",
                     "revoke-key"}
  {
  }

  /** The elements in order of first occurrence. */
  function Dedup(ops: seq<string>): (seen: seq<string>)
    ensures NoDup(seen) && forall op :: op in seen <==> op in ops
  {
    if ops == [] then []
    else
      var seen := Dedup(ops[..|ops| - 1]);
      var op := ops[|ops| - 1];
      assert ops == ops[..|ops| - 1] + [op];
      if op in seen then seen else seen + [op]
  }

  predicate Known(ops: seq<string>) { forall op :: op in ops ==> op in OP_CLASSES }

  /** validateAcl over the members from left to right. */
  function Fold(members: seq<Member>, normalized: Grants, owners: nat): Result<Grants, AclError> {
    if members == [] then
      if owners < 1 then Err(NoOwner) else Ok(normalized)
    else
      var m := members[0];
      if !IsUuid(m.key) then Err(NotUuid)
      else if ToLower(m.key) in normalized then Err(DuplicateUser)
      else if m.ops.None? then Err(OpsNotArray)
      else if !Known(m.ops.value) then Err(UnknownClass)
      else
        Fold(members[1..], normalized[ToLower(m.key) := Dedup(m.ops.value)],
             if "owner" in m.ops.value then owners + 1 else owners)
  }

  function Validated(acl: AclInput): Result<Grants, AclError> {
    if acl.NotObject? then Err(NotAnObject) else Fold(acl.members, map[], 0)
  }

  method ValidateAcl(acl: AclInput) returns (r: Result<Grants, AclError>)
    ensures r == Validated(acl)
  {
    if acl.NotObject? { return Err(NotAnObject); }
    var normalized: Grants := map[];
    var owners := 0;
    var ms := acl.members;
    for i := 0 to |ms|
      invariant Validated(acl) == Fold(ms[i..], normalized, owners)
    {
      var m := ms[i];
      assert ms[i..][0] == m && ms[i..][1..] == ms[i + 1..];
      if !IsUuid(m.key) { return Err(NotUuid); }
      var userLc := ToLower(m.key);
      if userLc in normalized { return Err(DuplicateUser); }
      if m.ops.None? { return Err(OpsNotArray); }
      var seen := CollectClasses(m.ops.value);
      if seen.None? { return Err(UnknownClass); }
      if "owner" in seen.value { owners := owners + 1; }
      normalized := normalized[userLc := seen.value];
    }
    if owners < 1 { return Err(NoOwner); }
    return Ok(normalized);
  }

  /** The inner loop of validateAcl; None for an unknown class. */
  method CollectClasses(ops: seq<string>) returns (r: Option<seq<string>>)
    ensures r == if Known(ops) then Some(Dedup(ops)) else None
  {
    var seen := [];
    for i := 0 to |ops|
      invariant Known(ops[..i]) && seen == Dedup(ops[..i])
    {
      if ops[i] !in OP_CLASSES { return None; }
      if ops[i] !in seen { seen := seen + [ops[i]]; }
      assert ops[..i + 1] == ops[..i] + [ops[i]];
      assert ops[..i + 1][..i] == ops[..i];
    }
    assert ops[..|ops|] == ops;
    return Some(seen);
  }

  // ---- what validateAcl accepts and returns ----

  predicate MemberOk(m: Member) { IsUuid(m.key) && m.ops.Some? && Known(m.ops.value) }

  predicate DistinctUsers(ms: seq<Member>) {
    forall i, j :: 0 <= i < j < |ms| ==> ToLower(ms[i].key) != ToLower(ms[j].key)
  }

  predicate HasOwner(ms: seq<Member>) {
    exists i :: 0 <= i < |ms| && ms[i].ops.Some? && "owner" in ms[i].ops.value
  }

  /** `g` grants each listed user exactly its deduplicated classes, and nobody else anything. */
  ghost predicate GrantsExactly(ms: seq<Member>, g: Grants) {
    && (forall i :: 0 <= i < |ms| ==> ms[i].ops.Some? && ToLower(ms[i].key) in g
                                      && g[ToLower(ms[i].key)] == Dedup(ms[i].ops.value))
    && (forall u :: u in g ==> exists i :: 0 <= i < |ms| && ToLower(ms[i].key) == u)
  }

  predicate Accepted(ms: seq<Member>) {
    (forall i :: 0 <= i < |ms| ==> MemberOk(ms[i])) && DistinctUsers(ms)
  }

  lemma AcceptedPrefix(a: seq<Member>, b: seq<Member>)
    requires Accepted(a + b)
    ensures Accepted(a)
  {
    forall i | 0 <= i < |a| ensures a[i] == (a + b)[i] {}
  }

  lemma AcceptedStep(done: seq<Member>, m: Member, g: Grants)
    requires Accepted(done) && GrantsExactly(done, g)
    ensures Accepted(done + [m]) <==> MemberOk(m) && ToLower(m.key) !in g
  {
    var all := done + [m];
    forall i | 0 <= i < |done| ensures all[i] == done[i] {}
    assert all[|done|] == m;
    if ToLower(m.key) in g {
      var i :| 0 <= i < |done| && ToLower(done[i].key) == ToLower(m.key);
      assert ToLower(all[i].key) == ToLower(all[|done|].key);
    }
  }

  lemma GrantsStep(done: seq<Member>, m: Member, g: Grants)
    requires GrantsExactly(done, g) && m.ops.Some? && ToLower(m.key) !in g
    ensures GrantsExactly(done + [m], g[ToLower(m.key) := Dedup(m.ops.value)])
  {
    var all, g' := done + [m], g[ToLower(m.key) := Dedup(m.ops.value)];
    forall i | 0 <= i < |done| ensures all[i] == done[i] {}
    assert all[|done|] == m;
    forall u | u in g' ensures exists i :: 0 <= i < |all| && ToLower(all[i].key) == u {
      if u in g {
        var i :| 0 <= i < |done| && ToLower(done[i].key) == u;
        assert ToLower(all[i].key) == u;
      } else {
        assert ToLower(all[|done|].key) == u;
      }
    }
  }

  lemma {:induction false} FoldExact(ms: seq<Member>, done: seq<Member>, g: Grants, owners: nat)
    requires GrantsExactly(done, g) && Accepted(done)
    requires owners > 0 <==> HasOwner(done)
    ensures Fold(ms, g, owners).Ok? <==> Accepted(done + ms) && HasOwner(done + ms)
    ensures Fold(ms, g, owners).Ok? ==> GrantsExactly(done + ms, Fold(ms, g, owners).value)
  {
    if ms == [] {
      assert done + ms == done;
    } else {
      var m := ms[0];
      var done' := done + [m];
      assert done' + ms[1..] == done + ms;
      AcceptedStep(done, m, g);
      OwnerStep(done, m);
      if Accepted(done') {
        GrantsStep(done, m, g);
        FoldExact(ms[1..], done', g[ToLower(m.key) := Dedup(m.ops.value)],
                  if "owner" in m.ops.value then owners + 1 else owners);
      } else if Accepted(done + ms) {
        AcceptedPrefix(done', ms[1..]);
      }
    }
  }

  lemma OwnerStep(done: seq<Member>, m: Member)
    ensures HasOwner(done + [m]) <==> HasOwner(done) || (m.ops.Some? && "owner" in m.ops.value)
  {
    var all := done + [m];
    forall i | 0 <= i < |done| ensures all[i] == done[i] {}
    assert all[|done|] == m;
  }

  /** validateAcl accepts exactly the objects with UUID users distinct up to case, arrays of known
      classes, and an owner; the result grants each user its deduplicated classes. */
  lemma ValidatedExactly(acl: AclInput)
    ensures Validated(acl).Ok? <==> acl.Object? && Accepted(acl.members) && HasOwner(acl.members)
    ensures Validated(acl).Ok? ==> GrantsExactly(acl.members, Validated(acl).value)
  {
    if acl.Object? { FoldAll(acl.members); }
  }

  lemma FoldAll(ms: seq<Member>)
    ensures Fold(ms, map[], 0).Ok? <==> Accepted(ms) && HasOwner(ms)
    ensures Fold(ms, map[], 0).Ok? ==> GrantsExactly(ms, Fold(ms, map[], 0).value)
  {
    var done: seq<Member> := [];
    assert done + ms == ms;
    FoldExact(ms, done, map[], 0);
  }

  /** What is wrong with the members from left to right, at the first one with which something is. */
  ghost predicate FirstFault(ms: seq<Member>, i: int, e: AclError) {
    && 0 <= i < |ms| && Accepted(ms[..i])
    && match e
       case NotUuid => !IsUuid(ms[i].key)
       case DuplicateUser => IsUuid(ms[i].key) && exists j :: 0 <= j < i && ToLower(ms[j].key) == ToLower(ms[i].key)
       case OpsNotArray => Fresh(ms, i) && ms[i].ops.None?
       case UnknownClass => Fresh(ms, i) && ms[i].ops.Some? && !Known(ms[i].ops.value)
       case _ => false
  }

  predicate Fresh(ms: seq<Member>, i: int)
    requires 0 <= i < |ms|
  {
    IsUuid(ms[i].key) && forall j :: 0 <= j < i ==> ToLower(ms[j].key) != ToLower(ms[i].key)
  }

  lemma {:induction false} FoldFault(ms: seq<Member>, done: seq<Member>, g: Grants, owners: nat)
    requires GrantsExactly(done, g) && Accepted(done)
    requires owners > 0 <==> HasOwner(done)
    ensures var r := Fold(ms, g, owners);
            r.Err? ==> if r.error.NoOwner? then Accepted(done + ms) && !HasOwner(done + ms)
                       else exists i :: FirstFault(done + ms, i, r.error)
  {
    if ms == [] {
      assert done + ms == done;
    } else {
      var m := ms[0];
      var all, done' := done + ms, done + [m];
      assert done' + ms[1..] == all && all[..|done|] == done && all[|done|] == m;
      AcceptedStep(done, m, g);
      OwnerStep(done, m);
      forall j | 0 <= j < |done| ensures all[j] == done[j] && ToLower(all[j].key) in g {}
      if Accepted(done') {
        GrantsStep(done, m, g);
        FoldFault(ms[1..], done', g[ToLower(m.key) := Dedup(m.ops.value)],
                  if "owner" in m.ops.value then owners + 1 else owners);
      } else {
        HereFault(ms, done, g, owners);
      }
    }
  }

  lemma HereFault(ms: seq<Member>, done: seq<Member>, g: Grants, owners: nat)
    requires ms != [] && GrantsExactly(done, g) && Accepted(done)
    requires !(MemberOk(ms[0]) && ToLower(ms[0].key) !in g)
    ensures Fold(ms, g, owners).Err? && FirstFault(done + ms, |done|, Fold(ms, g, owners).error)
  {
    var all, m := done + ms, ms[0];
    assert all[..|done|] == done && all[|done|] == m;
    assert forall j :: 0 <= j < |done| ==> all[j] == done[j];
    if IsUuid(m.key) && ToLower(m.key) in g {
      var j :| 0 <= j < |done| && ToLower(done[j].key) == ToLower(m.key);
      assert ToLower(all[j].key) == ToLower(m.key);
    }
  }

  /** A refusal names the first fault from left to right, and a missing owner only when there is no other. */
  lemma ValidatedError(acl: AclInput)
    requires Validated(acl).Err?
    ensures acl.NotObject? <==> Validated(acl).error == NotAnObject
    ensures acl.Object? ==>
              if Validated(acl).error.NoOwner? then Accepted(acl.members) && !HasOwner(acl.members)
              else exists i :: FirstFault(acl.members, i, Validated(acl).error)
  {
    if acl.Object? {
      var done: seq<Member> := [];
      assert done + acl.members == acl.members;
      FoldFault(acl.members, done, map[], 0);
    }
  }

  /** The normal form of every stored ACL. */
  ghost predicate WellFormed(g: Grants) {
    && (forall u :: u in g ==> IsUuid(u) && IsLower(u) && NoDup(g[u]) && Known(g[u]))
    && (exists u :: u in g && "owner" in g[u])
  }

  lemma UuidLower(s: string)
    requires IsUuid(s)
    ensures IsUuid(ToLower(s)) && IsLower(ToLower(s))
  {
    ToLowerTwice(s);
    forall c: char ensures LowerChar(LowerChar(c)) == LowerChar(c) {}
  }

  lemma ValidatedWellFormed(acl: AclInput)
    requires Validated(acl).Ok?
    ensures WellFormed(Validated(acl).value)
  {
    ValidatedExactly(acl);
    var ms, g := acl.members, Validated(acl).value;
    forall u | u in g ensures IsUuid(u) && IsLower(u) && NoDup(g[u]) && Known(g[u]) {
      var i :| 0 <= i < |ms| && ToLower(ms[i].key) == u;
      assert MemberOk(ms[i]);
      UuidLower(ms[i].key);
    }
    var i :| 0 <= i < |ms| && ms[i].ops.Some? && "owner" in ms[i].ops.value;
    assert "owner" in g[ToLower(ms[i].key)];
  }

  /** The members list the ACL, each user once, in any order. */
  ghost predicate Lists(ms: seq<Member>, g: Grants) {
    && (forall i :: 0 <= i < |ms| ==> ms[i].key in g && ms[i].ops == Some(g[ms[i].key]))
    && (forall i, j :: 0 <= i < j < |ms| ==> ms[i].key != ms[j].key)
    && (forall u :: u in g ==> exists i :: 0 <= i < |ms| && ms[i].key == u)
  }

  lemma {:induction false} DedupNoDup(ops: seq<string>)
    requires NoDup(ops)
    ensures Dedup(ops) == ops
  {
    if ops != [] {
      var n := |ops| - 1;
      DedupNoDup(ops[..n]);
      assert ops == ops[..n] + [ops[n]];
    }
  }

  predicate FirstAt(ops: seq<string>, op: string, p: int) {
    0 <= p < |ops| && ops[p] == op && forall k :: 0 <= k < p ==> ops[k] != op
  }

  /** What occurs first stays first. */
  lemma {:induction false} DedupOrder(ops: seq<string>, i: nat, j: nat, p: nat, q: nat)
    requires i < j < |Dedup(ops)| && FirstAt(ops, Dedup(ops)[i], p) && FirstAt(ops, Dedup(ops)[j], q)
    ensures p < q
  {
    var n := |ops| - 1;
    var init, seen := Dedup(ops[..n]), Dedup(ops);
    assert ops == ops[..n] + [ops[n]] && seen[i] == init[i] && init[i] in ops[..n];
    var z :| 0 <= z < n && ops[z] == seen[i];
    assert p <= z;
    if q < n {
      assert ops[..n][q] == seen[j];
      DedupOrder(ops[..n], i, j, p, q);
    }
  }

  /** A stored ACL is a fixpoint of validateAcl, whatever order its members come back in. */
  lemma WellFormedIsFixpoint(ms: seq<Member>, g: Grants)
    requires WellFormed(g) && Lists(ms, g)
    ensures Validated(Object(ms)) == Ok(g)
  {
    forall i | 0 <= i < |ms|
      ensures MemberOk(ms[i]) && Normal(ms[i], g)
    {
      assert ms[i].key in g;
      DedupNoDup(g[ms[i].key]);
    }
    assert Accepted(ms);
    var u :| u in g && "owner" in g[u];
    var k :| 0 <= k < |ms| && ms[k].key == u;
    assert HasOwner(ms);
    ValidatedExactly(Object(ms));
    SameGrants(ms, g, Validated(Object(ms)).value);
  }

  /** The member is already in normal form, with the classes that the ACL has for it. */
  ghost predicate Normal(m: Member, g: Grants) {
    m.key in g && m.ops.Some? && ToLower(m.key) == m.key && Dedup(m.ops.value) == g[m.key]
  }

  lemma SameGrants(ms: seq<Member>, g: Grants, r: Grants)
    requires Lists(ms, g) && GrantsExactly(ms, r) && forall i :: 0 <= i < |ms| ==> Normal(ms[i], g)
    ensures r == g
  {
    GrantsKept(ms, g, r);
    GrantsKnown(ms, g, r);
    EqualGrants(g, r);
  }

  lemma EqualGrants(g: Grants, r: Grants)
    requires (forall u :: u in g ==> u in r && r[u] == g[u]) && forall u :: u in r ==> u in g
    ensures r == g
  {
  }

  lemma GrantsKept(ms: seq<Member>, g: Grants, r: Grants)
    requires Lists(ms, g) && GrantsExactly(ms, r) && forall i :: 0 <= i < |ms| ==> Normal(ms[i], g)
    ensures forall u :: u in g ==> u in r && r[u] == g[u]
  {
    forall u | u in g ensures u in r && r[u] == g[u] {
      var i :| 0 <= i < |ms| && ms[i].key == u;
      assert Normal(ms[i], g);
    }
  }

  lemma GrantsKnown(ms: seq<Member>, g: Grants, r: Grants)
    requires GrantsExactly(ms, r) && forall i :: 0 <= i < |ms| ==> Normal(ms[i], g)
    ensures forall u :: u in r ==> u in g
  {
    forall u | u in r ensures u in g {
      var i :| 0 <= i < |ms| && ToLower(ms[i].key) == u;
      assert Normal(ms[i], g);
    }
  }

  // ---- rights ----

  predicate AclAllows(acl: Grants, userId: string, opClass: string) {
    IsUuid(userId) && opClass in OP_CLASSES && ToLower(userId) in acl
    && (opClass in acl[ToLower(userId)] || "owner" in acl[ToLower(userId)])
  }

  /** The `allowedOps` property of the user data; NoData when the user data is no object. */
  datatype AllowedOps = NoData | Absent | Malformed | List(ops: seq<string>)

  function UserAllowedOps(a: AllowedOps): Option<seq<string>> {
    match a
    case NoData => None
    case Absent => None
    case Malformed => Some([])
    case List(ops) => Some(ops)
  }

  predicate AllowedOpsAllows(a: AllowedOps, opClass: string) {
    UserAllowedOps(a).None? || opClass in UserAllowedOps(a).value
  }

  /** The effective right: the ACL grant intersected with the mask. */
  predicate Effective(a: AllowedOps, acl: Grants, userId: string, opClass: string) {
    AclAllows(acl, userId, opClass) && AllowedOpsAllows(a, opClass)
  }

  predicate EffectiveAny(a: AllowedOps, acl: Grants, userId: string) {
    exists i :: 0 <= i < |KEY_OP_CLASSES| && Effective(a, acl, userId, KEY_OP_CLASSES[i])
  }

  method HasEffectiveAny(a: AllowedOps, acl: Grants, userId: string) returns (r: bool)
    ensures r == EffectiveAny(a, acl, userId)
  {
    for i := 0 to |KEY_OP_CLASSES|
      invariant forall k :: 0 <= k < i ==> !Effective(a, acl, userId, KEY_OP_CLASSES[k])
    {
      if AclAllows(acl, userId, KEY_OP_CLASSES[i]) && AllowedOpsAllows(a, KEY_OP_CLASSES[i]) { return true; }
    }
    return false;
  }
}
