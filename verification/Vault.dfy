/** The vault as a state machine: the API operations, the expiry sweep, the cache, restarts, and the
    kv-admin commands that edit the same database from another process. */
module Vault {
  import opened Text
  import opened Acl
  import opened Kek
  import opened KeyTable
  import opened UnwrapCache
  import opened GenerateAcl
  import opened Handlers

  /** What was generated under a key id, kept for reference. */
  datatype Born = Born(secret: Jwk, kty: string, alg: string, nbf: Option<int>, exp: Option<int>)

  /** A rewrap in progress: the rows it read at its start, and how far it has come. */
  datatype Rewrap = Rewrap(kek: Manager, work: seq<Row>, done: nat, rewrapped: nat, skipped: nat)

  datatype CacheConfig = CacheConfig(capacity: nat, ttl: int)

  /** `clock` counts microseconds, as the database does; the process floors it to milliseconds. `started` is
      when the process last started. */
  datatype State = State(rows: Table, users: set<string>, clock: nat, kek: Manager, cache: Cache, started: nat,
                         born: map<Kid, Born>, rewraps: seq<Rewrap>)

  function NowMs(s: State): int { s.clock / 1000 }

  function NowSeconds(s: State): int { NowMs(s) / 1000 }

  /** The random choices of one request: a generated key and a nonce. */
  datatype Oracle = Oracle(kid: Kid, material: nat, nonce: nat)

  datatype Step =
    | Api(user: User, req: Request, oracle: Oracle)
    | SweepExpired(grace: nat)
    | ClearCache
    | Tick(to: nat)
    | AddUser(userId: string)
    | RemoveUser(userId: string)
    | UpdateAcl(kid: Kid, acl: AclInput)
    | StartRewrap(manager: Manager)
    | NextRewrap(proc: nat, nonce: nat)
    | Restart(manager: Manager)

  // ---- API operations ----

  function ViewOf(row: Row, secret: Result<Jwk, ExtractError>): KeyView {
    KeyView(row.keyId, row.kty, row.alg, row.notBefore, row.expiresAt, row.publicKey, row.acl, secret)
  }

  function KeyOperation(p: Policy, cc: CacheConfig, s: State, u: User, r: Request, o: Oracle): (State, Outcome)
    requires OnKey(r)
  {
    match Target(p, r)
    case Err(e) => (s, Fail(e))
    case Ok(kid) =>
      match Find(s.rows, kid)
      case None => (s, Fail(Fault(KEY_NOT_FOUND)))
      case Some(row) =>
        var (cache, secret) := Unwrap(s.kek, s.cache, row, NowMs(s), cc.ttl, cc.capacity);
        match Authorize(Some(ViewOf(row, secret)), u, OpClass(r), NowMs(s))
        case Err(e) => (s, Fail(e))
        case Ok(v) =>
          var out := After(p, r, v, NowMs(s), o.nonce);
          if r.RevokeKey? then (s.(rows := Delete(s.rows, kid), cache := Remove(s.cache, kid)), out)
          else if UsesSecret(r, v) then (s.(cache := cache), out)
          else (s, out)
  }

  function AclText(e: AclError): string {
    match e
    case NotAnObject => "ACL must be an object"
    case NotUuid => "ACL user must be an UUID"
    case DuplicateUser => "Duplicate ACL user"
    case OpsNotArray => "ACL ops must be an array"
    case UnknownClass => "Unknown ACL operation class"
    case NoOwner => "ACL must include at least one owner"
    case UnknownUser => "Unknown ACL user"
  }

  function NewSecret(spec: KeySpec, o: Oracle): Jwk { Jwk(o.kid, spec.jwkAlg, o.material) }

  /** KeyStore.generate: the row to insert. */
  function NewRow(m: Manager, spec: KeySpec, acl: Grants, nbf: Option<int>, exp: Option<int>, iat: int,
                  o: Oracle): Row
  {
    var secret := NewSecret(spec, o);
    var e := Embed(m, secret, Meta(o.kid, iat, nbf, exp), o.nonce);
    Row(o.kid, spec.kty, spec.alg, DateOf(nbf), DateOf(exp),
        if spec.kty == "oct" then None else Some(PublicHalf(secret)), e.embeddingKeyId, e.embeddedKey, acl)
  }

  function Generate(s: State, u: User, extra: bool, g: GenParams, o: Oracle): (State, Outcome) {
    match GenerateProblem(u, extra, g, NowSeconds(s))
    case Some(e) => (s, Fail(e))
    case None =>
      match NewAcl(u, g.acl, s.users)
      case Err(e) => (s, Fail(Explained(INVALID_ACL, AclText(e))))
      case Ok(acl) =>
        if HasKey(s.rows, o.kid) then (s, Fail(Fault(INTERNAL_ERROR)))
        else
          var spec := g.spec.value;
          var row := NewRow(s.kek, spec, acl, TsValue(g.nbf), TsValue(g.exp), NowSeconds(s), o);
          (s.(rows := s.rows + [row],
              born := s.born[o.kid := Born(NewSecret(spec, o), spec.kty, spec.alg, TsValue(g.nbf), TsValue(g.exp))]),
           Done(Generated(o.kid, if g.returnPublicKey == Bool(true) then row.publicKey else None)))
  }

  /** listKeys: the rows that mention the user, inside their window, with an effective class. */
  function ListRows(rows: Table, u: User, nowMs: int): seq<Listed> {
    if rows == [] then []
    else
      (if Visible(ViewOf(rows[0], Err(KekUnavailable)), u, nowMs)
       then [ListOf(ViewOf(rows[0], Err(KekUnavailable)))] else [])
      + ListRows(rows[1..], u, nowMs)
  }

  function ListOperation(s: State, u: User, extra: bool): Outcome {
    if extra then Fail(Fault(INVALID_REQUEST_DATA))
    else if !AllowedOpsAllows(u.mask, "list-keys") then Fail(Fault(OPERATION_NOT_PERMITTED))
    else Done(KeyList(ListRows(ByAclUser(s.rows, u.userId), u, NowMs(s))))
  }

  function Handle(p: Policy, cc: CacheConfig, s: State, u: User, r: Request, o: Oracle): (State, Outcome) {
    match r
    case Healthcheck(extra) =>
      (s, if extra then Fail(Fault(INVALID_REQUEST_DATA)) else Done(Uptime((s.clock - s.started) / 1_000_000)))
    case GenerateKey(extra, g) => Generate(s, u, extra, g, o)
    case ListKeys(extra) => (s, ListOperation(s, u, extra))
    case _ => KeyOperation(p, cc, s, u, r, o)
  }

  // ---- kv-admin ----

  /** update-acl: validated, users checked, then one statement. */
  function AdminAcl(s: State, kid: Kid, acl: AclInput): State {
    var v := Validated(acl);
    if v.Err? || (exists u :: u in v.value && u !in s.users) then s
    else s.(rows := SetAcl(s.rows, kid, v.value))
  }

  /** The claims that rewrap rebuilds from a row. */
  function RewrapMeta(row: Row, iat: int): Meta {
    Meta(row.keyId, iat, SecondsOf(row.notBefore), SecondsOf(row.expiresAt))
  }

  /** One iteration of the rewrap loop: extract and embed from the row read at the start, then one update
      statement. A row that does not extract is skipped. */
  function RewrapRow(rows: Table, m: Manager, row: Row, iat: int, nonce: nat): Table {
    match ExtractRow(m, row)
    case Err(_) => rows
    case Ok(secret) => SetEmbedding(rows, row.keyId, Embed(m, secret, RewrapMeta(row, iat), nonce))
  }

  function RewrapIteration(s: State, p: Rewrap, nonce: nat): (Table, Rewrap)
    requires p.done < |p.work|
  {
    var row := p.work[p.done];
    (RewrapRow(s.rows, p.kek, row, NowSeconds(s), nonce),
     if ExtractRow(p.kek, row).Ok? then p.(done := p.done + 1, rewrapped := p.rewrapped + 1)
     else p.(done := p.done + 1, skipped := p.skipped + 1))
  }

  function Next(p: Policy, cc: CacheConfig, s: State, e: Step): (State, Option<Outcome>) {
    match e
    case Api(u, r, o) => var (s', out) := Handle(p, cc, s, u, r, o); (s', Some(out))
    case SweepExpired(grace) => (s.(rows := Sweep(s.rows, s.clock, grace)), None)
    case ClearCache => (s.(cache := []), None)
    case Tick(to) => (if to >= s.clock then s.(clock := to) else s, None)
    case AddUser(u) => (s.(users := s.users + {u}), None)
    case RemoveUser(u) => (s.(users := s.users - {u}), None)
    case UpdateAcl(kid, acl) => (AdminAcl(s, kid, acl), None)
    case StartRewrap(m) =>
      (s.(rewraps := s.rewraps + [Rewrap(m, NotEmbeddedWith(s.rows, m.active.kid), 0, 0, 0)]), None)
    case NextRewrap(i, nonce) =>
      if i < |s.rewraps| && s.rewraps[i].done < |s.rewraps[i].work| then
        var (rows, proc) := RewrapIteration(s, s.rewraps[i], nonce);
        (s.(rows := rows, rewraps := s.rewraps[i := proc]), None)
      else (s, None)
    case Restart(m) => (s.(kek := m, cache := [], started := s.clock), None)
  }

  // ---- the invariant of every run ----

  /** What holds of every row ever stored or read: it embeds, under the KEK it names, the secret generated
      for its id, with the validity generated for it, and its ACL is in normal form. */
  ghost predicate RowOk(born: map<Kid, Born>, row: Row) {
    row.keyId in born
    && var b := born[row.keyId];
    && b.secret.kid == row.keyId
    && WellEmbedded(row)
    && row.embeddedKey.payload.Embedding?
    && row.embeddedKey.payload.claims.(iat := 0) == Claims(Some(row.keyId), 0, b.nbf, b.exp, b.secret)
    && row.notBefore == DateOf(b.nbf) && row.expiresAt == DateOf(b.exp)
    && row.kty == b.kty && row.alg == b.alg
    && row.publicKey == (if b.kty == "oct" then None else Some(PublicHalf(b.secret)))
    && WellFormed(row.acl)
  }

  ghost predicate RowsOk(born: map<Kid, Born>, rows: Table) {
    forall row :: row in rows ==> RowOk(born, row)
  }

  ghost predicate RewrapOk(born: map<Kid, Born>, p: Rewrap) {
    ManagerOk(p.kek) && RowsOk(born, p.work) && p.done <= |p.work| && p.rewrapped + p.skipped == p.done
  }

  ghost predicate Inv(s: State) {
    && UniqueKids(s.rows) && RowsOk(s.born, s.rows)
    && ManagerOk(s.kek) && CacheOk(s.kek, s.cache)
    && (forall i :: 0 <= i < |s.rewraps| ==> RewrapOk(s.born, s.rewraps[i]))
  }

  /** What the environment guarantees of a step: user ids are lower-case UUIDs, JSON objects have distinct
      keys, KEK files were accepted, and generated key ids were never used before. */
  ghost predicate StepOk(s: State, e: Step) {
    match e
    case Api(u, r, o) =>
      UserOk(u) && (r.GenerateKey? ==> o.kid !in s.born && AclInputOk(r.gen.acl))
    case StartRewrap(m) => ManagerOk(m)
    case Restart(m) => ManagerOk(m)
    case _ => true
  }

  ghost predicate AclInputOk(acl: Option<AclInput>) {
    acl.Some? && acl.value.Object? ==> DistinctKeys(acl.value.members)
  }

  /** A fresh vault. */
  ghost predicate Initial(s: State) {
    s.rows == [] && s.cache == [] && s.born == map[] && s.rewraps == [] && ManagerOk(s.kek)
  }
}
