/** server.js from the authenticated request to its response: dispatch, audit append, respond. Requests
    interleave at every await, and an append may fail whether or not its event was written. */
module AuditCoupling {
  import opened Text
  import opened Kek
  import opened KeyTable
  import opened Handlers
  import opened Vault
  import opened VaultInvariant

  const UNKNOWN_OPERATION := 1002

  datatype AuditOutcome = Succeeded | Failed(code: int) | Denied

  /** `name` is the event type; a `denied` event has no outcome field. */
  datatype Event = Event(name: string, userId: string, op: string, kid: Option<Kid>, outcome: AuditOutcome)

  /** A log entry, with the request that wrote it; None for other writers of the same log. */
  datatype Entry = Entry(event: Event, writer: Option<nat>)

  function OpName(r: Request): string {
    match r
    case Healthcheck(_) => "healthcheck"
    case GenerateKey(_, _) => "generate-key"
    case GetPublicKey(_, _) => "public-key"
    case CreateJwt(_, _, _) => "create-jwt"
    case VerifyJwt(_, _, _) => "verify-jwt"
    case CreateJwe(_, _, _, _) => "create-jwe"
    case DecryptJwe(_, _, _) => "decrypt-jwe"
    case RevokeKey(_, _) => "revoke-key"
    case ExportKey(_, _) => "export-key"
    case ListKeys(_) => "list-keys"
  }

  predicate Audited(r: Request) { OpName(r) != "healthcheck" }

  /** The key id in the request data, when it is a UUID. A kid in a token header is not looked at. */
  function DataKid(r: Request): Option<Kid> {
    if OnKey(r) && RequireKid(r.kid).Ok? then Some(RequireKid(r.kid).value) else None
  }

  /** The key id in the audit fields of a successful result. */
  function ResultKid(p: Policy, r: Request, d: Data): Option<Kid> {
    if OnKey(r) then (if Target(p, r).Ok? then Some(Target(p, r).value) else None)
    else if d.Generated? then Some(d.newKid) else None
  }

  function OpEvent(p: Policy, f: Call, o: Outcome): Event {
    Event(OpName(f.req), f.user.userId, f.op,
          if o.Done? then ResultKid(p, f.req, o.data) else DataKid(f.req),
          if o.Done? then Succeeded else Failed(o.error.code))
  }

  function DeniedEvent(f: Call): Event { Event("denied", f.user.userId, f.op, DataKid(f.req), Denied) }

  predicate Masked(o: Outcome) { o.Fail? && o.error.masked }

  /** The events that a request must have logged before it is answered with its own outcome. */
  function Due(p: Policy, f: Call, o: Outcome): seq<Event> {
    if !Audited(f.req) then [] else if Masked(o) then [OpEvent(p, f, o), DeniedEvent(f)] else [OpEvent(p, f, o)]
  }

  datatype Call = Call(user: User, op: string, req: Request)

  /** Where a request waits: for its handler, for its operation event, for its denied event. */
  datatype Flight =
    | Dispatched(call: Call)
    | Auditing(call: Call, outcome: Outcome)
    | AuditingDenial(call: Call, outcome: Outcome)

  /** `lost` records that an append of the request failed. */
  datatype Reply = Refused(code: int) | Answered(call: Call, outcome: Outcome, lost: bool)

  /** The response that the caller gets. */
  function Body(r: Reply): Outcome {
    match r
    case Refused(code) => Fail(Fault(code))
    case Answered(_, o, lost) => if lost then Fail(Fault(INTERNAL_ERROR)) else Seen(o)
  }

  datatype Server = Server(vault: State, log: seq<Entry>, flights: map<nat, Flight>, replies: map<nat, Reply>)

  datatype Appended = Written | Lost(written: bool)

  /** `call` is None for an operation that is not in the catalogue. */
  datatype Act =
    | Arrive(id: nat, call: Option<Call>)
    | Work(id: nat, oracle: Oracle)
    | Append(id: nat, result: Appended)
    | Background(step: Step)
    | Foreign(event: Event)

  function Answer(s: Server, id: nat, r: Reply): Server {
    s.(flights := s.flights - {id}, replies := s.replies[id := r])
  }

  function Log(s: Server, id: nat, e: Event): Server { s.(log := s.log + [Entry(e, Some(id))]) }

  /** The handler runs; an operation that is not audited is answered at once. */
  function AfterHandler(s: Server, id: nat, c: Call, vault: State, outcome: Outcome): Server {
    var s' := s.(vault := vault);
    if !Audited(c.req) then Answer(s', id, Answered(c, outcome, false))
    else s'.(flights := s'.flights[id := Auditing(c, outcome)])
  }

  function AfterAppend(p: Policy, s: Server, id: nat, f: Flight, r: Appended): Server
    requires !f.Dispatched?
  {
    var e := if f.Auditing? then OpEvent(p, f.call, f.outcome) else DeniedEvent(f.call);
    if r.Lost? then Answer(if r.written then Log(s, id, e) else s, id, Answered(f.call, f.outcome, true))
    else if f.Auditing? && Masked(f.outcome) then
      Log(s, id, e).(flights := s.flights[id := AuditingDenial(f.call, f.outcome)])
    else Answer(Log(s, id, e), id, Answered(f.call, f.outcome, false))
  }

  function Act1(p: Policy, cc: CacheConfig, s: Server, a: Act): Server {
    match a
    case Arrive(id, call) =>
      if id in s.flights || id in s.replies then s
      else if call.None? then Answer(s, id, Refused(UNKNOWN_OPERATION))
      else s.(flights := s.flights[id := Dispatched(call.value)])
    case Work(id, o) =>
      if id !in s.flights || !s.flights[id].Dispatched? then s
      else
        var c := s.flights[id].call;
        var (vault, outcome) := Handle(p, cc, s.vault, c.user, c.req, o);
        AfterHandler(s, id, c, vault, outcome)
    case Append(id, r) =>
      if id !in s.flights || s.flights[id].Dispatched? then s else AfterAppend(p, s, id, s.flights[id], r)
    case Background(e) => if e.Api? then s else s.(vault := Next(p, cc, s.vault, e).0)
    case Foreign(ev) => s.(log := s.log + [Entry(ev, None)])
  }

  function Serve(p: Policy, cc: CacheConfig, s: Server, acts: seq<Act>): Server {
    if acts == [] then s else Act1(p, cc, Serve(p, cc, s, acts[..|acts| - 1]), acts[|acts| - 1])
  }

  // ---- the log, request by request ----

  /** The events that a request wrote, in order. */
  function Own(log: seq<Entry>, id: nat): seq<Event> {
    if log == [] then []
    else Own(log[..|log| - 1], id) + if log[|log| - 1].writer == Some(id) then [log[|log| - 1].event] else []
  }

  lemma OwnStep(log: seq<Entry>, e: Entry, id: nat)
    ensures Own(log + [e], id) == Own(log, id) + if e.writer == Some(id) then [e.event] else []
  {
    assert (log + [e])[..|log|] == log;
  }

  ghost predicate FlightOk(p: Policy, f: Flight, own: seq<Event>) {
    match f
    case Dispatched(_) => own == []
    case Auditing(c, _) => own == [] && Audited(c.req)
    case AuditingDenial(c, o) => own == [OpEvent(p, c, o)] && Audited(c.req) && Masked(o)
  }

  ghost predicate ReplyOk(p: Policy, r: Reply, own: seq<Event>) {
    match r
    case Refused(_) => own == []
    case Answered(c, o, lost) => own <= Due(p, c, o) && if lost then Audited(c.req) else own == Due(p, c, o)
  }

  /** What a request has logged fits where it is. */
  ghost predicate Accounted(p: Policy, s: Server, id: nat) {
    && (id in s.flights ==> id !in s.replies && FlightOk(p, s.flights[id], Own(s.log, id)))
    && (id in s.replies ==> ReplyOk(p, s.replies[id], Own(s.log, id)))
    && (id !in s.flights && id !in s.replies ==> Own(s.log, id) == [])
  }

  ghost predicate AllAccounted(p: Policy, s: Server) { forall id: nat :: Accounted(p, s, id) }

  /** From the point of view of one request, nothing changed but possibly the rest of the log. */
  ghost predicate Untouched(s: Server, t: Server, id: nat) {
    && (id in s.flights <==> id in t.flights) && (id in s.flights ==> s.flights[id] == t.flights[id])
    && (id in s.replies <==> id in t.replies) && (id in s.replies ==> s.replies[id] == t.replies[id])
    && Own(t.log, id) == Own(s.log, id)
  }

  lemma AppendElsewhere(p: Policy, s: Server, at: nat, f: Flight, r: Appended, id: nat)
    requires at != id && !f.Dispatched?
    ensures Untouched(s, AfterAppend(p, s, at, f, r), id)
  {
    OwnStep(s.log, Entry(if f.Auditing? then OpEvent(p, f.call, f.outcome) else DeniedEvent(f.call), Some(at)), id);
  }

  lemma HandlerElsewhere(s: Server, at: nat, c: Call, vault: State, o: Outcome, id: nat)
    requires at != id
    ensures Untouched(s, AfterHandler(s, at, c, vault, o), id)
  {
  }

  lemma ActElsewhere(p: Policy, cc: CacheConfig, s: Server, a: Act, id: nat)
    requires a.Background? || a.Foreign? || a.id != id
    ensures Untouched(s, Act1(p, cc, s, a), id)
  {
    match a
    case Arrive(_, _) => {}
    case Work(at, o) => {
      if at in s.flights {
        var c := s.flights[at].call;
        var (vault, outcome) := Handle(p, cc, s.vault, c.user, c.req, o);
        HandlerElsewhere(s, at, c, vault, outcome, id);
      }
    }
    case Append(at, r) => {
      if at in s.flights && !s.flights[at].Dispatched? { AppendElsewhere(p, s, at, s.flights[at], r, id); }
    }
    case Background(_) => {}
    case Foreign(ev) => { OwnStep(s.log, Entry(ev, None), id); }
  }

  lemma HandlerAccounted(p: Policy, s: Server, id: nat, vault: State, o: Outcome)
    requires Accounted(p, s, id) && id in s.flights && s.flights[id].Dispatched?
    ensures Accounted(p, AfterHandler(s, id, s.flights[id].call, vault, o), id)
  {
  }

  /** What a waiting request has logged is the start of what is due, and the next event continues it. */
  lemma DueStep(p: Policy, f: Flight)
    requires !f.Dispatched? && Audited(f.call.req) && (f.AuditingDenial? ==> Masked(f.outcome))
    ensures var op := OpEvent(p, f.call, f.outcome);
            [] <= Due(p, f.call, f.outcome) && [op] <= Due(p, f.call, f.outcome)
            && (Masked(f.outcome) ==> Due(p, f.call, f.outcome) == [op, DeniedEvent(f.call)])
            && (!Masked(f.outcome) ==> Due(p, f.call, f.outcome) == [op])
  {
  }

  lemma FirstAppendAccounted(p: Policy, s: Server, id: nat, r: Appended)
    requires Accounted(p, s, id) && id in s.flights && s.flights[id].Auditing?
    ensures Accounted(p, AfterAppend(p, s, id, s.flights[id], r), id)
  {
    var f := s.flights[id];
    var op := OpEvent(p, f.call, f.outcome);
    OwnStep(s.log, Entry(op, Some(id)), id);
    DueStep(p, f);
    assert Own(s.log, id) + [op] == [op];
  }

  lemma SecondAppendAccounted(p: Policy, s: Server, id: nat, r: Appended)
    requires Accounted(p, s, id) && id in s.flights && s.flights[id].AuditingDenial?
    ensures Accounted(p, AfterAppend(p, s, id, s.flights[id], r), id)
  {
    var f := s.flights[id];
    var denied := DeniedEvent(f.call);
    OwnStep(s.log, Entry(denied, Some(id)), id);
    DueStep(p, f);
    assert Own(s.log, id) + [denied] == [OpEvent(p, f.call, f.outcome), denied];
  }

  lemma ActOnOwn(p: Policy, cc: CacheConfig, s: Server, a: Act)
    requires !a.Background? && !a.Foreign? && Accounted(p, s, a.id)
    ensures Accounted(p, Act1(p, cc, s, a), a.id)
  {
    match a
    case Arrive(id, call) => {}
    case Work(id, o) => {
      if id in s.flights && s.flights[id].Dispatched? {
        var c := s.flights[id].call;
        var (vault, outcome) := Handle(p, cc, s.vault, c.user, c.req, o);
        HandlerAccounted(p, s, id, vault, outcome);
      }
    }
    case Append(id, r) => {
      if id in s.flights && !s.flights[id].Dispatched? {
        if s.flights[id].Auditing? { FirstAppendAccounted(p, s, id, r); } else { SecondAppendAccounted(p, s, id, r); }
      }
    }
  }

  lemma {:induction false} ServeAccounts(p: Policy, cc: CacheConfig, s: Server, acts: seq<Act>)
    requires AllAccounted(p, s)
    ensures AllAccounted(p, Serve(p, cc, s, acts))
  {
    if acts != [] {
      var n := |acts| - 1;
      var t := Serve(p, cc, s, acts[..n]);
      ServeAccounts(p, cc, s, acts[..n]);
      forall id: nat ensures Accounted(p, Act1(p, cc, t, acts[n]), id) {
        assert Accounted(p, t, id);
        if acts[n].Background? || acts[n].Foreign? || acts[n].id != id { ActElsewhere(p, cc, t, acts[n], id); }
        else { ActOnOwn(p, cc, t, acts[n]); }
      }
    }
  }

  ghost predicate Started(s: Server) { s.log == [] && s.flights == map[] && s.replies == map[] }

  /** Audit coupling, in every interleaving: an ok response to an audited operation, and every delivered
      error of its own, has exactly its own event in the log, and a delivered masked denial has exactly its
      operation event and then its `denied` event. Where an append failed the answer is the internal error,
      and the log holds the events due up to that append at most. Healthchecks and unknown operations log
      nothing. */
  lemma Coupling(p: Policy, cc: CacheConfig, s: Server, acts: seq<Act>, id: nat)
    requires Started(s) && id in Serve(p, cc, s, acts).replies
    ensures var t := Serve(p, cc, s, acts);
            var r := t.replies[id];
            match r
            case Refused(_) => Own(t.log, id) == []
            case Answered(c, o, lost) =>
              && (Body(r).Done? && Audited(c.req) ==>
                    Own(t.log, id) == [OpEvent(p, c, o)] && o.Done? && OpEvent(p, c, o).outcome == Succeeded)
              && (!lost && Masked(o) && Audited(c.req) ==> Own(t.log, id) == [OpEvent(p, c, o), DeniedEvent(c)])
              && (lost ==> Body(r) == Fail(Fault(INTERNAL_ERROR)) && Own(t.log, id) <= Due(p, c, o))
              && (!Audited(c.req) ==> Own(t.log, id) == [])
  {
    assert AllAccounted(p, s);
    ServeAccounts(p, cc, s, acts);
    assert Accounted(p, Serve(p, cc, s, acts), id);
  }

  // ---- the log in the documented terms ----

  /** The event of a request: of its own operation, for its user and operation id. */
  ghost predicate Records(e: Event, c: Call, outcome: AuditOutcome) {
    && e.userId == c.user.userId && e.op == c.op && e.outcome == outcome
    && e.name == match c.req
                 case Healthcheck(_) => "healthcheck"
                 case GenerateKey(_, _) => "generate-key"
                 case GetPublicKey(_, _) => "public-key"
                 case CreateJwt(_, _, _) => "create-jwt"
                 case VerifyJwt(_, _, _) => "verify-jwt"
                 case CreateJwe(_, _, _, _) => "create-jwe"
                 case DecryptJwe(_, _, _) => "decrypt-jwe"
                 case RevokeKey(_, _) => "revoke-key"
                 case ExportKey(_, _) => "export-key"
                 case ListKeys(_) => "list-keys"
  }

  /** No success without its record. In every interleaving, whoever got an ok response to anything but a
      healthcheck has exactly one event in the log, which records that operation, by that user, as a success;
      whoever got an error of the operation, exactly that error recorded; whoever got a masked denial, the
      error and then a `denied` event. Healthchecks and unknown operations record nothing. */
  lemma NothingUnrecorded(p: Policy, cc: CacheConfig, s: Server, acts: seq<Act>, id: nat)
    requires Started(s) && id in Serve(p, cc, s, acts).replies
    ensures var t := Serve(p, cc, s, acts);
            match t.replies[id]
            case Refused(code) => Own(t.log, id) == [] && Body(t.replies[id]) == Fail(ApiError(1002, "", false))
            case Answered(c, o, lost) =>
              var out, own := Body(t.replies[id]), Own(t.log, id);
              && (c.req.Healthcheck? ==> own == [] && out == Seen(o))
              && (lost ==> out == Fail(ApiError(1900, "", false)))
              && (out.Done? && !c.req.Healthcheck? ==> |own| == 1 && Records(own[0], c, Succeeded) && o == out)
              && (!lost && !c.req.Healthcheck? && o.Fail? && !o.error.masked ==>
                    |own| == 1 && Records(own[0], c, Failed(o.error.code)) && out == Fail(o.error))
              && (!lost && !c.req.Healthcheck? && o.Fail? && o.error.masked ==>
                    |own| == 2 && Records(own[0], c, Failed(o.error.code)) && own[1].name == "denied"
                    && own[1].userId == c.user.userId && own[1].op == c.op && own[1].outcome == Denied
                    && out == Fail(ApiError(o.error.code, o.error.detail, false)))
  {
    assert AllAccounted(p, s);
    ServeAccounts(p, cc, s, acts);
    ServeRefuses(p, cc, s, acts, id);
    assert Accounted(p, Serve(p, cc, s, acts), id);
  }

  lemma {:induction false} ServeRefuses(p: Policy, cc: CacheConfig, s: Server, acts: seq<Act>, id: nat)
    requires id in s.replies && s.replies[id].Refused? ==> s.replies[id].code == 1002
    ensures var t := Serve(p, cc, s, acts); id in t.replies && t.replies[id].Refused? ==> t.replies[id].code == 1002
  {
    if acts != [] {
      var n := |acts| - 1;
      ServeRefuses(p, cc, s, acts[..n], id);
      ActRefuses(p, cc, Serve(p, cc, s, acts[..n]), acts[n], id);
    }
  }

  lemma ActRefuses(p: Policy, cc: CacheConfig, s: Server, a: Act, id: nat)
    requires id in s.replies && s.replies[id].Refused? ==> s.replies[id].code == 1002
    ensures var t := Act1(p, cc, s, a); id in t.replies && t.replies[id].Refused? ==> t.replies[id].code == 1002
  {
    if a.Background? || a.Foreign? || a.id != id { ActElsewhere(p, cc, s, a, id); }
  }

  function Underway(p: Policy, cc: CacheConfig, s: Server, id: nat, c: Call, o: Oracle): Server {
    Act1(p, cc, Act1(p, cc, s, Arrive(id, Some(c))), Work(id, o))
  }

  lemma HandlerRuns(p: Policy, cc: CacheConfig, s: Server, id: nat, c: Call, o: Oracle)
    requires id !in s.flights && id !in s.replies
    ensures var (vault, out) := Handle(p, cc, s.vault, c.user, c.req, o);
            Underway(p, cc, s, id, c, o)
            == AfterHandler(s.(flights := s.flights[id := Dispatched(c)]), id, c, vault, out)
  {
  }

  /** While the log works, a request is answered with what its handler gave; an unknown operation is refused. */
  lemma AnsweredInFull(p: Policy, cc: CacheConfig, s: Server, id: nat, c: Call, o: Oracle)
    requires id !in s.flights && id !in s.replies
    ensures var t := Act1(p, cc, Act1(p, cc, Underway(p, cc, s, id, c, o), Append(id, Written)), Append(id, Written));
            && id in t.replies && Body(t.replies[id]) == Seen(Handle(p, cc, s.vault, c.user, c.req, o).1)
            && t.vault == Handle(p, cc, s.vault, c.user, c.req, o).0
    ensures var t := Act1(p, cc, s, Arrive(id, None));
            id in t.replies && Body(t.replies[id]) == Fail(ApiError(1002, "", false)) && t.vault == s.vault
  {
    HandlerRuns(p, cc, s, id, c, o);
  }

  /** A failed append answers 1900 and undoes nothing: what the handler did to the vault stays done. */
  lemma EffectStands(p: Policy, cc: CacheConfig, s: Server, id: nat, o: Oracle, written: bool)
    requires id in s.flights && s.flights[id].Dispatched? && Audited(s.flights[id].call.req)
    ensures var c := s.flights[id].call;
            var t := Act1(p, cc, Act1(p, cc, s, Work(id, o)), Append(id, Lost(written)));
            id in t.replies && Body(t.replies[id]) == Fail(Fault(INTERNAL_ERROR))
            && t.vault == Handle(p, cc, s.vault, c.user, c.req, o).0
  {
  }

  // ---- masking and audit failures ----

  /** The response after at most two appends. */
  function AnswerAfter(p: Policy, cc: CacheConfig, s: Server, id: nat, first: Appended,
                       second: Appended): Option<Outcome>
  {
    var t := Act1(p, cc, Act1(p, cc, s, Append(id, first)), Append(id, second));
    if id in t.replies then Some(Body(t.replies[id])) else None
  }

  /** A masked denial appends twice and a missing key once. The caller gets the same answer to both exactly
      unless the audit log fails between the two appends. */
  lemma MaskingUnderAuditFailure(p: Policy, cc: CacheConfig, s: Server, id: nat, c: Call, first: Appended,
                                 second: Appended)
    requires Audited(c.req) && id !in s.replies
    ensures var denied := s.(flights := s.flights[id := Auditing(c, Fail(ApiError(KEY_NOT_FOUND, "", true)))]);
            var missing := s.(flights := s.flights[id := Auditing(c, Fail(Fault(KEY_NOT_FOUND)))]);
            AnswerAfter(p, cc, denied, id, first, second) == AnswerAfter(p, cc, missing, id, first, second)
            <==> !(first.Written? && second.Lost?)
  {
  }

  /** The event of a success names the key that was acted on or made, also where only a token header named it. */
  lemma SuccessNamesKey(p: Policy, cc: CacheConfig, s: State, c: Call, o: Oracle)
    requires Handle(p, cc, s, c.user, c.req, o).1.Done?
    ensures var (s', out) := Handle(p, cc, s, c.user, c.req, o);
            && (OnKey(c.req) ==> Target(p, c.req).Ok? && OpEvent(p, c, out).kid == Some(Target(p, c.req).value)
                                 && HasKey(s.rows, Target(p, c.req).value))
            && (c.req.GenerateKey? ==> OpEvent(p, c, out).kid == Some(o.kid) && o.kid in s'.born)
  {
    if OnKey(c.req) { OperationRows(p, cc, s, c.user, c.req, o); }
  }

  /** The events of a denial name the key if and only if the request data does: a key named by a token
      header alone leaves no trace of which key was tried. */
  lemma DenialNamesKey(p: Policy, cc: CacheConfig, s: State, c: Call, o: Oracle)
    requires OnKey(c.req) && Target(p, c.req).Ok? && Handle(p, cc, s, c.user, c.req, o).1.Fail?
    ensures var out := Handle(p, cc, s, c.user, c.req, o).1;
            && (OpEvent(p, c, out).kid == Some(Target(p, c.req).value) <==> c.req.kid.Present?)
            && (DeniedEvent(c).kid == Some(Target(p, c.req).value) <==> c.req.kid.Present?)
            && (!c.req.kid.Present? ==> DeniedEvent(c).kid.None? && (c.req.VerifyJwt? || c.req.DecryptJwe?))
  {
  }
}
