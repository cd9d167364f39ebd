/** readBody of server.js: a request body collected from stream events, up to a limit. */
module BodyReader {
  import opened Text

  type Bytes = seq<bv8>

  datatype Event = Data(chunk: Bytes) | End | Error

  datatype Settled = Unsettled | Resolved(body: Bytes) | TooLarge | Broken

  function Concat(chunks: seq<Bytes>): Bytes {
    if chunks == [] then [] else Concat(chunks[..|chunks| - 1]) + chunks[|chunks| - 1]
  }

  class Reader {
    const limit: nat
    var chunks: seq<Bytes>
    var size: nat
    var done: bool
    var settled: Settled
    ghost var events: seq<Event>

    /** The promise is settled as the events so far demand, and what is buffered is all that arrived. */
    ghost predicate Valid()
      reads this
    {
      && settled == Verdict(limit, events)
      && (done <==> !settled.Unsettled?)
      && (!done ==> Buffered(events) == Some(Concat(chunks)) && size == |Concat(chunks)|)
      && |Concat(chunks)| <= limit
    }

    constructor (limit: nat)
      ensures Valid() && events == [] && this.limit == limit
    {
      this.limit := limit;
      chunks, size, done, settled, events := [], 0, false, Unsettled, [];
    }

    method OnData(chunk: Bytes)
      requires Valid()
      modifies this
      ensures Valid() && events == old(events) + [Data(chunk)]
    {
      VerdictStep(limit, events, Data(chunk));
      events := events + [Data(chunk)];
      if done { return; }
      size := size + |chunk|;
      if size > limit {
        done := true;
        settled := TooLarge;
        return;
      }
      assert (chunks + [chunk])[..|chunks|] == chunks;
      chunks := chunks + [chunk];
    }

    method OnEnd()
      requires Valid()
      modifies this
      ensures Valid() && events == old(events) + [End]
    {
      VerdictStep(limit, events, End);
      events := events + [End];
      if done { return; }
      done := true;
      settled := Resolved(Concat(chunks));
    }

    method OnError()
      requires Valid()
      modifies this
      ensures Valid() && events == old(events) + [Error]
    {
      VerdictStep(limit, events, Error);
      events := events + [Error];
      if done { return; }
      done := true;
      settled := Broken;
    }
  }

  // ---- the verdict on a sequence of events ----

  /** All data, when nothing but data arrived. */
  function Buffered(events: seq<Event>): Option<Bytes> {
    if events == [] then Some([])
    else
      var e := events[|events| - 1];
      var b := Buffered(events[..|events| - 1]);
      if b.Some? && e.Data? then Some(b.value + e.chunk) else None
  }

  /** The first decisive event among all of them. */
  predicate Decides(limit: nat, events: seq<Event>, n: nat)
    requires n < |events|
  {
    var b := Buffered(events[..n]);
    b.Some? && |b.value| <= limit && (events[n].Data? ==> |b.value| + |events[n].chunk| > limit)
  }

  ghost function Verdict(limit: nat, events: seq<Event>): Settled {
    if exists n: nat :: n < |events| && Decides(limit, events, n) then
      var n: nat :| n < |events| && Decides(limit, events, n);
      match events[n]
      case Data(_) => TooLarge
      case End => Resolved(Buffered(events[..n]).value)
      case Error => Broken
    else Unsettled
  }

  lemma {:induction false} BufferedPrefix(events: seq<Event>, m: nat, n: nat)
    requires m <= n <= |events| && Buffered(events[..n]).Some?
    ensures Buffered(events[..m]).Some? && |Buffered(events[..m]).value| <= |Buffered(events[..n]).value|
    ensures m < n ==> events[m].Data?
    ensures m < n ==> |Buffered(events[..m]).value| + |events[m].chunk| <= |Buffered(events[..n]).value|
    decreases n - m
  {
    if m < n {
      assert events[..n][..n - 1] == events[..n - 1];
      if m < n - 1 { BufferedPrefix(events, m, n - 1); }
    }
  }

  /** At most one event decides. */
  lemma DecidesOnce(limit: nat, events: seq<Event>)
    ensures forall m: nat, n: nat ::
              m < |events| && n < |events| && Decides(limit, events, m) && Decides(limit, events, n) ==> m == n
  {
    forall m: nat, n: nat | m < n < |events| && Decides(limit, events, n) ensures !Decides(limit, events, m) {
      BufferedPrefix(events, m, n);
    }
  }

  lemma BufferedOne(chunk: Bytes)
    ensures Buffered([Data(chunk)]) == Some(chunk)
  {
    var es := [Data(chunk)];
    assert es[..0] == [] && [] + chunk == chunk;
    assert Buffered(es[..0]) == Some([]);
  }

  /** The data is taken in the order of arrival. */
  lemma {:induction false} BufferedInOrder(es: seq<Event>, fs: seq<Event>)
    requires Buffered(es).Some? && Buffered(fs).Some?
    ensures Buffered(es + fs) == Some(Buffered(es).value + Buffered(fs).value)
    decreases |fs|
  {
    if fs == [] {
      assert es + fs == es;
      assert Buffered(fs) == Some([]);
      assert Buffered(es).value + [] == Buffered(es).value;
    } else {
      var n, all := |fs| - 1, es + fs;
      BufferedInOrder(es, fs[..n]);
      assert all[..|all| - 1] == es + fs[..n] && all[|all| - 1] == fs[n];
      var a, b, c := Buffered(es).value, Buffered(fs[..n]).value, fs[n].chunk;
      assert (a + b) + c == a + (b + c);
    }
  }

  /** Deciding looks at the events up to the deciding one only. */
  lemma DecidesEarly(limit: nat, events: seq<Event>, e: Event, n: nat)
    requires n < |events|
    ensures Decides(limit, events + [e], n) <==> Decides(limit, events, n)
  {
    assert (events + [e])[..n] == events[..n];
  }

  lemma VerdictIs(limit: nat, events: seq<Event>, n: nat)
    requires n < |events| && Decides(limit, events, n)
    ensures Verdict(limit, events) == match events[n]
                                      case Data(_) => TooLarge
                                      case End => Resolved(Buffered(events[..n]).value)
                                      case Error => Broken
  {
    DecidesOnce(limit, events);
  }

  /** The first settlement is final: no later event changes it. */
  lemma VerdictStep(limit: nat, events: seq<Event>, e: Event)
    requires Verdict(limit, events).Unsettled? ==> Buffered(events).Some? && |Buffered(events).value| <= limit
    ensures Verdict(limit, events + [e])
            == if !Verdict(limit, events).Unsettled? then Verdict(limit, events)
               else match e
                    case Data(chunk) => if |Buffered(events).value| + |chunk| > limit then TooLarge else Unsettled
                    case End => Resolved(Buffered(events).value)
                    case Error => Broken
  {
    var all := events + [e];
    assert all[..|events|] == events;
    forall n: nat | n < |events| ensures Decides(limit, all, n) <==> Decides(limit, events, n) {
      DecidesEarly(limit, events, e, n);
    }
    if !Verdict(limit, events).Unsettled? {
      var n: nat :| n < |events| && Decides(limit, events, n);
      VerdictIs(limit, events, n);
      VerdictIs(limit, all, n);
      assert all[..n] == events[..n];
    } else {
      forall n: nat | n < |events| ensures !Decides(limit, events, n) {
        if Decides(limit, events, n) { VerdictIs(limit, events, n); }
      }
      if Decides(limit, all, |events|) { VerdictIs(limit, all, |events|); }
    }
  }

  /** The promise resolves to a body exactly when the stream ends after data within the limit, and the body
      is that data in order; it is too large exactly when data runs over the limit before any end or error. */
  lemma VerdictExact(limit: nat, events: seq<Event>, body: Bytes)
    ensures Verdict(limit, events) == Resolved(body) <==>
            exists n: nat :: n < |events| && events[n].End? && Buffered(events[..n]) == Some(body) && |body| <= limit
    ensures Verdict(limit, events) == TooLarge <==>
            exists n: nat :: n < |events| && events[n].Data? && Buffered(events[..n]).Some?
                             && |Buffered(events[..n]).value| <= limit
                             && limit < |Buffered(events[..n]).value| + |events[n].chunk|
  {
    forall n: nat | n < |events| && Decides(limit, events, n)
      ensures Verdict(limit, events) == match events[n]
                                        case Data(_) => TooLarge
                                        case End => Resolved(Buffered(events[..n]).value)
                                        case Error => Broken
    {
      VerdictIs(limit, events, n);
    }
    forall n: nat | n < |events| && events[n].End? && Buffered(events[..n]) == Some(body) && |body| <= limit
      ensures Decides(limit, events, n) {}
    forall n: nat | n < |events| && events[n].Data? && Buffered(events[..n]).Some?
                    && |Buffered(events[..n]).value| <= limit < |Buffered(events[..n]).value| + |events[n].chunk|
      ensures Decides(limit, events, n) {}
  }
}
