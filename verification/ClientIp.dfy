/** deriveClientIp: the client address behind a count of trusted proxy hops. */
module ClientIp {
  import opened Text
  import opened IpText
  import IpGrammar

  /** Trim, and unwrap an IPv4-mapped dotted quad. None stands for null and undefined. */
  function NormIp(v: Option<string>): (r: Option<string>)
    ensures r.Some? ==> r.value != ""
  {
    if v.None? || Trim(v.value) == "" then None
    else
      var s := Trim(v.value);
      if |s| > 7 && ToLower(s[..7]) == "::ffff:" && QuadShape(s[7..]) then Some(s[7..]) else Some(s)
  }

  lemma QuadIsPlain(q: string)
    requires QuadShape(q)
    ensures forall i :: 0 <= i < |q| ==> IsDigit(q[i]) || q[i] == '.'
  {
    JoinSplit(q, '.');
    IpGrammar.QuadPlain(Split(q, '.'));
  }

  /** The IPv4-mapped form in any case and the plain quad have the same canonical form, the quad. */
  lemma MappedIsPlain(prefix: string, q: string)
    requires ToLower(prefix) == "::ffff:" && QuadShape(q)
    ensures NormIp(Some(prefix + q)) == NormIp(Some(q)) == Some(q)
  {
    QuadIsPlain(q);
    var s := prefix + q;
    assert |ToLower(prefix)| == |prefix| == 7;
    assert s[..7] == prefix && s[7..] == q;
    forall i | 0 <= i < |s| ensures !IsSpace(s[i]) {
      if i < 7 { assert LowerChar(prefix[i]) == "::ffff:"[i]; } else { assert s[i] == q[i - 7]; }
    }
    TrimPlain(s);
    TrimPlain(q);
    if |q| > 7 { assert ToLower(q[..7])[0] == LowerChar(q[0]) != ':'; }
  }

  /** A canonical form stays as it is. */
  lemma NormIpTwice(v: Option<string>)
    ensures NormIp(NormIp(v)) == NormIp(v)
  {
    if NormIp(v).Some? {
      var s := Trim(v.value);
      TrimTwice(v.value);
      if |s| > 7 && ToLower(s[..7]) == "::ffff:" && QuadShape(s[7..]) { MappedIsPlain(s[..7], s[7..]); }
    }
  }

  function NormAll(parts: seq<string>): seq<string> {
    if parts == [] then []
    else
      match NormIp(Some(parts[0]))
      case Some(p) => [p] + NormAll(parts[1..])
      case None => NormAll(parts[1..])
  }

  /** The non-blank entries of an X-Forwarded-For header, client side first. */
  function Entries(header: string): seq<string> { NormAll(Split(header, ',')) }

  function HeaderEntries(header: Option<string>): seq<string> {
    if header.None? then [] else Entries(header.value)
  }

  /** The address that the entries and the hop count select: the peer for zero hops, otherwise the entry
      that many places from the right, or the leftmost when there are not enough. */
  function Pick(peer: Option<string>, es: seq<string>, hops: int): Option<string> {
    if hops <= 0 || es == [] then peer
    else Some(es[if hops <= |es| then |es| - hops else 0])
  }

  /** `hops` is None when it is no integer. */
  function Chosen(peer: Option<string>, header: Option<string>, hops: Option<int>): Option<string> {
    Pick(NormIp(peer), HeaderEntries(header), if hops.None? then 0 else hops.value)
  }

  /** [peer, ...header reversed]: the hop closest to us comes first. */
  method BuildList(peer: Option<string>, header: Option<string>) returns (list: seq<Option<string>>)
    ensures var es := HeaderEntries(header);
            |list| == |es| + 1 && list[0] == NormIp(peer)
            && forall k :: 1 <= k <= |es| ==> list[k] == Some(es[|es| - k])
  {
    list := [NormIp(peer)];
    if header.Some? && header.value != "" {
      var parts := Entries(header.value);
      var i := |parts| - 1;
      while i >= 0
        invariant -1 <= i < |parts|
        invariant |list| == |parts| - i
        invariant list[0] == NormIp(peer)
        invariant forall k :: 1 <= k < |list| ==> list[k] == Some(parts[|parts| - k])
      {
        list := list + [Some(parts[i])];
        i := i - 1;
      }
    } else {
      BlankHeader();
    }
  }

  /** Clamp the hop count to the list and take that element, or the peer when it is empty. */
  method Select(list: seq<Option<string>>, peer: Option<string>, hops: Option<int>, ghost es: seq<string>)
    returns (r: Option<string>)
    requires |list| == |es| + 1 && list[0] == peer && forall k :: 1 <= k <= |es| ==> list[k] == Some(es[|es| - k])
    ensures r == Pick(peer, es, if hops.None? then 0 else hops.value)
  {
    var idx := if hops.Some? then hops.value else 0;
    if idx < 0 { idx := 0; }
    if idx > |list| - 1 { idx := |list| - 1; }
    r := if list[idx].Some? then list[idx] else peer;
  }

  method DeriveClientIp(peer: Option<string>, header: Option<string>, hops: Option<int>) returns (r: Option<string>)
    ensures r == Chosen(peer, header, hops)
  {
    var list := BuildList(peer, header);
    r := Select(list, NormIp(peer), hops, HeaderEntries(header));
  }

  /** Without trusted hops the header is ignored. */
  lemma NoHops(peer: Option<string>, header: Option<string>, hops: Option<int>)
    requires hops.None? || hops.value <= 0
    ensures Chosen(peer, header, hops) == NormIp(peer)
  {
  }

  lemma {:induction false} NormAllAt(parts: seq<string>, i: nat)
    requires i < |parts| && forall j :: 0 <= j < |parts| ==> NormIp(Some(parts[j])).Some?
    ensures |NormAll(parts)| == |parts| && Some(NormAll(parts)[i]) == NormIp(Some(parts[i]))
  {
    if |parts| == 1 {
      assert parts[1..] == [];
    } else {
      assert forall j :: 0 <= j < |parts| - 1 ==> parts[1..][j] == parts[j + 1];
      NormAllAt(parts[1..], if i == 0 then 0 else i - 1);
    }
  }

  lemma PickAt(peer: Option<string>, es: seq<string>, n: nat, i: nat)
    requires n >= 1 && es != [] && i == if n <= |es| then |es| - n else 0
    ensures Pick(peer, es, n) == Some(es[i])
  {
  }

  /** With `n` trusted hops the result is the n-th entry from the right of a header whose entries are not
      blank, or the first when there are fewer. */
  lemma HopsFromRight(peer: Option<string>, parts: seq<string>, n: nat)
    requires n >= 1 && |parts| >= 1
    requires forall p :: p in parts ==> Free(p, ',') && NormIp(Some(p)).Some?
    ensures Chosen(peer, Some(Join(parts, ',')), Some(n))
            == NormIp(Some(if n <= |parts| then parts[|parts| - n] else parts[0]))
  {
    SplitJoin(parts, ',');
    forall j | 0 <= j < |parts| ensures NormIp(Some(parts[j])).Some? { assert parts[j] in parts; }
    var i := if n <= |parts| then |parts| - n else 0;
    NormAllAt(parts, i);
    PickAt(NormIp(peer), NormAll(parts), n, i);
  }

  /** Any other text keeps its form but for the blanks around it. */
  lemma NormIpElse(s: string)
    ensures NormIp(Some(s)).None? <==> Trim(s) == ""
    ensures NormIp(Some(s)).Some? && NormIp(Some(s)).value != Trim(s) ==>
              exists m, q :: Trim(s) == m + q && ToLower(m) == "::ffff:" && QuadShape(q) && NormIp(Some(s)).value == q
  {
    var t := Trim(s);
    if NormIp(Some(s)).Some? && NormIp(Some(s)).value != t {
      assert t == t[..7] + t[7..];
    }
  }

  lemma BlankHeader()
    ensures Entries("") == []
  {
    assert Split("", ',') == [""];
  }

  lemma {:induction false} NormAllAppend(a: seq<string>, b: seq<string>)
    ensures NormAll(a + b) == NormAll(a) + NormAll(b)
  {
    if a == [] {
      assert a + b == b;
    } else {
      assert (a + b)[1..] == a[1..] + b;
      NormAllAppend(a[1..], b);
    }
  }

  /** Whatever a caller puts before a comma stays to the left of what follows it. */
  lemma EntriesAppend(f: string, suffix: string)
    ensures Entries(f + [','] + suffix) == Entries(f) + Entries(suffix)
  {
    SplitAtSeparator(f, suffix, ',');
    NormAllAppend(Split(f, ','), Split(suffix, ','));
  }

  /** The result does not depend on what precedes the suffix. */
  ghost predicate Unforgeable(peer: Option<string>, suffix: string, hops: int) {
    forall f: string :: Chosen(peer, Some(f + [','] + suffix), Some(hops)) == Chosen(peer, Some(suffix), Some(hops))
  }

  lemma TrustedSuffix(peer: Option<string>, f: string, suffix: string, hops: int)
    requires hops <= |Entries(suffix)|
    ensures Chosen(peer, Some(f + [','] + suffix), Some(hops)) == Chosen(peer, Some(suffix), Some(hops))
  {
    EntriesAppend(f, suffix);
    PickSuffix(NormIp(peer), Entries(f), Entries(suffix), hops);
  }

  lemma PickSuffix(peer: Option<string>, a: seq<string>, es: seq<string>, hops: int)
    requires hops <= |es|
    ensures Pick(peer, a + es, hops) == Pick(peer, es, hops)
  {
  }

  /** A prefix that a caller forges cannot change the result exactly when the trusted suffix holds an
      entry for every hop. */
  lemma ForgedPrefixHarmless(peer: Option<string>, suffix: string, hops: int)
    ensures Unforgeable(peer, suffix, hops) <==> hops <= |Entries(suffix)|
  {
    if hops <= |Entries(suffix)| {
      forall f: string
        ensures Chosen(peer, Some(f + [','] + suffix), Some(hops)) == Chosen(peer, Some(suffix), Some(hops))
      {
        TrustedSuffix(peer, f, suffix, hops);
      }
    } else {
      ForgedEntryChosen(peer, suffix, hops, "a");
      ForgedEntryChosen(peer, suffix, hops, "b");
      assert "a"[0] != "b"[0];
    }
  }

  lemma ForgedEntryChosen(peer: Option<string>, suffix: string, hops: int, w: string)
    requires hops > |Entries(suffix)| && w in {"a", "b"}
    ensures Chosen(peer, Some(w + [','] + suffix), Some(hops)) == Some(w)
  {
    EntriesAppend(w, suffix);
    TrimPlain(w);
    SplitFree(w, ',');
    assert NormAll([w]) == [w] + NormAll([w][1..]);
  }

  /** The source's comment says that a header with fewer entries than hops falls back to the socket peer.
      The code clamps to the leftmost entry instead: the peer is returned exactly when the header has no
      entry, or its leftmost entry is the peer. */
  lemma ShortHeader(peer: Option<string>, header: string, hops: int)
    requires hops > |Entries(header)|
    ensures var es := Entries(header);
            Chosen(peer, Some(header), Some(hops)) == NormIp(peer) <==> es == [] || NormIp(peer) == Some(es[0])
  {
  }

  lemma ShortHeaderExample()
    ensures Chosen(Some("p"), Some("c"), Some(2)) == Some("c") != NormIp(Some("p"))
  {
    TrimPlain("p");
    TrimPlain("c");
    SplitFree("c", ',');
    assert NormAll(["c"]) == ["c"] + NormAll(["c"][1..]);
    assert "c"[0] != "p"[0];
  }
}
