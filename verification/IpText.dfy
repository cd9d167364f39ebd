/** parseIPv4 and parseIPv6: the text forms of addresses. */
module IpText {
  import opened Text

  const OCTETS := 256
  const GROUPS := 0x1_0000
  const V4_SIZE := 0x1_0000_0000
  const V6_SIZE := 0x1_0000_0000_0000_0000_0000_0000_0000_0000

  // ---- IPv4 ----

  predicate QuadWord(w: string) { 1 <= |w| <= 3 && IsNumeral(w, false) }

  /** Does the text have the dotted-quad shape of the regular expression? */
  predicate QuadShape(s: string) {
    |Split(s, '.')| == 4 && forall i :: 0 <= i < 4 ==> QuadWord(Split(s, '.')[i])
  }

  function WordValues(ws: seq<string>, hex: bool): (vs: seq<nat>)
    requires forall i :: 0 <= i < |ws| ==> IsNumeral(ws[i], hex)
    ensures |vs| == |ws|
  {
    seq(|ws|, i requires 0 <= i < |ws| => NumeralValue(ws[i], hex))
  }

  function Ipv4Of(s: string): Option<nat> {
    var t := Trim(s);
    if !QuadShape(t) then None
    else
      var vs := WordValues(Split(t, '.'), false);
      if exists i :: 0 <= i < 4 && vs[i] > 255 then None
      else Some(Positional(vs, OCTETS))
  }

  method ParseIPv4(v: JsValue) returns (r: Option<nat>)
    ensures r == if v.JsString? then Ipv4Of(v.s) else None
  {
    if v.JsOther? { return None; }
    var t := Trim(v.s);
    if !QuadShape(t) { return None; }
    var m := Split(t, '.');
    var n := 0;
    ghost var vs := WordValues(m, false);
    assert Ipv4Of(v.s) == (if exists i :: 0 <= i < 4 && vs[i] > 255 then None else Some(Positional(vs, OCTETS)));
    for i := 0 to 4
      invariant forall j :: 0 <= j < i ==> vs[j] <= 255
      invariant n == Positional(vs[..i], OCTETS)
    {
      var o := NumeralValue(m[i], false);
      assert vs[i] == o;
      if o > 255 { return None; }
      n := n * OCTETS + o;
      assert vs[..i + 1][..i] == vs[..i];
    }
    assert vs[..4] == vs;
    return Some(n);
  }

  predicate OctetWord(w: string) { QuadWord(w) && NumeralValue(w, false) <= 255 }

  predicate Octets(ws: seq<string>) {
    |ws| == 4 && forall i :: 0 <= i < 4 ==> OctetWord(ws[i])
  }

  predicate IsQuad(d: string) { Octets(Split(d, '.')) }

  function QuadValue(d: string): nat
    requires IsQuad(d)
  {
    Positional(WordValues(Split(d, '.'), false), OCTETS)
  }

  lemma QuadBound(d: string)
    requires IsQuad(d)
    ensures QuadValue(d) < V4_SIZE
  {
    var vs := WordValues(Split(d, '.'), false);
    assert forall i :: 0 <= i < |vs| ==> OctetWord(Split(d, '.')[i]) && vs[i] < OCTETS;
    PositionalBound(vs, OCTETS);
    assert Power(OCTETS, 4) == OCTETS * (OCTETS * (OCTETS * (OCTETS * Power(OCTETS, 0))));
  }

  /** parseIPv4 accepts exactly the dotted quads, with any leading zeros that fit in three digits. */
  lemma Ipv4Grammar(s: string, v: nat)
    ensures Ipv4Of(s) == Some(v) <==>
            exists ws :: Octets(ws) && Trim(s) == Join(ws, '.')
                         && v == Positional(WordValues(ws, false), OCTETS)
    ensures Ipv4Of(s) == Some(v) ==> v < V4_SIZE
  {
    var t := Trim(s);
    if Ipv4Of(s) == Some(v) {
      SplitParts(t, '.');
      var vs := WordValues(Split(t, '.'), false);
      forall i | 0 <= i < 4 ensures OctetWord(Split(t, '.')[i]) { assert vs[i] <= 255; }
      assert Octets(Split(t, '.'));
      QuadBound(t);
    }
    forall ws | Octets(ws) && t == Join(ws, '.') ensures Split(t, '.') == ws {
      forall p | p in ws ensures Free(p, '.') {
        var i :| 0 <= i < 4 && ws[i] == p;
        assert OctetWord(ws[i]);
      }
      SplitJoin(ws, '.');
    }
    if exists ws :: Octets(ws) && t == Join(ws, '.') {
      assert Octets(Split(t, '.'));
    }
  }

  // ---- IPv6 ----

  predicate HexWord(w: string) { 1 <= |w| <= 4 && IsNumeral(w, true) }

  predicate HexWords(ws: seq<string>) { forall i :: 0 <= i < |ws| ==> HexWord(ws[i]) }

  predicate GapAt(s: string, i: int) { 0 <= i && i + 1 < |s| && s[i] == ':' && s[i + 1] == ':' }

  /** indexOf('::', from), -1 when absent. */
  function GapIndex(s: string, from: nat): (i: int)
    requires from <= |s|
    ensures i == -1 || (from <= i && GapAt(s, i))
    ensures forall j :: from <= j < (if i == -1 then |s| else i) ==> !GapAt(s, j)
    decreases |s| - from
  {
    if from == |s| then -1 else if GapAt(s, from) then from else GapIndex(s, from + 1)
  }

  /** Position of the last colon, -1 when there is none. */
  function LastColon(s: string): (i: int)
    ensures -1 <= i < |s|
    ensures i >= 0 ==> s[i] == ':'
    ensures forall j :: i < j < |s| ==> s[j] != ':'
  {
    if s == "" then -1
    else if s[|s| - 1] == ':' then |s| - 1
    else LastColon(s[..|s| - 1])
  }

  /** Rewrite an embedded IPv4 tail into two hexadecimal groups; None when the tail is a bad IPv4 address. */
  function ExpandQuad(s: string): Option<string> {
    var c := LastColon(s);
    if c == -1 || !QuadShape(s[c + 1..]) then Some(s)
    else
      match Ipv4Of(s[c + 1..])
      case None => None
      case Some(v) => Some(s[..c + 1] + Numeral(v / GROUPS, true) + [':'] + Numeral(v % GROUPS, true))
  }

  function SplitSide(s: string): seq<string> { if s == "" then [] else Split(s, ':') }

  /** Fill the gap between two sides with zero groups, at least one. */
  function Fill(head: seq<string>, tail: seq<string>): (r: Option<seq<string>>)
    ensures r.Some? ==> |r.value| == 8
  {
    if |head| + |tail| > 7 then None
    else Some(head + seq(8 - |head| - |tail|, _ => "0") + tail)
  }

  /** The eight group texts, before they are checked to be hexadecimal. */
  function GroupTexts(s: string): (r: Option<seq<string>>)
    ensures r.Some? ==> |r.value| == 8
  {
    var dc := GapIndex(s, 0);
    if dc >= 0 then
      if GapIndex(s, dc + 1) >= 0 then None
      else Fill(SplitSide(s[..dc]), SplitSide(s[dc + 2..]))
    else
      var head := Split(s, ':');
      if |head| != 8 then None else Some(head)
  }

  function Ipv6Of(s: string): Option<nat> {
    var t := ToLower(Trim(s));
    if t == "" then None
    else
      match ExpandQuad(t)
      case None => None
      case Some(x) =>
        match GroupTexts(x)
        case None => None
        case Some(groups) =>
          if HexWords(groups) then Some(Positional(WordValues(groups, true), GROUPS)) else None
  }

  method SplitGroups(s: string) returns (r: Option<seq<string>>)
    ensures r == GroupTexts(s)
  {
    var head, tail;
    var dc := GapIndex(s, 0);
    if dc >= 0 {
      if GapIndex(s, dc + 1) >= 0 { return None; }
      head, tail := SplitSide(s[..dc]), SplitSide(s[dc + 2..]);
      if |head| + |tail| > 7 { return None; }
    } else {
      head, tail := Split(s, ':'), [];
      if |head| != 8 { return None; }
      assert head + seq(0, _ => "0") + tail == head;
    }
    return Some(head + seq(8 - |head| - |tail|, _ => "0") + tail);
  }

  method FoldGroups(groups: seq<string>) returns (r: Option<nat>)
    ensures r == if HexWords(groups) then Some(Positional(WordValues(groups, true), GROUPS)) else None
  {
    var n := 0;
    for i := 0 to |groups|
      invariant HexWords(groups[..i])
      invariant n == Positional(WordValues(groups[..i], true), GROUPS)
    {
      if !HexWord(groups[i]) { return None; }
      n := n * GROUPS + NumeralValue(groups[i], true);
      assert WordValues(groups[..i + 1], true)[..i] == WordValues(groups[..i], true);
    }
    assert groups[..|groups|] == groups;
    return Some(n);
  }

  method ParseIPv6(v: JsValue) returns (r: Option<nat>)
    ensures r == if v.JsString? then Ipv6Of(v.s) else None
  {
    if v.JsOther? { return None; }
    var s := ToLower(Trim(v.s));
    if s == "" { return None; }
    var c := LastColon(s);
    if c >= 0 && QuadShape(s[c + 1..]) {
      var v4 := ParseIPv4(JsString(s[c + 1..]));
      if v4.None? { return None; }
      s := s[..c + 1] + Numeral(v4.value / GROUPS, true) + [':'] + Numeral(v4.value % GROUPS, true);
    }
    assert ExpandQuad(ToLower(Trim(v.s))) == Some(s);
    var groups := SplitGroups(s);
    if groups.None? { return None; }
    r := FoldGroups(groups.value);
  }
}
