/** The text forms of section 2.2 of RFC 4291, written down independently of the parser, and the
    proof that parseIPv6 accepts exactly them and returns the number they denote. */
module IpGrammar {
  import opened Text
  import opened IpText

  /** All pieces written out, or one `::` between `head` and `tail`. The last piece may be a dotted quad. */
  datatype Shape = Full(pieces: seq<string>) | Gap(head: seq<string>, tail: seq<string>)

  function Render(sh: Shape): string {
    match sh
    case Full(ps) => Join(ps, ':')
    case Gap(h, t) => Join(h, ':') + "::" + Join(t, ':')
  }

  predicate Pieces(ps: seq<string>) {
    ps == [] || (HexWords(ps[..|ps| - 1]) && (HexWord(ps[|ps| - 1]) || IsQuad(ps[|ps| - 1])))
  }

  /** The 16-bit groups that a run of pieces stands for: a quad stands for two. */
  function GroupValues(ps: seq<string>): seq<nat>
    requires Pieces(ps)
  {
    if ps == [] then []
    else
      var last := ps[|ps| - 1];
      WordValues(ps[..|ps| - 1], true)
      + if HexWord(last) then [NumeralValue(last, true)]
        else [QuadValue(last) / GROUPS, QuadValue(last) % GROUPS]
  }

  /** Eight groups; a `::` stands for at least one zero group. */
  predicate Valid(sh: Shape) {
    match sh
    case Full(ps) => Pieces(ps) && |GroupValues(ps)| == 8
    case Gap(h, t) => HexWords(h) && Pieces(t) && |h| + |GroupValues(t)| <= 7
  }

  function GroupsDenoted(sh: Shape): (gs: seq<nat>)
    requires Valid(sh)
    ensures |gs| == 8
  {
    match sh
    case Full(ps) => GroupValues(ps)
    case Gap(h, t) =>
      var hv, tv := WordValues(h, true), GroupValues(t);
      hv + seq(8 - |hv| - |tv|, _ => 0) + tv
  }

  function Denotes(sh: Shape): nat
    requires Valid(sh)
  {
    Positional(GroupsDenoted(sh), GROUPS)
  }

  // ---- words hold no colon, dot or white space ----

  lemma HexWordPlain(w: string)
    requires IsNumeral(w, true)
    ensures Free(w, ':') && Free(w, '.') && (w != "" ==> w[0] != ':' && w[|w| - 1] != ':')
  {
  }

  lemma {:induction false} QuadPlain(ws: seq<string>)
    requires forall i :: 0 <= i < |ws| ==> QuadWord(ws[i])
    ensures forall i :: 0 <= i < |Join(ws, '.')| ==> IsDigit(Join(ws, '.')[i]) || Join(ws, '.')[i] == '.'
  {
    if |ws| > 1 { QuadPlain(ws[1..]); }
  }

  lemma QuadText(d: string)
    requires IsQuad(d)
    ensures Free(d, ':') && !HexWord(d) && d != "" && QuadShape(d)
    ensures Ipv4Of(d) == Some(QuadValue(d))
  {
    SplitParts(d, '.');
    var ws := Split(d, '.');
    forall i | 0 <= i < 4 ensures QuadWord(ws[i]) { assert OctetWord(ws[i]); }
    QuadPlain(ws);
    TrimPlain(d);
    if Free(d, '.') { SplitFree(d, '.'); }
    assert QuadShape(d);
    var vs := WordValues(ws, false);
    forall i | 0 <= i < 4 ensures vs[i] <= 255 { assert OctetWord(ws[i]); }
  }

  // ---- a joined list of words holds no `::` ----

  lemma {:induction false} JoinNoGap(ps: seq<string>)
    requires |ps| >= 1 && HexWords(ps)
    ensures var t := Join(ps, ':'); t != "" && t[0] != ':' && t[|t| - 1] != ':' && forall i :: !GapAt(t, i)
  {
    HexWordPlain(ps[0]);
    if |ps| > 1 {
      JoinNoGap(ps[1..]);
      var rest := Join(ps[1..], ':');
      var t := Join(ps, ':');
      var n := |ps[0]|;
      forall i ensures !GapAt(t, i) {
        if 0 <= i < n { assert t[i] == ps[0][i]; }
        if i == n { assert t[i + 1] == rest[0]; }
        if n < i < |t| - 1 {
          assert t[i] == rest[i - n - 1] && t[i + 1] == rest[i - n];
          assert !GapAt(rest, i - n - 1);
        }
      }
    }
  }

  predicate AllWords(sh: Shape) {
    match sh
    case Full(ps) => HexWords(ps)
    case Gap(h, t) => HexWords(h) && HexWords(t)
  }

  function TextsDenoted(sh: Shape): seq<string>
    requires Valid(sh) && AllWords(sh)
  {
    match sh
    case Full(ps) => ps
    case Gap(h, t) => h + seq(if |h| + |t| <= 7 then 8 - |h| - |t| else 0, _ => "0") + t
  }

  lemma GapSides(h: seq<string>, t: seq<string>)
    requires HexWords(h) && HexWords(t)
    ensures var a, b := Join(h, ':'), Join(t, ':'); var x := a + "::" + b;
            GapIndex(x, 0) == |a| && GapIndex(x, |a| + 1) == -1
            && SplitSide(a) == h && SplitSide(b) == t
  {
    var a, b := Join(h, ':'), Join(t, ':');
    var x := a + "::" + b;
    SideParts(h);
    SideParts(t);
    if h != [] { JoinNoGap(h); }
    if t != [] { JoinNoGap(t); }
    assert x[|a|] == ':' && x[|a| + 1] == ':';
    assert GapAt(x, |a|);
    forall i | 0 <= i < |a| ensures !GapAt(x, i) {
      assert x[i] == a[i];
      if i + 1 < |a| { assert x[i + 1] == a[i + 1] && !GapAt(a, i); }
    }
    forall i | |a| < i ensures !GapAt(x, i) {
      if i + 1 < |x| {
        assert x[i + 1] == b[i - |a| - 1];
        if i > |a| + 1 { assert x[i] == b[i - |a| - 2] && !GapAt(b, i - |a| - 2); }
      }
    }
  }

  lemma SideParts(ps: seq<string>)
    requires HexWords(ps)
    ensures SplitSide(Join(ps, ':')) == ps
  {
    if ps != [] {
      JoinNoGap(ps);
      forall p | p in ps ensures Free(p, ':') {
        var i :| 0 <= i < |ps| && ps[i] == p;
        HexWordPlain(ps[i]);
      }
      SplitJoin(ps, ':');
    }
  }

  lemma FullIsGrouped(ps: seq<string>)
    requires HexWords(ps) && |ps| == 8
    ensures GroupTexts(Join(ps, ':')) == Some(ps)
  {
    JoinNoGap(ps);
    SideParts(ps);
    assert GapIndex(Join(ps, ':'), 0) == -1;
  }

  lemma SidesGrouped(a: string, b: string, h: seq<string>, t: seq<string>)
    requires GapIndex(a + "::" + b, 0) == |a| && GapIndex(a + "::" + b, |a| + 1) == -1
    requires SplitSide(a) == h && SplitSide(b) == t
    ensures GroupTexts(a + "::" + b) == Fill(h, t)
  {
    var x := a + "::" + b;
    assert x[..|a|] == a && x[|a| + 2..] == b;
  }

  lemma GapIsGrouped(h: seq<string>, t: seq<string>)
    requires HexWords(h) && HexWords(t) && |h| + |t| <= 7
    ensures GroupTexts(Join(h, ':') + "::" + Join(t, ':')) == Some(h + seq(8 - |h| - |t|, _ => "0") + t)
  {
    GapSides(h, t);
    SidesGrouped(Join(h, ':'), Join(t, ':'), h, t);
  }

  lemma ZeroText()
    ensures HexWord("0") && NumeralValue("0", true) == 0
  {
    assert "0"[..0] == "";
  }

  lemma GapGroups(h: seq<string>, t: seq<string>, k: nat)
    requires HexWords(h) && HexWords(t)
    ensures HexWords(h + seq(k, _ => "0") + t)
    ensures WordValues(h + seq(k, _ => "0") + t, true) == WordValues(h, true) + seq(k, _ => 0) + WordValues(t, true)
  {
    ZeroText();
  }

  /** Without an embedded quad, the parser recovers the group texts. */
  lemma WordsAreGrouped(sh: Shape)
    requires Valid(sh) && AllWords(sh)
    ensures GroupTexts(Render(sh)) == Some(TextsDenoted(sh))
    ensures HexWords(TextsDenoted(sh))
    ensures WordValues(TextsDenoted(sh), true) == GroupsDenoted(sh)
  {
    match sh
    case Full(ps) =>
      PiecesOfWords(ps);
      FullIsGrouped(ps);
    case Gap(h, t) =>
      PiecesOfWords(t);
      GapIsGrouped(h, t);
      GapGroups(h, t, 8 - |h| - |t|);
  }

  lemma PiecesOfWords(ps: seq<string>)
    requires HexWords(ps)
    ensures Pieces(ps) && GroupValues(ps) == WordValues(ps, true)
  {
    if ps != [] {
      assert HexWord(ps[|ps| - 1]);
      assert WordValues(ps, true) == WordValues(ps[..|ps| - 1], true) + [NumeralValue(ps[|ps| - 1], true)];
    }
  }

  // ---- the last piece ----

  function Parts(sh: Shape): seq<string> {
    match sh case Full(ps) => ps case Gap(_, t) => t
  }

  /** Can the last piece be set apart by a colon? */
  predicate HasLast(sh: Shape) { |Parts(sh)| >= if sh.Full? then 2 else 1 }

  function Last(sh: Shape): string
    requires HasLast(sh)
  {
    Parts(sh)[|Parts(sh)| - 1]
  }

  function Leading(sh: Shape): seq<string>
    requires HasLast(sh)
  {
    Parts(sh)[..|Parts(sh)| - 1]
  }

  function WithParts(sh: Shape, ps: seq<string>): Shape {
    match sh case Full(_) => Full(ps) case Gap(h, _) => Gap(h, ps)
  }

  function Replace(sh: Shape, xs: seq<string>): Shape
    requires HasLast(sh)
  {
    WithParts(sh, Leading(sh) + xs)
  }

  function Lead(ps: seq<string>): string { if ps == [] then "" else Join(ps, ':') + ":" }

  /** The text before the last piece; it ends in a colon. */
  function Prefix(sh: Shape): (p: string)
    requires HasLast(sh)
    ensures p != "" && p[|p| - 1] == ':'
  {
    match sh
    case Full(_) => Lead(Leading(sh))
    case Gap(h, _) => Join(h, ':') + "::" + Lead(Leading(sh))
  }

  lemma JoinLead(init: seq<string>, xs: seq<string>)
    requires |xs| >= 1
    ensures Join(init + xs, ':') == Lead(init) + Join(xs, ':')
  {
    if init == [] {
      assert init + xs == xs;
    } else {
      JoinAppend(init, xs, ':');
    }
  }

  lemma Reassociate(a: string, b: string, c: string)
    ensures a + (b + c) == a + b + c
  {
  }

  lemma RenderReplaced(sh: Shape, xs: seq<string>)
    requires HasLast(sh) && |xs| >= 1
    ensures Render(Replace(sh, xs)) == Prefix(sh) + Join(xs, ':')
    ensures Replace(sh, [Last(sh)]) == sh
  {
    JoinLead(Leading(sh), xs);
    assert Leading(sh) + [Last(sh)] == Parts(sh);
    if sh.Gap? { Reassociate(Join(sh.head, ':') + "::", Lead(Leading(sh)), Join(xs, ':')); }
  }

  predicate EndsInColon(p: string) { p != "" && p[|p| - 1] == ':' }

  lemma LastColonAt(p: string, w: string)
    requires EndsInColon(p) && Free(w, ':')
    ensures LastColon(p + w) == |p| - 1
    ensures (p + w)[..|p|] == p && (p + w)[|p|..] == w
  {
    var s := p + w;
    assert s[|p| - 1] == ':';
    forall j | |p| <= j < |s| ensures s[j] != ':' { assert s[j] == w[j - |p|]; }
  }

  lemma SameSplit(p: string, w: string, q: string, v: string)
    requires EndsInColon(p) && EndsInColon(q) && Free(w, ':') && Free(v, ':') && p + w == q + v
    ensures p == q && w == v
  {
    LastColonAt(p, w);
    LastColonAt(q, v);
  }

  // ---- every valid spelling is parsed to the number it denotes ----

  function HexTail(v: nat): seq<string> { [Numeral(v / GROUPS, true), Numeral(v % GROUPS, true)] }

  lemma HexTailWords(v: nat)
    requires v < V4_SIZE
    ensures HexWords(HexTail(v)) && WordValues(HexTail(v), true) == [v / GROUPS, v % GROUPS]
  {
    assert Power(16, 4) == 16 * (16 * (16 * (16 * Power(16, 0))));
    NumeralLength(v / GROUPS, true, 4);
    NumeralLength(v % GROUPS, true, 4);
    NumeralRoundTrip(v / GROUPS, true);
    NumeralRoundTrip(v % GROUPS, true);
  }

  lemma TailGroups(init: seq<string>, d: string)
    requires IsQuad(d)
    ensures var w := init + HexTail(QuadValue(d));
            Pieces(init + [d]) == HexWords(init) == HexWords(w)
            && (HexWords(init) ==> Pieces(w) && GroupValues(init + [d]) == GroupValues(w) == WordValues(w, true))
  {
    QuadText(d);
    QuadBound(d);
    var tail := HexTail(QuadValue(d));
    HexTailWords(QuadValue(d));
    assert (init + [d])[..|init|] == init;
    var w := init + tail;
    forall i | 0 <= i < |init| ensures w[i] == init[i] {}
    assert w[|init|] == tail[0] && w[|init| + 1] == tail[1];
    if HexWords(init) {
      PiecesOfWords(w);
      assert WordValues(w, true) == WordValues(init, true) + WordValues(tail, true);
    }
  }

  /** Replacing a trailing quad by its two groups changes neither validity nor the number. */
  lemma QuadAsGroups(sh: Shape, d: string)
    requires HasLast(sh) && IsQuad(d)
    ensures var e := Replace(sh, [d]); var w := Replace(sh, HexTail(QuadValue(d)));
            (Valid(e) <==> Valid(w) && AllWords(w)) && (Valid(e) ==> GroupsDenoted(e) == GroupsDenoted(w))
  {
    var a, b := Leading(sh) + [d], Leading(sh) + HexTail(QuadValue(d));
    TailGroups(Leading(sh), d);
    GroupsOfParts(sh, a);
    GroupsOfParts(sh, b);
    SameGroups(sh, a, b);
  }

  lemma SameGroups(sh: Shape, a: seq<string>, b: seq<string>)
    requires Pieces(a) == HexWords(b) && (Pieces(a) ==> Pieces(b) && GroupValues(a) == GroupValues(b))
    ensures var e, w := WithParts(sh, a), WithParts(sh, b);
            (Valid(e) <==> Valid(w) && AllWords(w)) && (Valid(e) ==> GroupsDenoted(e) == GroupsDenoted(w))
  {
  }

  /** Validity and meaning depend on the parts only through the groups they stand for. */
  lemma GroupsOfParts(sh: Shape, ps: seq<string>)
    ensures var w := WithParts(sh, ps);
            Valid(w) <==> Pieces(ps) && match sh case Full(_) => |GroupValues(ps)| == 8
                                        case Gap(h, _) => HexWords(h) && |h| + |GroupValues(ps)| <= 7
    ensures var w := WithParts(sh, ps);
            Valid(w) ==> GroupsDenoted(w) == match sh case Full(_) => GroupValues(ps)
                         case Gap(h, _) =>
                            WordValues(h, true) + seq(8 - |h| - |GroupValues(ps)|, _ => 0) + GroupValues(ps)
  {
  }

  lemma NotAQuad(s: string, last: string)
    requires LastColon(s) >= 0 && s[LastColon(s) + 1..] == last && IsNumeral(last, true)
    ensures ExpandQuad(s) == Some(s)
  {
    HexWordPlain(last);
    SplitFree(last, '.');
  }

  lemma WordsNotExpanded(sh: Shape)
    requires Valid(sh) && AllWords(sh)
    ensures ExpandQuad(Render(sh)) == Some(Render(sh))
  {
    var s := Render(sh);
    if sh.Full? { PiecesOfWords(sh.pieces); }
    if HasLast(sh) {
      RenderReplaced(sh, [Last(sh)]);
      assert HexWord(Last(sh));
      HexWordPlain(Last(sh));
      LastColonAt(Prefix(sh), Last(sh));
      NotAQuad(s, Last(sh));
    } else {
      LastColonAt(Join(sh.head, ':') + "::", "");
      NotAQuad(s, "");
    }
  }

  lemma QuadExpanded(sh: Shape, d: string)
    requires HasLast(sh) && IsQuad(d)
    ensures ExpandQuad(Render(Replace(sh, [d]))) == Some(Render(Replace(sh, HexTail(QuadValue(d)))))
  {
    QuadText(d);
    RenderReplaced(sh, [d]);
    RenderReplaced(sh, HexTail(QuadValue(d)));
    LastColonAt(Prefix(sh), d);
    JoinHexTail(Prefix(sh), QuadValue(d));
  }

  lemma JoinHexTail(pre: string, v: nat)
    ensures pre + Join(HexTail(v), ':') == pre + Numeral(v / GROUPS, true) + [':'] + Numeral(v % GROUPS, true)
  {
    var hi, lo := Numeral(v / GROUPS, true), Numeral(v % GROUPS, true);
    assert HexTail(v)[1..] == [lo];
    assert Join(HexTail(v), ':') == hi + [':'] + lo;
  }

  lemma Sound(s: string, sh: Shape)
    requires Valid(sh) && Render(sh) == ToLower(Trim(s))
    ensures Ipv6Of(s) == Some(Denotes(sh))
  {
    RenderNotEmpty(sh);
    if AllWords(sh) {
      WordsNotExpanded(sh);
      WordsAreGrouped(sh);
    } else {
      LastIsQuad(sh);
      var d := Last(sh);
      RenderReplaced(sh, [d]);
      QuadAsGroups(sh, d);
      QuadExpanded(sh, d);
      WordsAreGrouped(Replace(sh, HexTail(QuadValue(d))));
    }
  }

  lemma RenderNotEmpty(sh: Shape)
    requires Valid(sh)
    ensures Render(sh) != ""
  {
    match sh
    case Gap(h, t) => assert |"::"| == 2;
    case Full(ps) => assert |ps| >= 7;
  }

  lemma LastIsQuad(sh: Shape)
    requires Valid(sh) && !AllWords(sh)
    ensures HasLast(sh) && IsQuad(Last(sh))
  {
    var ps := match sh case Full(ps) => ps case Gap(_, t) => t;
    if ps == [] || HexWord(ps[|ps| - 1]) {
      forall i | 0 <= i < |ps| ensures HexWord(ps[i]) { if i < |ps| - 1 { assert ps[..|ps| - 1][i] == ps[i]; } }
    }
  }

  // ---- and nothing else is parsed ----

  lemma SideJoin(s: string)
    ensures Join(SplitSide(s), ':') == s
  {
    SplitParts(s, ':');
  }

  lemma SidesAreWords(h: seq<string>, z: seq<string>, t: seq<string>)
    requires HexWords(h + z + t)
    ensures HexWords(h) && HexWords(t)
  {
    var gs := h + z + t;
    forall i | 0 <= i < |h| ensures HexWord(h[i]) { assert gs[i] == h[i]; }
    forall i | 0 <= i < |t| ensures HexWord(t[i]) { assert gs[|h| + |z| + i] == t[i]; }
  }

  lemma GapShape(a: string, b: string)
    requires Fill(SplitSide(a), SplitSide(b)).Some? && HexWords(Fill(SplitSide(a), SplitSide(b)).value)
    ensures var sh := Gap(SplitSide(a), SplitSide(b));
            Valid(sh) && AllWords(sh) && Render(sh) == a + "::" + b
            && TextsDenoted(sh) == Fill(SplitSide(a), SplitSide(b)).value
  {
    var h, t := SplitSide(a), SplitSide(b);
    SidesAreWords(h, seq(8 - |h| - |t|, _ => "0"), t);
    PiecesOfWords(t);
    SideJoin(a);
    SideJoin(b);
  }

  lemma AroundGap(x: string, dc: nat)
    requires GapAt(x, dc)
    ensures x[..dc] + "::" + x[dc + 2..] == x
  {
  }

  /** The shape of a text whose group texts are all hexadecimal words. */
  lemma ShapeOfGroups(x: string) returns (sh: Shape)
    requires GroupTexts(x).Some? && HexWords(GroupTexts(x).value)
    ensures Valid(sh) && AllWords(sh) && Render(sh) == x && TextsDenoted(sh) == GroupTexts(x).value
  {
    var dc := GapIndex(x, 0);
    if dc >= 0 {
      sh := Gap(SplitSide(x[..dc]), SplitSide(x[dc + 2..]));
      GapShape(x[..dc], x[dc + 2..]);
      AroundGap(x, dc);
    } else {
      sh := Full(GroupTexts(x).value);
      SplitParts(x, ':');
      PiecesOfWords(sh.pieces);
    }
  }

  lemma EmptyTail(h: seq<string>)
    ensures EndsInColon(Render(Gap(h, [])))
  {
    assert Render(Gap(h, [])) == Join(h, ':') + "::";
  }

  lemma SinglePrefix(sh: Shape)
    requires sh.Gap? && HasLast(sh)
    ensures |Prefix(sh)| >= 2 && (Leading(sh) == [] ==> Prefix(sh)[|Prefix(sh)| - 2] == ':')
  {
    if Leading(sh) == [] { assert Prefix(sh) == Join(sh.head, ':') + "::"; }
  }

  /** A word shape whose text ends in a word after a colon has that word as its last piece. */
  lemma LastPiece(sh: Shape, p: string, w: string)
    requires AllWords(sh) && (sh.Full? ==> |sh.pieces| >= 2)
    requires Render(sh) == p + w && EndsInColon(p) && HexWord(w)
    ensures HasLast(sh) && Last(sh) == w && Prefix(sh) == p
  {
    HexWordPlain(w);
    assert Render(sh)[|Render(sh)| - 1] == w[|w| - 1];
    if sh.Gap? { EmptyTail(sh.head); }
    assert HasLast(sh);
    RenderReplaced(sh, [Last(sh)]);
    assert HexWord(Last(sh));
    HexWordPlain(Last(sh));
    SameSplit(Prefix(sh), Last(sh), p, w);
  }

  lemma DropLast(sh: Shape, q: string)
    requires HasLast(sh) && Prefix(sh) == q + ":" && q != "" && q[|q| - 1] != ':'
    ensures Render(WithParts(sh, Leading(sh))) == q
    ensures |Leading(sh)| >= 1
  {
    var p := Prefix(sh);
    assert p[..|p| - 1] == q;
    if sh.Gap? {
      SinglePrefix(sh);
      Reassociate(Join(sh.head, ':') + "::", Join(Leading(sh), ':'), ":");
    }
  }

  /** A word shape whose text ends in two words has those as its last pieces. */
  lemma LastTwo(sh: Shape, p: string, hi: string, lo: string)
    requires AllWords(sh) && (sh.Full? ==> |sh.pieces| >= 3)
    requires Render(sh) == p + hi + ":" + lo && EndsInColon(p) && HexWord(hi) && HexWord(lo)
    ensures HasLast(sh) && HasLast(WithParts(sh, Leading(sh)))
    ensures var sh2 := WithParts(sh, Leading(sh)); Prefix(sh2) == p && Replace(sh2, [hi, lo]) == sh
  {
    HexWordPlain(hi);
    LastPiece(sh, p + hi + ":", lo);
    assert (p + hi)[|p + hi| - 1] == hi[|hi| - 1];
    DropLast(sh, p + hi);
    var sh2 := WithParts(sh, Leading(sh));
    LeadingWords(sh);
    LastPiece(sh2, p, hi);
    TwoLastParts(sh, hi, lo);
  }

  lemma LeadingWords(sh: Shape)
    requires AllWords(sh) && HasLast(sh)
    ensures AllWords(WithParts(sh, Leading(sh)))
  {
    forall i | 0 <= i < |Leading(sh)| ensures HexWord(Leading(sh)[i]) { assert HexWord(Parts(sh)[i]); }
  }

  lemma TwoLastParts(sh: Shape, hi: string, lo: string)
    requires HasLast(sh) && HasLast(WithParts(sh, Leading(sh)))
    requires Last(sh) == lo && Last(WithParts(sh, Leading(sh))) == hi
    ensures Replace(WithParts(sh, Leading(sh)), [hi, lo]) == sh
  {
    assert Leading(WithParts(sh, Leading(sh))) + [hi, lo] == Parts(sh);
  }

  /** A text that expands to a valid word shape is itself a valid shape with the same groups. */
  lemma ShapeBeforeExpansion(p: string, d: string, shx: Shape) returns (sh: Shape)
    requires IsQuad(d) && Valid(shx) && AllWords(shx) && EndsInColon(p)
    requires Render(shx) == p + HexTail(QuadValue(d))[0] + ":" + HexTail(QuadValue(d))[1]
    ensures Valid(sh) && Render(sh) == p + d && GroupsDenoted(sh) == GroupsDenoted(shx)
  {
    var tail := HexTail(QuadValue(d));
    QuadBound(d);
    HexTailWords(QuadValue(d));
    assert HexWord(tail[0]) && HexWord(tail[1]);
    if shx.Full? { PiecesOfWords(shx.pieces); }
    LastTwo(shx, p, tail[0], tail[1]);
    var sh2 := WithParts(shx, Leading(shx));
    assert [tail[0], tail[1]] == tail;
    QuadAsGroups(sh2, d);
    RenderReplaced(sh2, [d]);
    sh := Replace(sh2, [d]);
  }

  lemma AroundColon(t: string, c: nat)
    requires c < |t| && t[c] == ':'
    ensures t[..c + 1] + t[c + 1..] == t && EndsInColon(t[..c + 1])
  {
  }

  lemma Complete(s: string) returns (sh: Shape)
    requires Ipv6Of(s).Some?
    ensures Valid(sh) && Render(sh) == ToLower(Trim(s))
  {
    var t := ToLower(Trim(s));
    var x := ExpandQuad(t).value;
    sh := ShapeOfGroups(x);
    var c := LastColon(t);
    if c != -1 && QuadShape(t[c + 1..]) {
      QuadIsTrimmed(t[c + 1..]);
      QuadOfShape(t[c + 1..]);
      AroundColon(t, c);
      sh := ShapeBeforeExpansion(t[..c + 1], t[c + 1..], sh);
    }
  }

  lemma QuadOfShape(d: string)
    requires QuadShape(d) && Trim(d) == d && Ipv4Of(d).Some?
    ensures IsQuad(d) && Ipv4Of(d) == Some(QuadValue(d))
  {
    var vs := WordValues(Split(d, '.'), false);
    forall i | 0 <= i < 4 ensures OctetWord(Split(d, '.')[i]) { assert vs[i] <= 255; }
  }

  lemma QuadIsTrimmed(d: string)
    requires QuadShape(d)
    ensures Trim(d) == d
  {
    SplitParts(d, '.');
    QuadPlain(Split(d, '.'));
    TrimPlain(d);
  }

  /** parseIPv6 accepts exactly the spellings of the grammar, in either case and with surrounding
      white space, and returns the number each denotes. */
  lemma Ipv6Grammar(s: string, v: nat)
    ensures Ipv6Of(s) == Some(v) <==>
            exists sh :: Valid(sh) && Render(sh) == ToLower(Trim(s)) && Denotes(sh) == v
    ensures Ipv6Of(s) == Some(v) ==> v < V6_SIZE
  {
    if Ipv6Of(s).Some? {
      var sh := Complete(s);
      Sound(s, sh);
      DenotesBound(sh);
      assert Valid(sh) && Render(sh) == ToLower(Trim(s));
    }
    forall sh | Valid(sh) && Render(sh) == ToLower(Trim(s)) ensures Ipv6Of(s) == Some(Denotes(sh)) {
      Sound(s, sh);
    }
  }

  lemma DenotesBound(sh: Shape)
    requires Valid(sh)
    ensures forall i :: 0 <= i < 8 ==> GroupsDenoted(sh)[i] < GROUPS
    ensures Denotes(sh) < V6_SIZE
  {
    match sh {
      case Full(ps) => GroupBound(ps);
      case Gap(h, t) => PiecesOfWords(h); GroupBound(h); GroupBound(t);
    }
    PositionalBound(GroupsDenoted(sh), GROUPS);
    assert Power(GROUPS, 8) == V6_SIZE by {
      assert Power(GROUPS, 4) == GROUPS * (GROUPS * (GROUPS * (GROUPS * Power(GROUPS, 0))));
      assert Power(GROUPS, 8) == GROUPS * (GROUPS * (GROUPS * (GROUPS * Power(GROUPS, 4))));
    }
  }

  lemma GroupBound(ps: seq<string>)
    requires Pieces(ps)
    ensures forall i :: 0 <= i < |GroupValues(ps)| ==> GroupValues(ps)[i] < GROUPS
  {
    forall w | HexWord(w) ensures NumeralValue(w, true) < GROUPS { WordBound(w); }
    if ps != [] && !HexWord(ps[|ps| - 1]) { QuadBound(ps[|ps| - 1]); }
  }

  lemma WordBound(w: string)
    requires HexWord(w)
    ensures NumeralValue(w, true) < GROUPS
  {
    NumeralValueBound(w, true);
    assert Power(16, 4) == 16 * (16 * (16 * (16 * Power(16, 0))));
    assert Power(16, 3) == 16 * (16 * (16 * Power(16, 0)));
    assert Power(16, 2) == 16 * (16 * Power(16, 0));
    assert Power(16, 1) == 16 * Power(16, 0);
  }

  /** No text is an address of both families. */
  lemma FamiliesDisjoint(s: string)
    ensures Ipv4Of(s).None? || Ipv6Of(s).None?
  {
    if Ipv4Of(s).Some? && Ipv6Of(s).Some? {
      var t := Trim(s);
      SplitParts(t, '.');
      QuadPlain(Split(t, '.'));
      var l := ToLower(t);
      assert Free(l, ':');
      var sh := Complete(s);
      RenderHasColon(sh);
    }
  }

  lemma RenderHasColon(sh: Shape)
    requires Valid(sh)
    ensures !Free(Render(sh), ':')
  {
    match sh
    case Gap(h, t) => assert Render(sh)[|Join(h, ':')|] == ':';
    case Full(ps) =>
      if |ps| >= 2 { assert Render(sh)[|ps[0]|] == ':'; }
  }
}
