/** The IP texts and entries once more, in plain arithmetic: what the parsers' numbers are, and which
    addresses an entry lets in. */
module IpMeaning {
  import opened Text
  import opened IpText
  import opened IpGrammar
  import opened IpMatch
  import opened IpPrint

  // ---- numbers ----

  const DIGITS := "0123456789"
  const HEX_DIGITS := "0123456789abcdef"

  lemma DigitMeaning(d: nat)
    requires d < 16
    ensures IsHexDigit(HEX_DIGITS[d]) && DigitValue(HEX_DIGITS[d]) == d && (IsDigit(HEX_DIGITS[d]) <==> d < 10)
  {
  }

  lemma DigitForms(c: char)
    ensures IsDigit(c) <==> c in DIGITS
    ensures IsHexDigit(c) <==> c in HEX_DIGITS
  {
    assert HEX_DIGITS == DIGITS + "abcdef";
    if IsDigit(c) { assert DIGITS[c as int - '0' as int] == c; }
    if 'a' <= c <= 'f' { assert "abcdef"[c as int - 'a' as int] == c; }
  }

  /** The words: one to three decimal digits, one to four hexadecimal ones (of the text in lower case). */
  lemma WordForms(w: string)
    ensures QuadWord(w) <==> |w| in {1, 2, 3} && forall c :: c in w ==> c in DIGITS
    ensures HexWord(w) <==> |w| in {1, 2, 3, 4} && forall c :: c in w ==> c in HEX_DIGITS
  {
    forall i | 0 <= i < |w| ensures (IsDigit(w[i]) <==> w[i] in DIGITS) && (IsHexDigit(w[i]) <==> w[i] in HEX_DIGITS) {
      DigitForms(w[i]);
    }
  }

  /** A numeral of up to four digits, most significant digit first. */
  lemma WordMeaning(w: string, hex: bool)
    requires 1 <= |w| <= 4 && IsNumeral(w, hex)
    ensures var b := if hex then 16 else 10;
            NumeralValue(w, hex)
            == if |w| == 1 then DigitValue(w[0])
               else if |w| == 2 then DigitValue(w[0]) * b + DigitValue(w[1])
               else if |w| == 3 then DigitValue(w[0]) * b * b + DigitValue(w[1]) * b + DigitValue(w[2])
               else DigitValue(w[0]) * b * b * b + DigitValue(w[1]) * b * b + DigitValue(w[2]) * b + DigitValue(w[3])
  {
    assert w[..1][..0] == "";
    assert NumeralValue(w[..1], hex) == DigitValue(w[0]);
    if |w| == 1 { assert w[..1] == w; }
    if |w| >= 2 {
      assert w[..2][..1] == w[..1];
      if |w| == 2 { assert w[..2] == w; }
    }
    if |w| >= 3 {
      assert w[..3][..2] == w[..2];
      if |w| == 3 { assert w[..3] == w; }
    }
  }

  lemma QuadFolds(s: string, ws: seq<string>)
    requires |ws| == 4 && Split(s, '.') == ws && QuadShape(s)
    ensures forall i :: 0 <= i < |ws| ==> IsNumeral(ws[i], false)
    ensures var vs := WordValues(ws, false);
            Ipv4Of(s) == if vs[0] <= 255 && vs[1] <= 255 && vs[2] <= 255 && vs[3] <= 255
                         then Some(Positional(vs, OCTETS)) else None
  {
    QuadIsTrimmed(s);
  }

  lemma FourWords(ws: seq<string>)
    requires |ws| == 4 && forall i :: 0 <= i < |ws| ==> IsNumeral(ws[i], false)
    ensures WordValues(ws, false) == [NumeralValue(ws[0], false), NumeralValue(ws[1], false),
                                      NumeralValue(ws[2], false), NumeralValue(ws[3], false)]
  {
  }

  lemma QuadParses(s: string, ws: seq<string>)
    requires |ws| == 4 && Split(s, '.') == ws && QuadShape(s)
    ensures forall i :: 0 <= i < |ws| ==> IsNumeral(ws[i], false)
    ensures var vs := WordValues(ws, false); Ipv4Of(s) == Octets4(vs[0], vs[1], vs[2], vs[3])
  {
    QuadFolds(s, ws);
    var vs := WordValues(ws, false);
    FourOctets(vs[0], vs[1], vs[2], vs[3]);
    assert vs == [vs[0], vs[1], vs[2], vs[3]];
  }

  function Octets4(a: nat, b: nat, c: nat, d: nat): Option<nat> {
    if a <= 255 && b <= 255 && c <= 255 && d <= 255
    then Some(a * 0x100_0000 + b * 0x1_0000 + c * 0x100 + d) else None
  }

  /** A dotted quad of words, the most significant octet first. */
  lemma QuadMeaning(a: string, b: string, c: string, d: string)
    requires QuadWord(a) && QuadWord(b) && QuadWord(c) && QuadWord(d)
    ensures Ipv4Of(a + "." + b + "." + c + "." + d)
            == Octets4(NumeralValue(a, false), NumeralValue(b, false), NumeralValue(c, false),
                       NumeralValue(d, false))
  {
    QuadWordPlain(a);
    QuadWordPlain(b);
    QuadWordPlain(c);
    QuadWordPlain(d);
    SplitFour(a, b, c, d);
    var ws := [a, b, c, d];
    assert QuadShape(a + "." + b + "." + c + "." + d);
    QuadParses(a + "." + b + "." + c + "." + d, ws);
    FourWords(ws);
  }

  lemma QuadWordPlain(w: string)
    requires QuadWord(w)
    ensures Free(w, '.')
  {
  }

  lemma FourOctets(a: nat, b: nat, c: nat, d: nat)
    ensures Positional([a, b, c, d], OCTETS) == a * 0x100_0000 + b * 0x1_0000 + c * 0x100 + d
  {
    assert [a, b, c, d][..4] == [a, b, c, d];
    FourMore([a, b, c, d], 0, OCTETS);
  }

  lemma SplitFour(a: string, b: string, c: string, d: string)
    requires Free(a, '.') && Free(b, '.') && Free(c, '.') && Free(d, '.')
    ensures Split(a + "." + b + "." + c + "." + d, '.') == [a, b, c, d]
  {
    SplitAtSeparator(a + "." + b + "." + c, d, '.');
    SplitAtSeparator(a + "." + b, c, '.');
    SplitAtSeparator(a, b, '.');
    SplitFree(a, '.');
    SplitFree(b, '.');
    SplitFree(c, '.');
    SplitFree(d, '.');
  }

  lemma LastStep(ds: seq<nat>, n: nat, base: nat)
    requires n < |ds|
    ensures Positional(ds[..n + 1], base) == Positional(ds[..n], base) * base + ds[n]
  {
    assert ds[..n + 1][..n] == ds[..n];
  }

  lemma FourMore(ds: seq<nat>, n: nat, base: nat)
    requires n + 4 <= |ds|
    ensures Positional(ds[..n + 4], base)
            == (((Positional(ds[..n], base) * base + ds[n]) * base + ds[n + 1]) * base + ds[n + 2]) * base + ds[n + 3]
  {
    LastStep(ds, n, base);
    LastStep(ds, n + 1, base);
    LastStep(ds, n + 2, base);
    LastStep(ds, n + 3, base);
  }

  /** Eight groups, the most significant first. */
  lemma GroupsMeaning(gs: seq<nat>)
    requires |gs| == 8
    ensures Positional(gs, GROUPS)
            == gs[0] * 0x1_0000_0000_0000_0000_0000_0000_0000 + gs[1] * 0x1_0000_0000_0000_0000_0000_0000
               + gs[2] * 0x1_0000_0000_0000_0000_0000 + gs[3] * 0x1_0000_0000_0000_0000
               + gs[4] * 0x1_0000_0000_0000 + gs[5] * 0x1_0000_0000 + gs[6] * 0x1_0000 + gs[7]
  {
    assert gs[..8] == gs;
    assert Positional(gs[..0], GROUPS) == 0;
    FourMore(gs, 0, GROUPS);
    FourMore(gs, 4, GROUPS);
  }

  // ---- the three forms of an entry ----

  /** With a prefix length of one to three digits behind the only slash. */
  lemma CidrText(t: string, a: string, w: string)
    requires Trim(t) == a + "/" + w && a != "" && Free(a, '/') && QuadWord(w)
    ensures EntryOf(JsString(t))
            == if Ipv4Of(a).Some? then
                 if NumeralValue(w, false) <= 32 then Some(Cidr(V4, Ipv4Of(a).value, NumeralValue(w, false))) else None
               else if Ipv6Of(a).Some? && NumeralValue(w, false) <= 128
               then Some(Cidr(V6, Ipv6Of(a).value, NumeralValue(w, false))) else None
  {
    TwoParts(a, w, '/');
  }

  /** Two IPv4 addresses around the only dash. */
  lemma RangeText(t: string, a: string, b: string)
    requires Trim(t) == a + "-" + b && Free(a, '-') && Free(b, '-') && Free(Trim(t), '/')
    ensures EntryOf(JsString(t))
            == if Ipv4Of(a).Some? && Ipv4Of(b).Some? && Ipv4Of(a).value <= Ipv4Of(b).value
               then Some(Range(Ipv4Of(a).value, Ipv4Of(b).value)) else None
  {
    TwoParts(a, b, '-');
    SplitFree(Trim(t), '/');
    assert Trim(t)[|a|] == '-';
  }

  /** One address. */
  lemma AddressText(t: string)
    requires Free(Trim(t), '-') && Free(Trim(t), '/')
    ensures EntryOf(JsString(t))
            == if Ipv4Of(t).Some? then Some(Address(V4, Ipv4Of(t).value))
               else if Ipv6Of(t).Some? then Some(Address(V6, Ipv6Of(t).value)) else None
  {
    SplitFree(Trim(t), '/');
    TrimTwice(t);
  }

  /** No other text is an entry. */
  lemma OtherText(t: string)
    requires var s := Trim(t);
             if '/' in s then !exists a, w :: s == a + "/" + w && a != "" && Free(a, '/') && QuadWord(w)
             else '-' in s && !exists a, b :: s == a + "-" + b && Free(a, '-') && Free(b, '-')
    ensures EntryOf(JsString(t)).None?
  {
    var s := Trim(t);
    TwoOnly(s, '/');
    TwoOnly(s, '-');
    if '/' in s {
      TrimTwice(t);
      NoSlash(s);
      if |Split(s, '-')| == 2 { HalfWithSlash(s, Split(s, '-')[0], Split(s, '-')[1]); }
    } else {
      SplitFree(s, '/');
    }
  }

  lemma TwoOnly(s: string, sep: char)
    ensures |Split(s, sep)| == 2 ==>
              var (a, b) := (Split(s, sep)[0], Split(s, sep)[1]);
              s == a + [sep] + b && Free(a, sep) && Free(b, sep)
  {
    SplitParts(s, sep);
  }

  lemma HalfWithSlash(s: string, a: string, b: string)
    requires s == a + "-" + b && '/' in s
    ensures Ipv4Of(a).None? || Ipv4Of(b).None?
  {
    if '/' in a { NoSlash(a); } else { NoSlash(b); }
  }

  lemma {:induction false} JoinFree(ps: seq<string>, sep: char, c: char)
    requires c != sep && forall p :: p in ps ==> Free(p, c)
    ensures Free(Join(ps, sep), c)
  {
    if |ps| >= 1 { assert ps[0] in ps; }
    if |ps| > 1 {
      JoinFree(ps[1..], sep, c);
      assert c !in ps[0] + [sep];
      assert c !in ps[0] + [sep] + Join(ps[1..], sep);
    }
  }

  lemma PieceFree(w: string)
    requires HexWord(w) || IsQuad(w)
    ensures Free(w, '/')
  {
    if IsQuad(w) {
      SplitParts(w, '.');
      forall p | p in Split(w, '.') ensures Free(p, '/') {
        var i :| 0 <= i < 4 && Split(w, '.')[i] == p;
        assert OctetWord(p);
      }
      JoinFree(Split(w, '.'), '.', '/');
    }
  }

  lemma PiecesFree(ps: seq<string>)
    requires Pieces(ps)
    ensures Free(Join(ps, ':'), '/')
  {
    forall p | p in ps ensures Free(p, '/') {
      var i :| 0 <= i < |ps| && ps[i] == p;
      assert i < |ps| - 1 ==> ps[..|ps| - 1][i] == p;
      PieceFree(p);
    }
    JoinFree(ps, ':', '/');
  }

  lemma RenderFree(sh: Shape)
    requires Valid(sh)
    ensures Free(Render(sh), '/')
  {
    match sh
    case Full(ps) => PiecesFree(ps);
    case Gap(h, t) =>
      assert Pieces(h);
      PiecesFree(h);
      PiecesFree(t);
  }

  lemma SlashTrimmed(s: string)
    requires '/' in s
    ensures '/' in Trim(s) && '/' in ToLower(Trim(s))
  {
    TrimCuts(s);
    var x, y :| Blank(x) && Blank(y) && s == x + Trim(s) + y;
    var i :| 0 <= i < |Trim(s)| && Trim(s)[i] == '/';
    assert ToLower(Trim(s))[i] == '/';
  }

  /** No address has a slash in it. */
  lemma NoSlash(s: string)
    requires '/' in s
    ensures Ipv4Of(s).None? && Ipv6Of(s).None?
  {
    SlashTrimmed(s);
    if QuadShape(Trim(s)) {
      SplitParts(Trim(s), '.');
      QuadPlain(Split(Trim(s), '.'));
    }
    if Ipv6Of(s).Some? {
      var sh := Complete(s);
      RenderFree(sh);
    }
  }

  // ---- what an entry lets in ----

  /** The address itself, the inclusive range, or all addresses with the same leading bits. */
  predicate LetsIn(e: Entry, family: Family, addr: nat) {
    match e
    case Address(f, a) => family == f && addr == a
    case Range(lo, hi) => family == V4 && lo <= addr <= hi
    case Cidr(V4, a, n) => family == V4 && n <= 32 && addr / Power(2, 32 - n) == a / Power(2, 32 - n)
    case Cidr(V6, a, n) => family == V6 && n <= 128 && addr / Power(2, 128 - n) == a / Power(2, 128 - n)
  }

  lemma MatchMeaning(e: Entry, family: Family, addr: nat)
    requires e.Valid() && addr < Power(2, Bits(family))
    ensures MatchEntry(Some(e), family, addr) <==> LetsIn(e, family, addr)
  {
    MatchIsInterval(e, family, addr);
    if e.Cidr? {
      SameHighBits(addr, e.addr, Host(e));
      ShiftIsClear(addr, e.addr, Host(e));
    }
  }

  /** An address is let in by a list exactly if one of its valid entries lets it in. */
  lemma UnionMeaning(a: Entry, list: seq<JsValue>)
    requires a.Address? && a.Valid()
    ensures InUnion(a, list) <==>
            exists i :: 0 <= i < |list| && EntryOf(list[i]).Some? && LetsIn(EntryOf(list[i]).value, a.family, a.addr)
  {
    forall i | 0 <= i < |list| && EntryOf(list[i]).Some?
      ensures LetsIn(EntryOf(list[i]).value, a.family, a.addr) <==>
              EntryOf(list[i]).value.Fam() == a.family
              && IpMatch.Low(EntryOf(list[i]).value) <= a.addr <= IpMatch.High(EntryOf(list[i]).value)
    {
      EntryValid(list[i]);
      MatchMeaning(EntryOf(list[i]).value, a.family, a.addr);
      MatchIsInterval(EntryOf(list[i]).value, a.family, a.addr);
    }
  }
}
