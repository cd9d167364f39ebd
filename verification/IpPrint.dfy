/** Printing allowedIP entries, and the proof that parseEntry reads every printed entry back. */
module IpPrint {
  import opened Text
  import opened IpText
  import opened IpGrammar
  import opened IpMatch

  /** The base of a positional address text: hexadecimal groups or decimal octets. */
  function Base(hex: bool): nat { if hex then GROUPS else OCTETS }

  function High(v: nat, hex: bool): nat { if hex then v / GROUPS else v / OCTETS }

  function Low(v: nat, hex: bool): (d: nat)
    ensures d < Base(hex)
  {
    if hex then v % GROUPS else v % OCTETS
  }

  /** The `n` lowest digits of `v`, most significant first. */
  function DigitsOf(v: nat, hex: bool, n: nat): (ds: seq<nat>)
    ensures |ds| == n && forall i :: 0 <= i < n ==> ds[i] < Base(hex)
    decreases n
  {
    if n == 0 then [] else DigitsOf(High(v, hex), hex, n - 1) + [Low(v, hex)]
  }

  lemma LastDigit(ds: seq<nat>, d: nat, base: nat)
    ensures Positional(ds + [d], base) == Positional(ds, base) * base + d
  {
    assert (ds + [d])[..|ds|] == ds;
  }

  lemma {:induction false} DigitsRoundTrip(v: nat, hex: bool, n: nat)
    requires v < Power(Base(hex), n)
    ensures Positional(DigitsOf(v, hex, n), Base(hex)) == v
  {
    if n > 0 {
      assert High(v, hex) < Power(Base(hex), n - 1);
      DigitsRoundTrip(High(v, hex), hex, n - 1);
      LastDigit(DigitsOf(High(v, hex), hex, n - 1), Low(v, hex), Base(hex));
    }
  }

  function Numerals(ds: seq<nat>, hex: bool): (ws: seq<string>)
    ensures |ws| == |ds|
    ensures forall i :: 0 <= i < |ws| ==> ws[i] == Numeral(ds[i], hex)
  {
    seq(|ds|, i requires 0 <= i < |ds| => Numeral(ds[i], hex))
  }

  lemma NumeralsValues(ds: seq<nat>, hex: bool)
    ensures forall i :: 0 <= i < |ds| ==> IsNumeral(Numerals(ds, hex)[i], hex)
    ensures WordValues(Numerals(ds, hex), hex) == ds
  {
    forall i | 0 <= i < |ds| ensures NumeralValue(Numerals(ds, hex)[i], hex) == ds[i] { NumeralRoundTrip(ds[i], hex); }
  }

  function PrintV4(v: nat): string { Join(Numerals(DigitsOf(v, false, 4), false), '.') }

  function PrintV6(v: nat): string { Join(Numerals(DigitsOf(v, true, 8), true), ':') }

  function PrintAddress(f: Family, v: nat): string { if f.V4? then PrintV4(v) else PrintV6(v) }

  function Print(e: Entry): string {
    match e
    case Address(f, a) => PrintAddress(f, a)
    case Cidr(f, a, len) => PrintAddress(f, a) + ['/'] + Numeral(len, false)
    case Range(lo, hi) => PrintV4(lo) + ['-'] + PrintV4(hi)
  }

  predicate AddressChar(c: char) { IsHexDigit(c) || c == '.' || c == ':' }

  predicate AddressChars(s: string) { forall i :: 0 <= i < |s| ==> AddressChar(s[i]) }

  lemma AddressCharsPlain(s: string)
    requires AddressChars(s)
    ensures Free(s, '/') && Free(s, '-')
    ensures Trim(s) == s && ToLower(s) == s
  {
    TrimPlain(s);
    assert forall i :: 0 <= i < |s| ==> LowerChar(s[i]) == s[i];
  }

  lemma {:induction false} JoinChars(ws: seq<string>, hex: bool, sep: char)
    requires forall i :: 0 <= i < |ws| ==> IsNumeral(ws[i], hex)
    requires AddressChar(sep)
    ensures AddressChars(Join(ws, sep))
  {
    if |ws| >= 1 {
      assert forall i :: 0 <= i < |ws[0]| ==> AddressChar(ws[0][i]);
      if |ws| > 1 { JoinChars(ws[1..], hex, sep); }
    }
  }

  lemma OctetNumeral(n: nat)
    requires n <= 255
    ensures QuadWord(Numeral(n, false)) && NumeralValue(Numeral(n, false), false) == n
  {
    NumeralRoundTrip(n, false);
    assert Power(10, 3) == 10 * (10 * (10 * Power(10, 0)));
    NumeralLength(n, false, 3);
  }

  lemma PrintV4Parses(v: nat)
    requires v < V4_SIZE
    ensures AddressChars(PrintV4(v)) && Ipv4Of(PrintV4(v)) == Some(v)
  {
    Power2At32();
    assert Power(OCTETS, 4) == OCTETS * (OCTETS * (OCTETS * (OCTETS * Power(OCTETS, 0))));
    DigitsRoundTrip(v, false, 4);
    var ds := DigitsOf(v, false, 4);
    var ws := Numerals(ds, false);
    forall i | 0 <= i < 4 ensures OctetWord(ws[i]) { OctetNumeral(ds[i]); }
    NumeralsValues(ds, false);
    JoinChars(ws, false, '.');
    AddressCharsPlain(PrintV4(v));
    assert Octets(ws);
    Ipv4Grammar(PrintV4(v), v);
  }

  lemma HexNumeral(n: nat)
    requires n < GROUPS
    ensures HexWord(Numeral(n, true))
  {
    assert Power(16, 4) == 16 * (16 * (16 * (16 * Power(16, 0))));
    NumeralLength(n, true, 4);
  }

  lemma GroupsPower()
    ensures Power(GROUPS, 8) == V6_SIZE
  {
    assert Power(GROUPS, 4) == GROUPS * (GROUPS * (GROUPS * (GROUPS * Power(GROUPS, 0))));
    assert Power(GROUPS, 8) == GROUPS * (GROUPS * (GROUPS * (GROUPS * Power(GROUPS, 4))));
  }

  lemma PrintV6Parses(v: nat)
    requires v < V6_SIZE
    ensures AddressChars(PrintV6(v)) && Ipv6Of(PrintV6(v)) == Some(v) && Ipv4Of(PrintV6(v)) == None
  {
    GroupsPower();
    DigitsRoundTrip(v, true, 8);
    var ds := DigitsOf(v, true, 8);
    var ws := Numerals(ds, true);
    forall i | 0 <= i < 8 ensures HexWord(ws[i]) { HexNumeral(ds[i]); }
    NumeralsValues(ds, true);
    JoinChars(ws, true, ':');
    AddressCharsPlain(PrintV6(v));
    PiecesOfWords(ws);
    Sound(PrintV6(v), Full(ws));
    FamiliesDisjoint(PrintV6(v));
  }

  lemma PrintAddressParses(f: Family, v: nat)
    requires v < Power(2, Bits(f))
    ensures var s := PrintAddress(f, v); AddressChars(s) && s != "" && PlainOf(s) == Some(Address(f, v))
    ensures forall len: nat :: len <= Bits(f) ==> CidrOf(PrintAddress(f, v), len) == Some(Cidr(f, v, len))
  {
    Power2At32();
    if f.V4? { PrintV4Parses(v); } else { PrintV6Parses(v); }
    if PrintAddress(f, v) == "" { TrimPlain(""); SplitFree("", '.'); }
  }

  lemma TwoParts(a: string, b: string, sep: char)
    requires Free(a, sep) && Free(b, sep)
    ensures Split(a + [sep] + b, sep) == [a, b]
  {
    SplitAtSeparator(a, b, sep);
    SplitFree(a, sep);
    SplitFree(b, sep);
  }

  lemma TrimAround(a: string, sep: char, b: string)
    requires AddressChars(a) && AddressChars(b) && !IsSpace(sep)
    ensures Trim(a + [sep] + b) == a + [sep] + b
  {
    TrimPlain(a + [sep] + b);
  }

  lemma LengthText(len: nat)
    requires len <= 128
    ensures QuadWord(Numeral(len, false)) && NumeralValue(Numeral(len, false), false) == len
    ensures AddressChars(Numeral(len, false))
  {
    OctetNumeral(len);
  }

  /** Printing an entry and parsing it gives the entry back. */
  lemma PrintRoundTrip(e: Entry)
    requires e.Valid()
    ensures EntryOf(JsString(Print(e))) == Some(e)
  {
    match e
    case Address(f, a) =>
      PrintAddressParses(f, a);
      AddressCharsPlain(Print(e));
      SplitFree(Print(e), '/');
    case Cidr(f, a, len) =>
      CidrRoundTrip(f, a, len);
    case Range(lo, hi) =>
      RangeRoundTrip(lo, hi);
  }

  lemma CidrRoundTrip(f: Family, a: nat, len: nat)
    requires a < Power(2, Bits(f)) && len <= Bits(f)
    ensures EntryOf(JsString(Print(Cidr(f, a, len)))) == Some(Cidr(f, a, len))
  {
    var s, n := PrintAddress(f, a), Numeral(len, false);
    PrintAddressParses(f, a);
    LengthText(len);
    AddressCharsPlain(s);
    AddressCharsPlain(n);
    TrimAround(s, '/', n);
    TwoParts(s, n, '/');
  }

  lemma RangeRoundTrip(lo: nat, hi: nat)
    requires lo <= hi < Power(2, 32)
    ensures EntryOf(JsString(Print(Range(lo, hi)))) == Some(Range(lo, hi))
  {
    var s, t := PrintV4(lo), PrintV4(hi);
    Power2At32();
    PrintV4Parses(lo);
    PrintV4Parses(hi);
    AddressCharsPlain(s);
    AddressCharsPlain(t);
    TrimAround(s, '-', t);
    TwoParts(s, t, '-');
    var r := s + ['-'] + t;
    assert r[|s|] == '-';
    assert Free(r, '/');
    SplitFree(r, '/');
  }
}
