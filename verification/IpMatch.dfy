/** parseEntry, matchEntry and ipAllowed: the allowedIP list of a user. */
module IpMatch {
  import opened Text
  import opened IpText
  import opened IpGrammar

  datatype Family = V4 | V6

  function Bits(f: Family): nat { if f.V4? then 32 else 128 }

  datatype Entry =
    | Address(family: Family, addr: nat)
    | Cidr(family: Family, addr: nat, len: nat)
    | Range(start: nat, end: nat)
  {
    /** What parseEntry can return. */
    predicate Valid() {
      match this
      case Address(f, a) => a < Power(2, Bits(f))
      case Cidr(f, a, n) => a < Power(2, Bits(f)) && n <= Bits(f)
      case Range(a, b) => a <= b < Power(2, 32)
    }

    function Fam(): Family { if Range? then V4 else family }
  }

  // ---- JavaScript 32-bit integers ----

  function ToUint32(x: int): (r: nat) ensures r < V4_SIZE { x % V4_SIZE }

  function ToInt32(x: int): int { var m := x % V4_SIZE; if m >= 0x8000_0000 then m - V4_SIZE else m }

  /** Bitwise and of the low `n` bits. */
  function AndBits(a: nat, b: nat, n: nat): nat {
    if n == 0 then 0
    else (if a % 2 == 1 && b % 2 == 1 then 1 else 0) + 2 * AndBits(a / 2, b / 2, n - 1)
  }

  /** The `&` operator: both operands become signed 32-bit integers, and so does the result. */
  function JsAnd(x: int, y: int): int { ToInt32(AndBits(ToUint32(ToInt32(x)), ToUint32(ToInt32(y)), 32)) }

  function MatchV4Block(addr: nat, a: nat, len: nat): bool
    requires len <= 32
  {
    var mask := 0xffff_ffff - (Power(2, 32 - len) - 1);
    ToUint32(JsAnd(addr, mask)) == ToUint32(JsAnd(a, mask))
  }

  function MatchV6Block(addr: nat, a: nat, len: nat): bool
    requires len <= 128
  {
    addr / Power(2, 128 - len) == a / Power(2, 128 - len)
  }

  function MatchEntry(desc: Option<Entry>, family: Family, addr: nat): bool
    requires desc.Some? ==> desc.value.Valid()
  {
    if desc.None? || desc.value.Fam() != family then false
    else
      match desc.value
      case Address(_, a) => a == addr
      case Range(lo, hi) => lo <= addr && addr <= hi
      case Cidr(f, a, len) =>
        if len == 0 then true
        else if f.V4? then MatchV4Block(addr, a, len)
        else MatchV6Block(addr, a, len)
  }

  // ---- a block is an interval ----

  /** `a` with its `k` lowest bits cleared: the lowest address of its block (ClearIsRemainder). */
  function Clear(a: nat, k: nat): nat { if k == 0 then a else 2 * Clear(a / 2, k - 1) }

  /** The interval of addresses an entry stands for. */
  function Low(e: Entry): nat {
    match e
    case Address(_, a) => a
    case Range(lo, _) => lo
    case Cidr(f, a, len) => Clear(a, Host(e))
  }

  function High(e: Entry): int {
    match e
    case Address(_, a) => a
    case Range(_, hi) => hi
    case Cidr(f, a, len) => Low(e) + Power(2, Host(e)) - 1
  }

  /** Number of host bits of a block. */
  function Host(e: Entry): nat
    requires e.Cidr?
  {
    if e.len <= Bits(e.family) then Bits(e.family) - e.len else 0
  }

  lemma {:induction false} PowerSum(b: nat, i: nat, j: nat)
    ensures Power(b, i + j) == Power(b, i) * Power(b, j)
  {
    if i > 0 {
      PowerSum(b, i - 1, j);
      Associate(b, Power(b, i - 1), Power(b, j));
    }
  }

  lemma Associate(x: int, y: int, z: int)
    ensures x * (y * z) == x * y * z
  {
  }

  // ---- division with a variable divisor ----

  lemma MultipleAtLeast(x: int, m: nat)
    requires x >= 1
    ensures x * m >= m
  {
    assert x * m == m + (x - 1) * m;
  }

  lemma Distribute(a: int, b: int, m: int)
    ensures (a - b) * m == a * m - b * m && (a + b) * m == a * m + b * m
  {
  }

  lemma SameDivision(m: nat, q: int, r: nat, p: int, t: nat)
    requires q * m + r == p * m + t && r < m && t < m
    ensures q == p && r == t
  {
    Distribute(q, p, m);
    Distribute(p, q, m);
    if q > p { MultipleAtLeast(q - p, m); }
    if p > q { MultipleAtLeast(p - q, m); }
  }

  lemma Euclid(a: nat, m: nat)
    requires m > 0
    ensures a == (a / m) * m + a % m && 0 <= a % m < m && a / m >= 0
  {
  }

  lemma ModUnique(a: nat, m: nat, q: nat, r: nat)
    requires m > 0 && r < m && a == q * m + r
    ensures a % m == r && a / m == q
  {
    Euclid(a, m);
    SameDivision(m, q, r, a / m, a % m);
  }

  lemma DoubleMod(a: nat, m: nat)
    requires m > 0
    ensures a % (2 * m) == a % 2 + 2 * ((a / 2) % m)
  {
    Euclid(a / 2, m);
    var q, r := (a / 2) / m, (a / 2) % m;
    assert q * (2 * m) == 2 * (q * m);
    ModUnique(a, 2 * m, q, a % 2 + 2 * r);
  }

  lemma {:induction false} PowerMonotone(k: nat, n: nat)
    requires k <= n
    ensures Power(2, k) <= Power(2, n)
  {
    if k < n { PowerMonotone(k, n - 1); }
  }

  lemma {:induction false} AllOnes(a: nat, n: nat)
    requires a < Power(2, n)
    ensures AndBits(a, Power(2, n) - 1, n) == a
  {
    if n > 0 {
      assert (Power(2, n) - 1) / 2 == Power(2, n - 1) - 1;
      AllOnes(a / 2, n - 1);
    }
  }

  lemma {:induction false} ClearIsRemainder(a: nat, k: nat)
    ensures Clear(a, k) == a - a % Power(2, k)
  {
    if k > 0 {
      ClearIsRemainder(a / 2, k - 1);
      DoubleMod(a, Power(2, k - 1));
    }
  }

  /** Having the same high bits is lying in the same interval. */
  lemma {:induction false} SameHighBits(addr: nat, a: nat, k: nat)
    ensures Clear(addr, k) == Clear(a, k) <==> Clear(a, k) <= addr <= Clear(a, k) + Power(2, k) - 1
  {
    if k > 0 { SameHighBits(addr / 2, a / 2, k - 1); }
  }

  /** The 128-bit shift test compares the same high bits. */
  lemma {:induction false} ShiftIsClear(addr: nat, a: nat, k: nat)
    ensures addr / Power(2, k) == a / Power(2, k) <==> Clear(addr, k) == Clear(a, k)
  {
    if k > 0 {
      var m := Power(2, k - 1);
      DivDiv(addr, 2, m);
      DivDiv(a, 2, m);
      assert Power(2, k) == m * 2;
      ShiftIsClear(addr / 2, a / 2, k - 1);
    }
  }

  lemma {:induction false} CoarserBlock(x: nat, y: nat, k: nat, j: nat)
    requires k <= j && Clear(x, k) == Clear(y, k)
    ensures Clear(x, j) == Clear(y, j)
  {
    if k > 0 { CoarserBlock(x / 2, y / 2, k - 1, j - 1); }
  }

  lemma {:induction false} MaskClears(a: nat, n: nat, k: nat)
    requires k <= n && a < Power(2, n)
    ensures Power(2, k) <= Power(2, n)
    ensures AndBits(a, Power(2, n) - Power(2, k), n) == Clear(a, k)
  {
    PowerMonotone(k, n);
    if k == 0 {
      AllOnes(a, n);
    } else {
      MaskClears(a / 2, n - 1, k - 1);
      assert (Power(2, n) - Power(2, k)) / 2 == Power(2, n - 1) - Power(2, k - 1);
      assert (Power(2, n) - Power(2, k)) % 2 == 0;
    }
  }

  lemma PowerDouble(k: nat, p: nat)
    requires Power(2, k) == p
    ensures Power(2, 2 * k) == p * p
  {
    PowerSum(2, k, k);
  }

  lemma Power2At32()
    ensures Power(2, 32) == V4_SIZE && Power(2, 128) == V6_SIZE
  {
    PowerDouble(1, 2);
    PowerDouble(2, 4);
    PowerDouble(4, 16);
    PowerDouble(8, 256);
    PowerDouble(16, 0x1_0000);
    PowerDouble(32, V4_SIZE);
    PowerDouble(64, 0x1_0000_0000_0000_0000);
  }

  lemma {:induction false} AndBound(a: nat, b: nat, n: nat)
    ensures AndBits(a, b, n) < Power(2, n)
  {
    if n > 0 { AndBound(a / 2, b / 2, n - 1); }
  }

  /** Signed conversion back and forth does not disturb the bits. */
  lemma JsAndBits(a: nat, m: nat)
    requires a < V4_SIZE && m < V4_SIZE
    ensures ToUint32(JsAnd(a, m)) == AndBits(a, m, 32)
  {
    assert ToUint32(ToInt32(a)) == a && ToUint32(ToInt32(m)) == m;
    AndBound(a, m, 32);
    Power2At32();
    var r := AndBits(a, m, 32);
    assert ToUint32(ToInt32(r)) == r;
  }

  /** The two's-complement `&` of JavaScript with a v4 prefix mask clears the host bits. */
  lemma JsMask(a: nat, len: nat)
    requires a < V4_SIZE && len <= 32
    ensures ToUint32(JsAnd(a, 0xffff_ffff - (Power(2, 32 - len) - 1))) == Clear(a, 32 - len)
  {
    Power2At32();
    MaskClears(a, 32, 32 - len);
    JsAndBits(a, Power(2, 32) - Power(2, 32 - len));
  }

  lemma {:induction false} ClearSmall(a: nat, k: nat)
    requires a < Power(2, k)
    ensures Clear(a, k) == 0
  {
    if k > 0 { ClearSmall(a / 2, k - 1); }
  }

  lemma CidrIsInterval(e: Entry, addr: nat)
    requires e.Cidr? && e.Valid() && addr < Power(2, Bits(e.family))
    ensures MatchEntry(Some(e), e.family, addr) <==> Low(e) <= addr <= High(e)
  {
    SameHighBits(addr, e.addr, Host(e));
    if e.len == 0 {
      ClearSmall(e.addr, Bits(e.family));
    } else if e.family.V4? {
      Power2At32();
      V4BlockTest(addr, e.addr, e.len);
    } else {
      ShiftIsClear(addr, e.addr, Host(e));
    }
  }

  lemma V4BlockTest(addr: nat, a: nat, len: nat)
    requires addr < V4_SIZE && a < V4_SIZE && len <= 32
    ensures MatchV4Block(addr, a, len) <==> Clear(addr, 32 - len) == Clear(a, 32 - len)
  {
    JsMask(addr, len);
    JsMask(a, len);
  }

  /** Both CIDR tests, like the other entry kinds, hold exactly on the entry's interval (section 3.1 of
      RFC 4632, section 2.3 of RFC 4291): from the base with its host bits cleared, 2^k addresses. */
  lemma MatchIsInterval(e: Entry, family: Family, addr: nat)
    requires e.Valid() && addr < Power(2, Bits(family))
    ensures MatchEntry(Some(e), family, addr) <==> e.Fam() == family && Low(e) <= addr <= High(e)
  {
    if e.Cidr? && e.family == family { CidrIsInterval(e, addr); }
  }

  lemma {:induction false} BlockFits(a: nat, k: nat, n: nat)
    requires a < Power(2, n) && k <= n
    ensures Clear(a, k) + Power(2, k) <= Power(2, n)
  {
    if k > 0 { BlockFits(a / 2, k - 1, n - 1); }
  }

  /** A v4 block matches what the range from its first to its last address matches. */
  lemma BlockIsRange(e: Entry, family: Family, addr: nat)
    requires e.Cidr? && e.family.V4? && e.Valid() && addr < Power(2, Bits(family))
    ensures Range(Low(e), High(e)).Valid()
    ensures MatchEntry(Some(e), family, addr) <==> MatchEntry(Some(Range(Low(e), High(e))), family, addr)
  {
    BlockFits(e.addr, Host(e), 32);
    MatchIsInterval(e, family, addr);
    MatchIsInterval(Range(Low(e), High(e)), family, addr);
  }

  /** Two blocks of one family are nested or disjoint. */
  lemma BlocksNest(e: Entry, f: Entry, x: nat, y: nat)
    requires e.Valid() && f.Valid() && e.Cidr? && f.Cidr? && e.family == f.family && e.len >= f.len
    requires Low(e) <= x <= High(e) && Low(f) <= x <= High(f)
    ensures Low(e) <= y <= High(e) ==> Low(f) <= y <= High(f)
  {
    SameHighBits(x, e.addr, Host(e));
    SameHighBits(y, e.addr, Host(e));
    SameHighBits(x, f.addr, Host(f));
    SameHighBits(y, f.addr, Host(f));
    if Low(e) <= y <= High(e) { CoarserBlock(x, y, Host(e), Host(f)); }
  }

  lemma DivDiv(a: nat, m: nat, k: nat)
    requires m > 0 && k > 0
    ensures k * m > 0 && a / (k * m) == (a / m) / k
  {
    Euclid(a, m);
    var q, r := a / m, a % m;
    Euclid(q, k);
    var p, t := q / k, q % k;
    MultipleAtLeast(k, m);
    Distribute(p * k, t, m);
    assert p * k * m == p * (k * m);
    Distribute(k, t, m);
    MultipleAtLeast(k - t, m);
    ModUnique(a, k * m, p, t * m + r);
  }

  // ---- parseEntry ----

  function CidrOf(addr: string, len: nat): Option<Entry> {
    match Ipv4Of(addr)
    case Some(v4) => if len > 32 then None else Some(Cidr(V4, v4, len))
    case None =>
      match Ipv6Of(addr)
      case Some(v6) => if len > 128 then None else Some(Cidr(V6, v6, len))
      case None => None
  }

  function RangeOf(start: Option<nat>, end: Option<nat>): Option<Entry> {
    if start.None? || end.None? || start.value > end.value then None
    else Some(Range(start.value, end.value))
  }

  function PlainOf(s: string): Option<Entry> {
    match Ipv4Of(s)
    case Some(v4) => Some(Address(V4, v4))
    case None =>
      match Ipv6Of(s)
      case Some(v6) => Some(Address(V6, v6))
      case None => None
  }

  function EntryOf(entry: JsValue): Option<Entry> {
    if entry.JsOther? then None
    else
      var s := Trim(entry.s);
      var slash, dash := Split(s, '/'), Split(s, '-');
      if |slash| == 2 && slash[0] != "" && QuadWord(slash[1]) then
        CidrOf(slash[0], NumeralValue(slash[1], false))
      else if '-' in s then
        if |dash| != 2 then None else RangeOf(Ipv4Of(dash[0]), Ipv4Of(dash[1]))
      else PlainOf(s)
  }

  lemma ParsedBound(x: string)
    ensures Ipv4Of(x).Some? ==> Ipv4Of(x).value < Power(2, 32)
    ensures Ipv6Of(x).Some? ==> Ipv6Of(x).value < Power(2, 128)
  {
    Power2At32();
    if Ipv4Of(x).Some? { Ipv4Grammar(x, Ipv4Of(x).value); }
    if Ipv6Of(x).Some? { Ipv6Grammar(x, Ipv6Of(x).value); }
  }

  lemma CidrValid(addr: string, len: nat)
    ensures CidrOf(addr, len).Some? ==> CidrOf(addr, len).value.Valid()
  {
    ParsedBound(addr);
  }

  lemma EntryValid(entry: JsValue)
    ensures EntryOf(entry).Some? ==> EntryOf(entry).value.Valid()
  {
    if EntryOf(entry).Some? {
      var s := Trim(entry.s);
      var slash, dash := Split(s, '/'), Split(s, '-');
      if |slash| == 2 && slash[0] != "" && QuadWord(slash[1]) {
        CidrValid(slash[0], NumeralValue(slash[1], false));
      } else if '-' in s {
        ParsedBound(dash[0]);
        ParsedBound(dash[1]);
      } else {
        ParsedBound(s);
      }
    }
  }

  // ---- ipAllowed ----

  /** The address an IP text stands for, with its family. */
  function AddressOf(ip: JsValue): Option<Entry> { if ip.JsOther? then None else PlainOf(ip.s) }

  /** An address lies in the union of the intervals of the valid entries. */
  ghost predicate InUnion(a: Entry, list: seq<JsValue>)
    requires a.Address?
  {
    exists i :: 0 <= i < |list| && EntryOf(list[i]).Some? && EntryOf(list[i]).value.Fam() == a.family
                && Low(EntryOf(list[i]).value) <= a.addr <= High(EntryOf(list[i]).value)
  }

  lemma EntryCovers(entry: JsValue, a: Entry)
    requires a.Address? && a.Valid()
    ensures EntryOf(entry).Some? ==> EntryOf(entry).value.Valid()
    ensures MatchEntry(EntryOf(entry), a.family, a.addr) <==>
            EntryOf(entry).Some? && EntryOf(entry).value.Fam() == a.family
            && Low(EntryOf(entry).value) <= a.addr <= High(EntryOf(entry).value)
  {
    EntryValid(entry);
    if EntryOf(entry).Some? { MatchIsInterval(EntryOf(entry).value, a.family, a.addr); }
  }

  lemma UnionStep(a: Entry, list: seq<JsValue>, entry: JsValue)
    requires a.Address?
    ensures InUnion(a, list + [entry]) <==> InUnion(a, list) || InUnion(a, [entry])
    ensures InUnion(a, [entry]) <==> EntryOf(entry).Some? && EntryOf(entry).value.Fam() == a.family
                                     && Low(EntryOf(entry).value) <= a.addr <= High(EntryOf(entry).value)
  {
    var all := list + [entry];
    forall i | 0 <= i < |list| ensures all[i] == list[i] {}
    assert all[|list|] == entry && [entry][0] == entry;
  }

  lemma AddressValid(ip: JsValue)
    ensures AddressOf(ip).Some? ==> AddressOf(ip).value.Address? && AddressOf(ip).value.Valid()
  {
    if ip.JsString? { ParsedBound(ip.s); }
  }

  /** The loop of ipAllowed. */
  method AnyMatches(list: seq<JsValue>, a: Entry) returns (ok: bool)
    requires a.Address? && a.Valid()
    ensures ok <==> InUnion(a, list)
  {
    for i := 0 to |list|
      invariant !InUnion(a, list[..i])
    {
      EntryCovers(list[i], a);
      if MatchEntry(EntryOf(list[i]), a.family, a.addr) { return true; }
      UnionStep(a, list[..i], list[i]);
      assert list[..i + 1] == list[..i] + [list[i]];
    }
    assert list[..|list|] == list;
    return false;
  }

  /** A missing list (None) denies; otherwise the address must lie in the union of the entries. */
  method IpAllowed(ip: JsValue, allowedList: Option<seq<JsValue>>) returns (ok: bool)
    ensures ok <==> allowedList.Some? && AddressOf(ip).Some?
                    && AddressOf(ip).value.Address? && InUnion(AddressOf(ip).value, allowedList.value)
  {
    AddressValid(ip);
    if allowedList.None? { return false; }
    var a;
    var v4 := ParseIPv4(ip);
    if v4.Some? {
      a := Address(V4, v4.value);
    } else {
      var v6 := ParseIPv6(ip);
      if v6.None? { return false; }
      a := Address(V6, v6.value);
    }
    assert AddressOf(ip) == Some(a);
    ok := AnyMatches(allowedList.value, a);
  }
}
