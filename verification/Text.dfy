/** The JavaScript string operations the vault uses, on `string`. */
module Text {

  datatype Option<+T> = None | Some(value: T)

  /** A JSON member where a string is expected: a string, or anything else. */
  datatype JsValue = JsString(s: string) | JsOther

  predicate IsDigit(c: char) { '0' <= c <= '9' }

  predicate IsHexDigit(c: char) { IsDigit(c) || 'a' <= c <= 'f' }

  /** The white space and line terminators that String.prototype.trim removes. */
  predicate IsSpace(c: char) {
    var n := c as int;
    9 <= n <= 13 || n == 0x20 || n == 0xA0 || n == 0x1680 || 0x2000 <= n <= 0x200A
    || n == 0x2028 || n == 0x2029 || n == 0x202F || n == 0x205F || n == 0x3000 || n == 0xFEFF
  }

  function LowerChar(c: char): char {
    if 'A' <= c <= 'Z' then (c as int + 32) as char else c
  }

  /** toLowerCase. Only ASCII letters matter: no other character maps to a hexadecimal digit, a dash, a colon
      or a dot. */
  function ToLower(s: string): (r: string)
    ensures |r| == |s|
    ensures forall i :: 0 <= i < |s| ==> r[i] == LowerChar(s[i])
  {
    seq(|s|, i requires 0 <= i < |s| => LowerChar(s[i]))
  }

  /** The letters and their lower case. */
  lemma LowerLetters(i: nat, c: char)
    ensures i < 26 ==> LowerChar("ABCDEFGHIJKLMNOPQRSTUVWXYZ"[i]) == "abcdefghijklmnopqrstuvwxyz"[i]
    ensures !('A' <= c <= 'Z') ==> LowerChar(c) == c
  {
  }

  lemma ToLowerTwice(s: string)
    ensures ToLower(ToLower(s)) == ToLower(s)
  {
  }

  function TrimStart(s: string): string {
    if s != "" && IsSpace(s[0]) then TrimStart(s[1..]) else s
  }

  function TrimEnd(s: string): string {
    if s != "" && IsSpace(s[|s| - 1]) then TrimEnd(s[..|s| - 1]) else s
  }

  function Trim(s: string): string { TrimEnd(TrimStart(s)) }

  /** What one more leading character does to a list of parts. */
  function Push(c: char, parts: seq<string>, sep: char): seq<string>
    requires |parts| >= 1
  {
    if c == sep then [""] + parts else [[c] + parts[0]] + parts[1..]
  }

  /** String.prototype.split with a one-character separator. */
  function Split(s: string, sep: char): (parts: seq<string>)
    ensures |parts| >= 1
  {
    if s == "" then [""]
    else
      Push(s[0], Split(s[1..], sep), sep)
  }

  /** Array.prototype.join with a one-character separator. */
  function Join(parts: seq<string>, sep: char): string {
    if |parts| == 0 then ""
    else if |parts| == 1 then parts[0]
    else parts[0] + [sep] + Join(parts[1..], sep)
  }

  predicate Free(s: string, c: char) { c !in s }

  lemma {:induction false} SplitAtSeparator(a: string, b: string, sep: char)
    ensures Split(a + [sep] + b, sep) == Split(a, sep) + Split(b, sep)
  {
    var s := a + [sep] + b;
    if a == "" {
      assert s[0] == sep && s[1..] == b;
      assert Split(a, sep) == [""];
    } else {
      assert s[0] == a[0] && s[1..] == a[1..] + [sep] + b;
      SplitAtSeparator(a[1..], b, sep);
      SplitPrefix(a[0], Split(a[1..], sep), Split(b, sep), sep);
    }
  }

  lemma SplitPrefix(c: char, a: seq<string>, b: seq<string>, sep: char)
    requires |a| >= 1
    ensures Push(c, a + b, sep) == Push(c, a, sep) + b
  {
    assert (a + b)[0] == a[0] && (a + b)[1..] == a[1..] + b;
  }

  lemma {:induction false} SplitFree(a: string, sep: char)
    requires Free(a, sep)
    ensures Split(a, sep) == [a]
  {
    if a != "" {
      SplitFree(a[1..], sep);
      assert [a[0]] + a[1..] == a;
    }
  }

  lemma {:induction false} PartsFree(s: string, sep: char)
    ensures forall p :: p in Split(s, sep) ==> Free(p, sep)
  {
    if s != "" {
      PartsFree(s[1..], sep);
      var rest := Split(s[1..], sep);
      assert Free(rest[0], sep) && forall p :: p in rest[1..] ==> p in rest;
    }
  }

  lemma JoinPush(c: char, parts: seq<string>, sep: char)
    requires |parts| >= 1
    ensures Join(Push(c, parts, sep), sep) == [c] + Join(parts, sep)
  {
    var whole := Push(c, parts, sep);
    if c == sep {
      assert whole[1..] == parts;
      assert "" + [sep] + Join(parts, sep) == [c] + Join(parts, sep);
    } else {
      assert whole[1..] == parts[1..];
      if |parts| > 1 {
        assert [c] + parts[0] + [sep] + Join(parts[1..], sep) == [c] + (parts[0] + [sep] + Join(parts[1..], sep));
      }
    }
  }

  lemma {:induction false} JoinSplit(s: string, sep: char)
    ensures Join(Split(s, sep), sep) == s
  {
    if s != "" {
      JoinSplit(s[1..], sep);
      JoinPush(s[0], Split(s[1..], sep), sep);
    }
  }

  lemma SplitParts(s: string, sep: char)
    ensures forall p :: p in Split(s, sep) ==> Free(p, sep)
    ensures Join(Split(s, sep), sep) == s
  {
    PartsFree(s, sep);
    JoinSplit(s, sep);
  }

  /** Splitting undoes joining when no part holds the separator. */
  lemma {:induction false} SplitJoin(parts: seq<string>, sep: char)
    requires |parts| >= 1
    requires forall p :: p in parts ==> Free(p, sep)
    ensures Split(Join(parts, sep), sep) == parts
  {
    SplitFree(parts[0], sep);
    if |parts| > 1 {
      SplitJoin(parts[1..], sep);
      SplitAtSeparator(parts[0], Join(parts[1..], sep), sep);
      assert [parts[0]] + parts[1..] == parts;
    }
  }

  lemma {:induction false} JoinAppend(a: seq<string>, b: seq<string>, sep: char)
    requires |a| >= 1 && |b| >= 1
    ensures Join(a + b, sep) == Join(a, sep) + [sep] + Join(b, sep)
  {
    if |a| == 1 {
      assert (a + b)[1..] == b;
    } else {
      assert (a + b)[1..] == a[1..] + b;
      JoinAppend(a[1..], b, sep);
      assert a[0] + [sep] + (Join(a[1..], sep) + [sep] + Join(b, sep))
          == a[0] + [sep] + Join(a[1..], sep) + [sep] + Join(b, sep);
    }
  }

  /** A text without white space is its own trimmed form. */
  lemma TrimPlain(s: string)
    requires forall i :: 0 <= i < |s| ==> !IsSpace(s[i])
    ensures Trim(s) == s
  {
  }

  lemma {:induction false} TrimEndTwice(s: string)
    ensures TrimEnd(TrimEnd(s)) == TrimEnd(s)
    ensures TrimEnd(s) <= s
  {
    if s != "" && IsSpace(s[|s| - 1]) { TrimEndTwice(s[..|s| - 1]); }
  }

  lemma {:induction false} TrimStartOfTrimmed(s: string)
    ensures TrimStart(s) == "" || !IsSpace(TrimStart(s)[0])
  {
    if s != "" && IsSpace(s[0]) { TrimStartOfTrimmed(s[1..]); }
  }

  lemma TrimTwice(s: string)
    ensures Trim(Trim(s)) == Trim(s)
  {
    TrimStartOfTrimmed(s);
    TrimEndTwice(TrimStart(s));
    assert TrimStart(Trim(s)) == Trim(s);
  }

  const BLANKS := "\t\n\U{0B}\U{0C}\r \U{A0}\U{1680}\U{2000}\U{2001}\U{2002}\U{2003}\U{2004}\U{2005}\U{2006}"
                  + "\U{2007}\U{2008}\U{2009}\U{200A}\U{2028}\U{2029}\U{202F}\U{205F}\U{3000}\U{FEFF}"

  lemma BlankIff(c: char)
    ensures IsSpace(c) <==> c in BLANKS
  {
    var n := c as int;
    if IsSpace(c) {
      var at := if n <= 13 then n - 9 else if n == 0x20 then 5 else if n == 0xA0 then 6 else if n == 0x1680 then 7
                else if n <= 0x200A then n - 0x2000 + 8 else if n == 0x2028 then 19 else if n == 0x2029 then 20
                else if n == 0x202F then 21 else if n == 0x205F then 22 else if n == 0x3000 then 23 else 24;
      assert BLANKS[at] == c;
    }
  }

  predicate Blank(s: string) { forall i :: 0 <= i < |s| ==> IsSpace(s[i]) }

  lemma {:induction false} TrimStartCuts(s: string)
    ensures exists x :: Blank(x) && s == x + TrimStart(s)
  {
    if s != "" && IsSpace(s[0]) {
      TrimStartCuts(s[1..]);
      var x :| Blank(x) && s[1..] == x + TrimStart(s[1..]);
      assert Blank([s[0]] + x) && s == [s[0]] + x + TrimStart(s);
    } else {
      assert Blank("") && s == "" + TrimStart(s);
    }
  }

  lemma {:induction false} TrimEndCuts(s: string)
    ensures exists y :: Blank(y) && s == TrimEnd(s) + y
    ensures TrimEnd(s) == "" || !IsSpace(TrimEnd(s)[|TrimEnd(s)| - 1])
  {
    if s != "" && IsSpace(s[|s| - 1]) {
      var n := |s| - 1;
      TrimEndCuts(s[..n]);
      var y :| Blank(y) && s[..n] == TrimEnd(s[..n]) + y;
      assert Blank(y + [s[n]]) && s == TrimEnd(s) + (y + [s[n]]);
    } else {
      assert Blank("") && s == TrimEnd(s) + "";
    }
  }

  /** trim cuts blanks off both ends, and all of them. The blanks are those of BlankIff. */
  lemma TrimCuts(s: string)
    ensures exists x, y :: Blank(x) && Blank(y) && s == x + Trim(s) + y
    ensures Trim(s) == "" || (!IsSpace(Trim(s)[0]) && !IsSpace(Trim(s)[|Trim(s)| - 1]))
  {
    TrimStartCuts(s);
    TrimEndCuts(TrimStart(s));
    var x :| Blank(x) && s == x + TrimStart(s);
    var y :| Blank(y) && TrimStart(s) == Trim(s) + y;
    assert s == x + Trim(s) + y;
    TrimStartOfTrimmed(s);
  }

  // ---- numerals ----

  function DigitValue(c: char): nat
    requires IsHexDigit(c)
  {
    if IsDigit(c) then c as int - '0' as int else c as int - 'a' as int + 10
  }

  predicate IsNumeral(s: string, hex: bool) {
    forall i :: 0 <= i < |s| ==> if hex then IsHexDigit(s[i]) else IsDigit(s[i])
  }

  function Radix(hex: bool): nat { if hex then 16 else 10 }

  /** Number.parseInt on a text that is all digits of the radix. */
  function NumeralValue(s: string, hex: bool): nat
    requires IsNumeral(s, hex)
  {
    if s == "" then 0
    else NumeralValue(s[..|s| - 1], hex) * Radix(hex) + DigitValue(s[|s| - 1])
  }

  function DigitChar(d: nat): (c: char)
    requires d < 16
    ensures IsHexDigit(c) && DigitValue(c) == d
    ensures d < 10 ==> IsDigit(c)
  {
    if d < 10 then (d + '0' as int) as char else (d - 10 + 'a' as int) as char
  }

  /** Number.prototype.toString(radix). */
  function Numeral(n: nat, hex: bool): (s: string)
    ensures s != "" && IsNumeral(s, hex)
  {
    if n < Radix(hex) then [DigitChar(n)]
    else Numeral(n / Radix(hex), hex) + [DigitChar(n % Radix(hex))]
  }

  lemma {:induction false} NumeralRoundTrip(n: nat, hex: bool)
    ensures NumeralValue(Numeral(n, hex), hex) == n
  {
    var s := Numeral(n, hex);
    if n < Radix(hex) {
      assert s[..|s| - 1] == "";
    } else {
      NumeralRoundTrip(n / Radix(hex), hex);
      assert s[..|s| - 1] == Numeral(n / Radix(hex), hex);
    }
  }

  function Power(base: nat, k: nat): (p: nat)
    ensures base > 0 ==> p > 0
  {
    if k == 0 then 1 else base * Power(base, k - 1)
  }

  lemma {:induction false} NumeralLength(n: nat, hex: bool, k: nat)
    requires k >= 1 && n < Power(Radix(hex), k)
    ensures |Numeral(n, hex)| <= k
  {
    if n >= Radix(hex) {
      if k > 1 { NumeralLength(n / Radix(hex), hex, k - 1); }
    }
  }

  lemma {:induction false} NumeralValueBound(s: string, hex: bool)
    requires IsNumeral(s, hex)
    ensures NumeralValue(s, hex) < Power(Radix(hex), |s|)
  {
    if s != "" { NumeralValueBound(s[..|s| - 1], hex); }
  }

  /** A positional numeral: the digits `ds`, most significant first, in base `base`. */
  function Positional(ds: seq<nat>, base: nat): nat {
    if ds == [] then 0 else Positional(ds[..|ds| - 1], base) * base + ds[|ds| - 1]
  }

  lemma CarryBound(high: nat, low: nat, base: nat, limit: nat)
    requires high < limit && low < base
    ensures high * base + low < base * limit
  {
    assert base * limit == base * (limit - high - 1) + high * base + base;
    assert base * (limit - high - 1) >= 0;
  }

  lemma {:induction false} PositionalBound(ds: seq<nat>, base: nat)
    requires forall i :: 0 <= i < |ds| ==> ds[i] < base
    ensures Positional(ds, base) < Power(base, |ds|)
  {
    if ds != [] {
      var n := |ds| - 1;
      PositionalBound(ds[..n], base);
      CarryBound(Positional(ds[..n], base), ds[n], base, Power(base, n));
    }
  }
}
