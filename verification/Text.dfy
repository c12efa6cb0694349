/** Octets, JavaScript code units, Python code points, and UTF-8 between them. */
module Text {

  type byte = b: int | 0 <= b < 0x100

  /** One element of a JavaScript string. */
  type CodeUnit = u: int | 0 <= u < 0x1_0000

  /** One element of a Python `str`. */
  type CodePoint = c: int | 0 <= c < 0x11_0000

  const CR: byte := 13
  const LF: byte := 10

  /** The octets of an ASCII literal. */
  function Ascii(s: string): (r: seq<byte>)
    requires forall i | 0 <= i < |s| :: s[i] as int < 0x80
    ensures |r| == |s| && forall i | 0 <= i < |s| :: r[i] == s[i] as int
  {
    seq<byte>(|s|, i requires 0 <= i < |s| => s[i] as int)
  }

  predicate Surrogate(c: int) {
    0xD800 <= c < 0xE000
  }

  predicate Control(c: int) {
    c < 0x20 || c == 0x7F
  }

  /** The UTF-8 octets of one scalar value (section 3 of RFC 3629). */
  function Utf8(c: CodePoint): (r: seq<byte>)
    requires !Surrogate(c)
    ensures 1 <= |r| <= 4
    ensures c >= 0x80 ==> forall b | b in r :: b >= 0x80
  {
    if c < 0x80 then [c]
    else if c < 0x800 then [0xC0 + c / 0x40, 0x80 + c % 0x40]
    else if c < 0x1_0000 then [0xE0 + c / 0x1000, 0x80 + c / 0x40 % 0x40, 0x80 + c % 0x40]
    else [0xF0 + c / 0x4_0000, 0x80 + c / 0x1000 % 0x40, 0x80 + c / 0x40 % 0x40, 0x80 + c % 0x40]
  }

  /** The octets are a lead and one with six bits of `c`. */
  ghost predicate InTwo(c: int, a: int, b: int) {
    0xC2 <= a <= 0xDF && 0x80 <= b <= 0xBF && c == 64 * (a - 0xC0) + (b - 0x80)
  }

  ghost predicate InThree(c: int, a: int, b: int, d: int) {
    && 0xE0 <= a <= 0xEF && 0x80 <= b <= 0xBF && 0x80 <= d <= 0xBF
    && c == 4096 * (a - 0xE0) + 64 * (b - 0x80) + (d - 0x80)
  }

  ghost predicate InFour(c: int, a: int, b: int, d: int, e: int) {
    && 0xF0 <= a <= 0xF4 && 0x80 <= b <= 0xBF && 0x80 <= d <= 0xBF && 0x80 <= e <= 0xBF
    && c == 262_144 * (a - 0xF0) + 4096 * (b - 0x80) + 64 * (d - 0x80) + (e - 0x80)
  }

  lemma SixBits(c: nat)
    ensures c == c / 0x40 * 0x40 + c % 0x40 && c / 0x40 / 0x40 == c / 0x1000 && c / 0x1000 / 0x40 == c / 0x4_0000
  {
  }

  /** A character is written in one to four octets by its range. */
  lemma Utf8Is(c: CodePoint)
    requires c < 0xD800 || c > 0xDFFF
    ensures var u := Utf8(c);
            if c <= 0x7F then u == [c]
            else if c <= 0x7FF then |u| == 2 && InTwo(c, u[0], u[1])
            else if c <= 0xFFFF then |u| == 3 && InThree(c, u[0], u[1], u[2])
            else |u| == 4 && InFour(c, u[0], u[1], u[2], u[3])
  {
    SixBits(c);
    SixBits(c / 0x40);
    SixBits(c / 0x1000);
  }

  predicate Pair(hi: int, lo: int) {
    0xD800 <= hi < 0xDC00 <= lo < 0xE000
  }

  /** How many code units the first character of `s` takes. */
  function Width(s: seq<CodeUnit>): (n: nat)
    requires s != []
  {
    if |s| > 1 && Pair(s[0], s[1]) then 2 else 1
  }

  /** The first character of `s`: a surrogate pair joins, a lone surrogate becomes U+FFFD. */
  function First(s: seq<CodeUnit>): (c: CodePoint)
    requires s != []
    ensures !Surrogate(c)
  {
    if |s| > 1 && Pair(s[0], s[1]) then
      var hi: int := s[0];
      var lo: int := s[1];
      0x1_0000 + (hi - 0xD800) * 0x400 + (lo - 0xDC00)
    else if Surrogate(s[0]) then 0xFFFD
    else s[0]
  }

  /** `TextEncoder.encode`. */
  function Encode(s: seq<CodeUnit>): seq<byte> {
    if s == [] then [] else Utf8(First(s)) + Encode(s[Width(s)..])
  }

  /** Python's `str.encode()`; a lone surrogate raises, so it is excluded. */
  function EncodePoints(s: seq<CodePoint>): seq<byte>
    requires forall c | c in s :: !Surrogate(c)
  {
    if s == [] then [] else Utf8(s[0]) + EncodePoints(s[1..])
  }

  lemma {:induction false} EncodeAscii(s: seq<CodeUnit>)
    requires forall u | u in s :: u < 0x80
    ensures Encode(s) == s
  {
    if s == [] {
    } else {
      assert forall u | u in s[1..] :: u in s;
      EncodeAscii(s[1..]);
      assert s[0] in s;
      assert Width(s) == 1 && First(s) == s[0] && Utf8(First(s)) == [s[0]];
      assert s == [s[0]] + s[1..];
    }
  }

  /** Encoding splits at every place that does not cut a surrogate pair; a left end below 0x80 never does. */
  lemma {:induction false} EncodeSplit(a: seq<CodeUnit>, b: seq<CodeUnit>)
    requires a == [] || b == [] || !Pair(a[|a| - 1], b[0])
    ensures Encode(a + b) == Encode(a) + Encode(b)
    decreases |a|
  {
    if a == [] {
      assert a + b == b;
    } else if b == [] {
      assert a + b == a;
    } else {
      var w := Width(a);
      var ab := a + b;
      assert ab[0] == a[0] && ab[1] == if |a| == 1 then b[0] else a[1];
      assert First(ab) == First(a) && Width(ab) == w;
      assert ab[w..] == a[w..] + b;
      EncodeSplit(a[w..], b);
      assert Encode(ab) == Utf8(First(a)) + (Encode(a[w..]) + Encode(b));
    }
  }

  /** A string without control characters encodes without CR or LF. */
  lemma {:induction false} EncodeNoBreak(s: seq<CodeUnit>)
    requires forall u | u in s :: !Control(u)
    ensures CR !in Encode(s) && LF !in Encode(s)
    decreases |s|
  {
    if s == [] {
    } else {
      assert forall u | u in s[Width(s)..] :: u in s;
      EncodeNoBreak(s[Width(s)..]);
      assert s[0] in s;
    }
  }

  // ----- the two languages' texts -----------------------------------------------------------

  /** A code point as JavaScript holds it: one code unit, or a surrogate pair. */
  function Utf16(c: CodePoint): seq<CodeUnit> {
    if c < 0x1_0000 then [c] else [0xD800 + (c - 0x1_0000) / 0x400, 0xDC00 + (c - 0x1_0000) % 0x400]
  }

  function Utf16All(s: seq<CodePoint>): seq<CodeUnit> {
    if s == [] then [] else Utf16(s[0]) + Utf16All(s[1..])
  }

  lemma FirstOfPoint(c: CodePoint, rest: seq<CodeUnit>)
    requires !Surrogate(c)
    ensures First(Utf16(c) + rest) == c && Width(Utf16(c) + rest) == |Utf16(c)|
  {
  }

  /** JavaScript's encoder and Python's write the same octets for the same text. */
  lemma {:induction false} EncodersAgree(s: seq<CodePoint>)
    requires forall c | c in s :: !Surrogate(c)
    ensures Encode(Utf16All(s)) == EncodePoints(s)
  {
    if s == [] {
    } else {
      assert s[0] in s && forall c | c in s[1..] :: c in s;
      var u, rest := Utf16(s[0]), Utf16All(s[1..]);
      FirstOfPoint(s[0], rest);
      assert (u + rest)[|u|..] == rest;
      EncodersAgree(s[1..]);
    }
  }

  /** A surrogate without its other half is written as U+FFFD. */
  lemma LoneSurrogate(u: CodeUnit)
    ensures 0xD800 <= u <= 0xDFFF ==> Encode([u]) == [0xEF, 0xBF, 0xBD]
  {
    assert Encode([u][1..]) == [];
  }
}
