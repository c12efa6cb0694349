/**
 * Envelope addresses on the wire: the Worker's `asciiValue` and the `urllib.parse.unquote`
 * Odoo undoes it with.
 */
module Percent {
  import opened Text
  import opened Wrappers

  const PERCENT: byte := 0x25

  // ----- the Worker's side ------------------------------------------------------------------

  /** The class the Worker leaves alone: printable ASCII without `%`. */
  predicate Plain(u: int) {
    0x20 <= u <= 0x7E && u != 0x25
  }

  function HexDigit(n: int): (d: byte)
    requires 0 <= n < 16
  {
    if n < 10 then 0x30 + n else 0x37 + n
  }

  function Escape(bs: seq<byte>): seq<byte> {
    if bs == [] then [] else [PERCENT, HexDigit(bs[0] / 16), HexDigit(bs[0] % 16)] + Escape(bs[1..])
  }

  /** One code unit: itself, or `encodeURIComponent` of it, which throws on a surrogate. */
  function UnitText(u: CodeUnit): (r: seq<byte>)
    requires !Surrogate(u)
  {
    if Plain(u) then [u] else Escape(Utf8(u))
  }

  /** `asciiValue`; None is the URIError `encodeURIComponent` throws. */
  function AsciiValue(s: seq<CodeUnit>): Option<seq<byte>> {
    if s == [] then Some([])
    else if Surrogate(s[0]) then None
    else
      match AsciiValue(s[1..])
      case None => None
      case Some(rest) => Some(UnitText(s[0]) + rest)
  }

  // ----- Python's side ----------------------------------------------------------------------

  function HexValue(c: int): (v: int)
    ensures -1 <= v < 16
  {
    if 0x30 <= c <= 0x39 then c - 0x30
    else if 0x41 <= c <= 0x46 then c - 0x37
    else if 0x61 <= c <= 0x66 then c - 0x57
    else -1
  }

  /** `unquote_to_bytes` on an ASCII run: `%` and two hex digits is an octet, any other `%` itself. */
  function UnquoteToBytes(s: seq<byte>): seq<byte> {
    if s == [] then []
    else if s[0] == PERCENT && |s| >= 3 && HexValue(s[1]) >= 0 && HexValue(s[2]) >= 0 then
      [HexValue(s[1]) * 16 + HexValue(s[2])] + UnquoteToBytes(s[3..])
    else [s[0]] + UnquoteToBytes(s[1..])
  }

  predicate Continuation(s: seq<byte>, i: nat, lo: int, hi: int) {
    i < |s| && lo <= s[i] <= hi
  }

  /** The range the octet after lead `b` must be in. */
  function SecondLow(b: byte): int {
    if b == 0xE0 then 0xA0 else if b == 0xF0 then 0x90 else 0x80
  }

  function SecondHigh(b: byte): int {
    if b == 0xED then 0x9F else if b == 0xF4 then 0x8F else 0xBF
  }

  /** How many octets lead `b` announces; 0 for an octet that leads nothing. */
  function Announced(b: byte): (n: nat)
    ensures n <= 4
  {
    if b < 0x80 then 1
    else if 0xC2 <= b < 0xE0 then 2
    else if 0xE0 <= b < 0xF0 then 3
    else if 0xF0 <= b < 0xF5 then 4
    else 0
  }

  /** One step of `bytes.decode("utf-8", "replace")`: the code point and the octets it takes. */
  function DecodeOne(s: seq<byte>): (r: (CodePoint, nat))
    requires s != []
    ensures 1 <= r.1 <= |s| && !Surrogate(r.0)
  {
    var n, b0: int := Announced(s[0]), s[0];
    if n == 1 then (b0, 1)
    else if n == 0 || !Continuation(s, 1, SecondLow(b0), SecondHigh(b0)) then (0xFFFD, 1)
    else
      var b1: int := s[1];
      if n == 2 then ((b0 - 0xC0) * 0x40 + (b1 - 0x80), 2)
      else if !Continuation(s, 2, 0x80, 0xBF) then (0xFFFD, 2)
      else
        var b2: int := s[2];
        if n == 3 then ((b0 - 0xE0) * 0x1000 + (b1 - 0x80) * 0x40 + (b2 - 0x80), 3)
        else if !Continuation(s, 3, 0x80, 0xBF) then (0xFFFD, 3)
        else
          var b3: int := s[3];
          ((b0 - 0xF0) * 0x4_0000 + (b1 - 0x80) * 0x1000 + (b2 - 0x80) * 0x40 + (b3 - 0x80), 4)
  }

  function Decode(s: seq<byte>): (r: seq<CodePoint>)
    ensures forall c | c in r :: !Surrogate(c)
    decreases |s|
  {
    if s == [] then [] else [DecodeOne(s).0] + Decode(s[DecodeOne(s).1..])
  }

  /** Length of the leading run of ASCII. */
  function AsciiRun(s: seq<CodePoint>): (n: nat)
    ensures n <= |s|
    ensures forall i | 0 <= i < n :: s[i] < 0x80
    ensures n < |s| ==> s[n] >= 0x80
  {
    if s == [] || s[0] >= 0x80 then 0 else 1 + AsciiRun(s[1..])
  }

  function Bytes(s: seq<CodePoint>): (r: seq<byte>)
    requires forall i | 0 <= i < |s| :: s[i] < 0x80
    ensures r == s
  {
    if s == [] then [] else [s[0]] + Bytes(s[1..])
  }

  function UnquoteRuns(s: seq<CodePoint>): seq<CodePoint>
    decreases |s|
  {
    if s == [] then []
    else if s[0] >= 0x80 then [s[0]] + UnquoteRuns(s[1..])
    else Decode(UnquoteToBytes(Bytes(s[..AsciiRun(s)]))) + UnquoteRuns(s[AsciiRun(s)..])
  }

  /** `urllib.parse.unquote`. */
  function Unquote(s: seq<CodePoint>): seq<CodePoint> {
    if PERCENT !in s then s else UnquoteRuns(s)
  }

  // ----- the two undo each other ------------------------------------------------------------

  predicate Encodable(s: seq<CodeUnit>) {
    forall u | u in s :: !Surrogate(u)
  }

  /** `asciiValue` answers exactly for strings without surrogate code units; otherwise it throws. */
  lemma {:induction false} AsciiValueDomain(s: seq<CodeUnit>)
    ensures AsciiValue(s).Some? <==> Encodable(s)
    ensures Encodable(s) <==> forall u | u in s :: u < 0xD800 || u > 0xDFFF
  {
    if s == [] {
    } else {
      AsciiValueDomain(s[1..]);
      assert forall u | u in s :: u == s[0] || u in s[1..];
      assert forall u | u in s[1..] :: u in s;
      assert s[0] in s;
    }
  }

  /** A well-formed address outside the basic plane (here a pair for U+1F600) cannot be written. */
  lemma AstralAddressThrows()
    ensures AsciiValue([0xD83D, 0xDE00]) == None
    ensures First([0xD83D, 0xDE00]) == 0x1_F600
  {
  }

  lemma HexRoundTrip(n: int)
    requires 0 <= n < 16
    ensures HexValue(HexDigit(n)) == n
    ensures 0x20 <= HexDigit(n) <= 0x7E && HexDigit(n) != PERCENT
  {
  }

  /** One escape is undone and the text after it left alone. */
  lemma EscapeOne(b: byte, rest: seq<byte>)
    ensures UnquoteToBytes(Escape([b]) + rest) == [b] + UnquoteToBytes(rest)
  {
    HexRoundTrip(b / 16);
    HexRoundTrip(b % 16);
    assert [b][1..] == [];
    assert Escape([b]) == [PERCENT, HexDigit(b / 16), HexDigit(b % 16)];
    var whole := Escape([b]) + rest;
    assert whole[3..] == rest;
  }

  lemma EscapeSplits(bs: seq<byte>, rest: seq<byte>)
    requires bs != []
    ensures Escape(bs) + rest == Escape([bs[0]]) + (Escape(bs[1..]) + rest)
  {
    assert [bs[0]][1..] == [];
  }

  lemma HeadFirst(bs: seq<byte>, rest: seq<byte>)
    requires bs != []
    ensures bs + rest == [bs[0]] + (bs[1..] + rest)
  {
  }

  lemma {:induction false} EscapeInverse(bs: seq<byte>, rest: seq<byte>)
    ensures UnquoteToBytes(Escape(bs) + rest) == bs + UnquoteToBytes(rest)
  {
    if bs == [] {
      assert Escape(bs) + rest == rest;
    } else {
      EscapeInverse(bs[1..], rest);
      EscapeSplits(bs, rest);
      EscapeOne(bs[0], Escape(bs[1..]) + rest);
      HeadFirst(bs, UnquoteToBytes(rest));
    }
  }

  lemma {:induction false} EscapePrintable(bs: seq<byte>)
    ensures forall b | b in Escape(bs) :: 0x20 <= b <= 0x7E
  {
    if bs == [] {
    } else {
      EscapePrintable(bs[1..]);
      HexRoundTrip(bs[0] / 16);
      HexRoundTrip(bs[0] % 16);
    }
  }

  /** The UTF-8 octets of a string of the basic plane. */
  function PlaneBytes(s: seq<CodeUnit>): seq<byte>
    requires Encodable(s)
  {
    if s == [] then []
    else
      assert s[0] in s && forall u | u in s[1..] :: u in s;
      Utf8(s[0]) + PlaneBytes(s[1..])
  }

  lemma {:induction false} AsciiValueBytes(s: seq<CodeUnit>)
    requires Encodable(s)
    ensures AsciiValue(s).Some?
    ensures forall b | b in AsciiValue(s).value :: 0x20 <= b <= 0x7E
    ensures UnquoteToBytes(AsciiValue(s).value) == PlaneBytes(s)
    ensures PERCENT !in AsciiValue(s).value ==> AsciiValue(s).value == s
    ensures AsciiValue(s).value == s <==> forall i | 0 <= i < |s| :: 0x20 <= s[i] <= 0x7E && s[i] != 0x25
  {
    AddressStaysIff(s);
    if s == [] {
    } else {
      assert s[0] in s && forall u | u in s[1..] :: u in s;
      AsciiValueBytes(s[1..]);
      var rest := AsciiValue(s[1..]).value;
      if Plain(s[0]) {
        assert UnitText(s[0]) + rest == [s[0]] + rest;
        assert ([s[0]] + rest)[1..] == rest;
        assert Utf8(s[0]) == [s[0]];
      } else {
        EscapeInverse(Utf8(s[0]), rest);
        EscapePrintable(Utf8(s[0]));
        assert (UnitText(s[0]) + rest)[0] == PERCENT;
      }
      assert s == [s[0]] + s[1..];
    }
  }

  lemma DecodeTwo(s: seq<byte>, x: int, y: int)
    requires |s| >= 2 && s[0] == 0xC0 + x && s[1] == 0x80 + y
    requires 2 <= x < 0x20 && 0 <= y < 0x40
    ensures DecodeOne(s) == (x * 0x40 + y, 2)
  {
  }

  lemma DecodeThree(s: seq<byte>, x: int, y: int, z: int)
    requires |s| >= 3 && s[0] == 0xE0 + x && s[1] == 0x80 + y && s[2] == 0x80 + z
    requires 0 <= x < 0x10 && 0 <= y < 0x40 && 0 <= z < 0x40
    requires x == 0 ==> y >= 0x20
    requires x == 0xD ==> y < 0x20
    ensures DecodeOne(s) == (x * 0x1000 + y * 0x40 + z, 3)
  {
  }

  lemma DecodeFour(s: seq<byte>, x: int, y: int, z: int, w: int)
    requires |s| >= 4 && s[0] == 0xF0 + x && s[1] == 0x80 + y && s[2] == 0x80 + z && s[3] == 0x80 + w
    requires 0 <= x < 5 && 0 <= y < 0x40 && 0 <= z < 0x40 && 0 <= w < 0x40
    requires x == 0 ==> y >= 0x10
    requires x == 4 ==> y < 0x10
    ensures DecodeOne(s) == (x * 0x4_0000 + y * 0x1000 + z * 0x40 + w, 4)
  {
  }

  lemma Base64Digits(c: int)
    requires 0 <= c
    ensures c / 0x40 / 0x40 == c / 0x1000
    ensures c / 0x1000 / 0x40 == c / 0x4_0000
    ensures c == c / 0x1000 * 0x1000 + c / 0x40 % 0x40 * 0x40 + c % 0x40
    ensures c / 0x1000 == c / 0x4_0000 * 0x40 + c / 0x1000 % 0x40
  {
  }

  lemma DecodeUtf8(c: CodePoint, rest: seq<byte>)
    requires !Surrogate(c)
    ensures DecodeOne(Utf8(c) + rest) == (c, |Utf8(c)|)
  {
    var u := Utf8(c);
    var s := u + rest;
    assert forall i | 0 <= i < |u| :: s[i] == u[i];
    Base64Digits(c);
    var q, r, z := c / 0x1000, c / 0x40 % 0x40, c % 0x40;
    if c < 0x80 {
    } else if c < 0x800 {
      DecodeTwo(s, c / 0x40, z);
    } else if c < 0x1_0000 {
      assert q * 0x1000 <= c < q * 0x1000 + 0x1000;
      assert q == 0 ==> r >= 0x20;
      assert q == 0xD ==> r < 0x20;
      DecodeThree(s, q, r, z);
    } else {
      var x, y := c / 0x4_0000, q % 0x40;
      DecodeFour(s, x, y, r, z);
    }
  }

  lemma DecodeNext(c: CodePoint, rest: seq<byte>)
    requires !Surrogate(c)
    ensures Decode(Utf8(c) + rest) == [c] + Decode(rest)
  {
    DecodeUtf8(c, rest);
    assert (Utf8(c) + rest)[|Utf8(c)|..] == rest;
  }

  lemma {:induction false} DecodePlane(s: seq<CodeUnit>)
    requires Encodable(s)
    ensures Decode(PlaneBytes(s)) == s
  {
    if s == [] {
    } else {
      assert s[0] in s && forall u | u in s[1..] :: u in s;
      DecodeNext(s[0], PlaneBytes(s[1..]));
      DecodePlane(s[1..]);
      assert s == [s[0]] + s[1..];
    }
  }

  /** On an ASCII header value the runs are the whole value. */
  lemma UnquoteAscii(v: seq<byte>)
    requires forall b | b in v :: b < 0x80
    requires PERCENT in v
    ensures Unquote(v) == Decode(UnquoteToBytes(v))
  {
    assert forall i | 0 <= i < |v| :: v[i] in v;
    var n := AsciiRun(v);
    assert n == |v|;
    assert v[..n] == v && v[n..] == [];
    assert Bytes(v) == v;
    assert UnquoteRuns(v) == Decode(UnquoteToBytes(v)) + UnquoteRuns([]);
  }

  /**
   * The round trip across the two languages: for every string `asciiValue` can write, the value is
   * printable ASCII and `unquote` gives the original back exactly.
   */
  lemma UnquoteInverts(s: seq<CodeUnit>)
    requires Encodable(s)
    ensures AsciiValue(s).Some?
    ensures forall b | b in AsciiValue(s).value :: 0x20 <= b <= 0x7E
    ensures Unquote(AsciiValue(s).value) == s
  {
    AsciiValueBytes(s);
    var v := AsciiValue(s).value;
    if PERCENT in v {
      UnquoteAscii(v);
      DecodePlane(s);
    }
  }

  /** Two different addresses never travel as the same header value. */
  lemma AsciiValueInjective(s: seq<CodeUnit>, t: seq<CodeUnit>)
    requires AsciiValue(s).Some? && AsciiValue(s) == AsciiValue(t)
    ensures s == t
  {
    AsciiValueDomain(s);
    AsciiValueDomain(t);
    UnquoteInverts(s);
    UnquoteInverts(t);
  }

  // ----- what each character becomes --------------------------------------------------------

  const UPPER_HEX: seq<byte> := Ascii("0123456789ABCDEF")
  const LOWER_HEX: seq<byte> := Ascii("0123456789abcdef")

  /** `asciiValue` writes a string character by character. */
  lemma {:induction false} AsciiValueSplits(s: seq<CodeUnit>, t: seq<CodeUnit>)
    ensures AsciiValue(s + t) ==
            if AsciiValue(s).Some? && AsciiValue(t).Some? then Some(AsciiValue(s).value + AsciiValue(t).value)
            else None
  {
    if s == [] {
      assert s + t == t;
      assert AsciiValue(t).Some? ==> [] + AsciiValue(t).value == AsciiValue(t).value;
    } else {
      assert (s + t)[1..] == s[1..] + t;
      AsciiValueSplits(s[1..], t);
      if AsciiValue(s).Some? && AsciiValue(t).Some? {
        var u, rest := UnitText(s[0]), AsciiValue(s[1..]).value;
        assert u + (rest + AsciiValue(t).value) == (u + rest) + AsciiValue(t).value;
      }
    }
  }

  /** The i-th three characters of `text` are a percent sign and the octet in upper-case hexadecimal. */
  predicate EscapesOctet(text: seq<byte>, i: nat, b: byte) {
    && 3 * i + 2 < |text| && |UPPER_HEX| == 16
    && text[3 * i] == 0x25 && text[3 * i + 1] == UPPER_HEX[b / 16] && text[3 * i + 2] == UPPER_HEX[b % 16]
  }

  lemma EscapeNext(bs: seq<byte>, rest: seq<byte>, i: nat)
    requires bs != [] && rest == Escape(bs[1..]) && i < |bs|
    requires i > 0 ==> EscapesOctet(rest, i - 1, bs[i])
    ensures EscapesOctet([0x25, HexDigit(bs[0] / 16), HexDigit(bs[0] % 16)] + rest, i, bs[i])
  {
    var head: seq<byte> := [0x25, HexDigit(bs[0] / 16), HexDigit(bs[0] % 16)];
    if i > 0 {
      assert forall k | 3 <= k < 3 + |rest| :: (head + rest)[k] == rest[k - 3];
    }
  }

  lemma {:induction false} EscapeIs(bs: seq<byte>)
    ensures |Escape(bs)| == 3 * |bs| && forall i | 0 <= i < |bs| :: EscapesOctet(Escape(bs), i, bs[i])
  {
    if bs == [] {
    } else {
      EscapeIs(bs[1..]);
      forall i | 0 <= i < |bs|
        ensures EscapesOctet(Escape(bs), i, bs[i])
      {
        if i > 0 {
          assert bs[1..][i - 1] == bs[i];
        }
        EscapeNext(bs, Escape(bs[1..]), i);
      }
    }
  }

  /**
   * Each character by itself: printable ASCII but the percent sign stays, a surrogate is refused, and
   * anything else becomes its UTF-8 octets, each as a percent sign and two upper-case hex digits.
   */
  lemma AsciiValueOfUnit(u: CodeUnit)
    ensures 0x20 <= u <= 0x7E && u != 0x25 ==> AsciiValue([u]) == Some([u])
    ensures 0xD800 <= u <= 0xDFFF ==> AsciiValue([u]) == None
    ensures (u < 0x20 || u == 0x25 || u > 0x7E) && (u < 0xD800 || u > 0xDFFF) ==>
              && AsciiValue([u]).Some? && |AsciiValue([u]).value| == 3 * |Utf8(u)|
              && forall i | 0 <= i < |Utf8(u)| :: EscapesOctet(AsciiValue([u]).value, i, Utf8(u)[i])
  {
    assert AsciiValue([u][1..]) == Some([]);
    if u < 0xD800 || u > 0xDFFF {
      EscapeIs(Utf8(u));
      assert AsciiValue([u]) == Some(UnitText(u) + []);
      assert UnitText(u) + [] == UnitText(u);
    }
  }

  /** Escaping never makes a string shorter, and leaves its length only where it escapes nothing. */
  lemma {:induction false} AsciiValueGrows(s: seq<CodeUnit>)
    requires AsciiValue(s).Some?
    ensures |AsciiValue(s).value| >= |s|
    ensures |AsciiValue(s).value| == |s| <==> forall i | 0 <= i < |s| :: 0x20 <= s[i] <= 0x7E && s[i] != 0x25
  {
    if s == [] {
    } else {
      AsciiValueGrows(s[1..]);
      AsciiValueOfUnit(s[0]);
      EscapeIs(Utf8(s[0]));
      assert |AsciiValue(s).value| == |UnitText(s[0])| + |AsciiValue(s[1..]).value|;
      assert forall i | 1 <= i < |s| :: s[i] == s[1..][i - 1];
    }
  }

  lemma {:induction false} PlainStays(s: seq<CodeUnit>)
    requires forall i | 0 <= i < |s| :: 0x20 <= s[i] <= 0x7E && s[i] != 0x25
    ensures AsciiValue(s) == Some(s)
  {
    if s == [] {
    } else {
      PlainStays(s[1..]);
      assert s == [s[0]] + s[1..];
    }
  }

  /** An address passes through byte for byte exactly when it is printable ASCII without a percent sign. */
  lemma AddressStaysIff(s: seq<CodeUnit>)
    ensures AsciiValue(s) == Some(s) <==> forall i | 0 <= i < |s| :: 0x20 <= s[i] <= 0x7E && s[i] != 0x25
  {
    if AsciiValue(s) == Some(s) {
      AsciiValueGrows(s);
    }
    if forall i | 0 <= i < |s| :: 0x20 <= s[i] <= 0x7E && s[i] != 0x25 {
      PlainStays(s);
    }
  }

  // ----- what `unquote` makes of anything else -----------------------------------------------

  /** Exactly the digits of either case are hexadecimal, and each stands for its place. */
  lemma HexValueIs(c: int)
    ensures |UPPER_HEX| == |LOWER_HEX| == 16
    ensures forall v | 0 <= v < 16 :: HexValue(UPPER_HEX[v]) == v && HexValue(LOWER_HEX[v]) == v
    ensures HexValue(c) >= 0 ==> UPPER_HEX[HexValue(c)] == c || LOWER_HEX[HexValue(c)] == c
  {
  }

  /** `%` and two hex digits is an octet; any other octet, another `%` too, is itself. */
  lemma UnquoteNext(s: seq<byte>)
    requires s != []
    ensures var escaped := s[0] == 0x25 && |s| >= 3 && HexValue(s[1]) >= 0 && HexValue(s[2]) >= 0;
            UnquoteToBytes(s) == if escaped then [16 * HexValue(s[1]) + HexValue(s[2])] + UnquoteToBytes(s[3..])
                                 else [s[0]] + UnquoteToBytes(s[1..])
  {
  }

  /** `s` begins with the encoding of `c`. */
  predicate Begins(s: seq<byte>, c: CodePoint) {
    !Surrogate(c) && Utf8(c) <= s
  }

  lemma SoundTwo(a: int, b: int)
    requires 0xC2 <= a < 0xE0 && 0x80 <= b <= 0xBF
    ensures Utf8((a - 0xC0) * 0x40 + (b - 0x80)) == [a, b]
  {
  }

  /** The base-64 digits of a number are what it was put together from. */
  lemma DigitsOf(c: int, x: int, y: int, z: int, w: int)
    requires c == x * 0x4_0000 + y * 0x1000 + z * 0x40 + w
    requires 0 <= y < 0x40 && 0 <= z < 0x40 && 0 <= w < 0x40
    ensures c / 0x40 == x * 0x1000 + y * 0x40 + z && c % 0x40 == w
    ensures c / 0x1000 == x * 0x40 + y && c / 0x4_0000 == x
  {
  }

  lemma SoundThree(a: int, b: int, d: int)
    requires 0xE0 <= a < 0xF0 && SecondLow(a) <= b <= SecondHigh(a) && 0x80 <= d <= 0xBF
    ensures !Surrogate((a - 0xE0) * 0x1000 + (b - 0x80) * 0x40 + (d - 0x80))
    ensures Utf8((a - 0xE0) * 0x1000 + (b - 0x80) * 0x40 + (d - 0x80)) == [a, b, d]
  {
    var x, y, z := a - 0xE0, b - 0x80, d - 0x80;
    var c := x * 0x1000 + y * 0x40 + z;
    DigitsOf(c, 0, x, y, z);
    assert 0x800 <= c < 0x1_0000 && !Surrogate(c);
    assert c / 0x1000 == x && c / 0x40 % 0x40 == y;
  }

  lemma SoundFour(a: int, b: int, d: int, e: int)
    requires 0xF0 <= a < 0xF5 && SecondLow(a) <= b <= SecondHigh(a) && 0x80 <= d <= 0xBF && 0x80 <= e <= 0xBF
    ensures 0x1_0000 <= (a - 0xF0) * 0x4_0000 + (b - 0x80) * 0x1000 + (d - 0x80) * 0x40 + (e - 0x80) < 0x11_0000
    ensures Utf8((a - 0xF0) * 0x4_0000 + (b - 0x80) * 0x1000 + (d - 0x80) * 0x40 + (e - 0x80)) == [a, b, d, e]
  {
    var x, y, z, w := a - 0xF0, b - 0x80, d - 0x80, e - 0x80;
    var c := x * 0x4_0000 + y * 0x1000 + z * 0x40 + w;
    DigitsOf(c, x, y, z, w);
    assert 0x1_0000 <= c < 0x11_0000;
    assert c / 0x1000 % 0x40 == y && c / 0x40 % 0x40 == z;
  }

  lemma DecodeSound(s: seq<byte>)
    requires s != [] && DecodeOne(s).0 != 0xFFFD
    ensures Begins(s, DecodeOne(s).0) && |Utf8(DecodeOne(s).0)| == DecodeOne(s).1
  {
    var n := Announced(s[0]);
    if n == 1 {
      assert s[..1] == [s[0]];
    } else if n == 2 {
      SoundTwo(s[0], s[1]);
      assert s[..2] == [s[0], s[1]];
    } else if n == 3 {
      SoundThree(s[0], s[1], s[2]);
      assert s[..3] == [s[0], s[1], s[2]];
    } else {
      SoundFour(s[0], s[1], s[2], s[3]);
      assert s[..4] == [s[0], s[1], s[2], s[3]];
    }
  }

  /**
   * Decoding takes a character off the front exactly where one is encoded there, and writes U+FFFD
   * where none is.
   */
  lemma DecodesIff(s: seq<byte>, c: CodePoint)
    requires s != []
    ensures Begins(s, c) ==> DecodeOne(s) == (c, |Utf8(c)|)
    ensures DecodeOne(s).0 == c != 0xFFFD ==> Begins(s, c)
  {
    if Begins(s, c) {
      DecodeUtf8(c, s[|Utf8(c)|..]);
      assert Utf8(c) + s[|Utf8(c)|..] == s;
    }
    if DecodeOne(s).0 == c != 0xFFFD {
      DecodeSound(s);
    }
  }
}
