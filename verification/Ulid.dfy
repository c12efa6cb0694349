/** Byte helpers and message ids (worker/src/lib/util.ts). */
module Ulid {
  import opened Text
  import opened Wrappers

  // ----- bytes ------------------------------------------------------------------------------

  function Flat(parts: seq<seq<byte>>): seq<byte> {
    if parts == [] then [] else Flat(parts[..|parts| - 1]) + parts[|parts| - 1]
  }

  function TotalLength(parts: seq<seq<byte>>): nat {
    if parts == [] then 0 else TotalLength(parts[..|parts| - 1]) + |parts[|parts| - 1]|
  }

  lemma {:induction false} FlatLength(parts: seq<seq<byte>>)
    ensures |Flat(parts)| == TotalLength(parts)
  {
    if parts == [] {
    } else {
      FlatLength(parts[..|parts| - 1]);
    }
  }

  lemma {:induction false} TotalGrows(parts: seq<seq<byte>>, i: nat)
    requires i <= |parts|
    ensures TotalLength(parts[..i]) <= TotalLength(parts)
  {
    if i < |parts| {
      assert parts[..|parts| - 1][..i] == parts[..i];
      TotalGrows(parts[..|parts| - 1], i);
    } else {
      assert parts[..i] == parts;
    }
  }

  /** The parts one after the other. */
  lemma {:induction false} FlatJoins(parts: seq<seq<byte>>, more: seq<seq<byte>>)
    ensures Flat(parts + more) == Flat(parts) + Flat(more)
    ensures |more| == 1 ==> Flat(more) == more[0]
    decreases |more|
  {
    if more == [] {
      assert parts + more == parts;
    } else {
      var n, all := |more| - 1, parts + more;
      assert all[..|all| - 1] == parts + more[..n];
      FlatJoins(parts, more[..n]);
      assert Flat(parts) + Flat(more[..n]) + more[n] == Flat(parts) + (Flat(more[..n]) + more[n]);
    }
  }

  /** `concatBytes`: one allocation of the total length, then a copy per part. */
  method ConcatBytes(parts: seq<seq<byte>>) returns (out: array<byte>)
    ensures fresh(out) && out[..] == Flat(parts)
  {
    var total := 0;
    for i := 0 to |parts|
      invariant total == TotalLength(parts[..i])
    {
      assert parts[..i + 1][..i] == parts[..i];
      total := total + |parts[i]|;
    }
    assert parts[..|parts|] == parts;
    out := new byte[total](_ => 0);
    var offset := 0;
    for i := 0 to |parts|
      invariant offset == TotalLength(parts[..i]) <= out.Length
      invariant out[..offset] == Flat(parts[..i])
    {
      assert parts[..i + 1][..i] == parts[..i];
      TotalGrows(parts, i + 1);
      var before := out[..offset];
      forall j | 0 <= j < |parts[i]| {
        out[offset + j] := parts[i][j];
      }
      assert out[..offset + |parts[i]|] == before + parts[i];
      offset := offset + |parts[i]|;
    }
  }

  function HexChar(n: int): (c: byte)
    requires 0 <= n < 16
    ensures !(0x41 <= c <= 0x5A) && c < 0x80
  {
    if n < 10 then 0x30 + n else 0x57 + n
  }

  function Hex(bytes: seq<byte>): (r: seq<byte>)
    ensures |r| == 2 * |bytes|
    ensures forall c | c in r :: !(0x41 <= c <= 0x5A) && c < 0x80
  {
    if bytes == [] then []
    else
      var b := bytes[|bytes| - 1];
      Hex(bytes[..|bytes| - 1]) + [HexChar(b / 16), HexChar(b % 16)]
  }

  /** What a lower-case hexadecimal digit stands for; -1 for anything else. */
  function DigitValue(c: int): int {
    if '0' as int <= c <= '9' as int then c - '0' as int
    else if 'a' as int <= c <= 'f' as int then 10 + (c - 'a' as int)
    else -1
  }

  /** `text` is two lower-case hexadecimal digits for each octet, the high one first. */
  predicate Denotes(text: seq<byte>, bytes: seq<byte>) {
    && |text| == 2 * |bytes|
    && forall i | 0 <= i < |bytes| ::
         && DigitValue(text[2 * i]) >= 0 && DigitValue(text[2 * i + 1]) >= 0
         && 16 * DigitValue(text[2 * i]) + DigitValue(text[2 * i + 1]) == bytes[i]
  }

  lemma HexCharReads(n: int)
    requires 0 <= n < 16
    ensures DigitValue(HexChar(n)) == n
  {
  }

  lemma DenotesOneMore(text: seq<byte>, bytes: seq<byte>, hi: byte, lo: byte, b: byte)
    requires Denotes(text, bytes)
    requires DigitValue(hi) >= 0 && DigitValue(lo) >= 0 && 16 * DigitValue(hi) + DigitValue(lo) == b
    ensures Denotes(text + [hi, lo], bytes + [b])
  {
    var longer, more := text + [hi, lo], bytes + [b];
    forall i | 0 <= i < |more|
      ensures DigitValue(longer[2 * i]) >= 0 && DigitValue(longer[2 * i + 1]) >= 0
      ensures 16 * DigitValue(longer[2 * i]) + DigitValue(longer[2 * i + 1]) == more[i]
    {
      if i < |bytes| {
        assert longer[2 * i] == text[2 * i] && longer[2 * i + 1] == text[2 * i + 1] && more[i] == bytes[i];
      }
    }
  }

  /** The text denotes the octets. */
  lemma {:induction false} HexDenotes(bytes: seq<byte>)
    ensures Denotes(Hex(bytes), bytes)
  {
    if bytes == [] {
    } else {
      var front, b := bytes[..|bytes| - 1], bytes[|bytes| - 1];
      HexDenotes(front);
      HexCharReads(b / 16);
      HexCharReads(b % 16);
      DenotesOneMore(Hex(front), front, HexChar(b / 16), HexChar(b % 16), b);
      assert bytes == front + [b];
    }
  }

  lemma DigitValueInjective(c: int, d: int)
    requires DigitValue(c) == DigitValue(d) >= 0
    ensures c == d
  {
  }

  /** There is one such text. */
  lemma DenotesOne(text: seq<byte>, other: seq<byte>, bytes: seq<byte>)
    requires Denotes(text, bytes) && Denotes(other, bytes)
    ensures text == other
  {
    forall k | 0 <= k < |text|
      ensures text[k] == other[k]
    {
      var i := k / 2;
      assert 16 * DigitValue(text[2 * i]) + DigitValue(text[2 * i + 1]) == bytes[i];
      assert 16 * DigitValue(other[2 * i]) + DigitValue(other[2 * i + 1]) == bytes[i];
      DigitValueInjective(text[2 * i], other[2 * i]);
      DigitValueInjective(text[2 * i + 1], other[2 * i + 1]);
      assert k == 2 * i || k == 2 * i + 1;
    }
  }

  /** And it denotes no other octets. */
  lemma DenotesInjective(text: seq<byte>, a: seq<byte>, b: seq<byte>)
    requires Denotes(text, a) && Denotes(text, b)
    ensures a == b
  {
    assert |a| == |b|;
    assert forall i | 0 <= i < |a| :: a[i] == b[i];
  }

  /** `toHex`. */
  method ToHex(bytes: seq<byte>) returns (out: seq<byte>)
    ensures out == Hex(bytes) && Denotes(out, bytes)
  {
    HexDenotes(bytes);
    out := [];
    for i := 0 to |bytes|
      invariant out == Hex(bytes[..i])
    {
      assert bytes[..i + 1][..i] == bytes[..i];
      out := out + [HexChar(bytes[i] / 16), HexChar(bytes[i] % 16)];
    }
    assert bytes[..|bytes|] == bytes;
  }

  lemma HexInjective(a: seq<byte>, b: seq<byte>)
    requires Hex(a) == Hex(b)
    ensures a == b
  {
    HexDenotes(a);
    HexDenotes(b);
    DenotesInjective(Hex(a), a, b);
  }

  // ----- Crockford base 32 ------------------------------------------------------------------

  const ALPHABET: seq<byte> := Ascii("0123456789ABCDEFGHJKMNPQRSTVWXYZ")

  /** The character for a five-bit value: digits, then A to Z without I, L, O and U. */
  function Symbol(v: int): byte
    requires 0 <= v < 32
  {
    if v < 10 then 0x30 + v
    else if v < 18 then 0x37 + v
    else if v < 20 then 0x38 + v
    else if v < 22 then 0x39 + v
    else if v < 27 then 0x3A + v
    else 0x3B + v
  }

  lemma SymbolIsAlphabet(v: int)
    requires 0 <= v < 32
    ensures |ALPHABET| == 32 && ALPHABET[v] == Symbol(v)
  {
  }

  lemma SymbolOrder(v: int, w: int)
    requires 0 <= v < 32 && 0 <= w < 32
    ensures Symbol(v) < Symbol(w) <==> v < w
  {
  }

  /** The lowest `width` base-32 digits of `n`, most significant first. */
  function Base32(n: nat, width: nat): (r: seq<byte>)
    ensures |r| == width
  {
    if width == 0 then [] else Base32(n / 32, width - 1) + [Symbol(n % 32)]
  }

  function Pow32(k: nat): (p: nat)
    ensures p > 0
  {
    if k == 0 then 1 else 32 * Pow32(k - 1)
  }

  /** Crockford's alphabet: no I, L, O or U. */
  ghost const CROCKFORD: string := "0123456789ABCDEFGHJKMNPQRSTVWXYZ"

  lemma SymbolIs(v: int)
    requires 0 <= v < 32
    ensures |CROCKFORD| == 32 && Symbol(v) == CROCKFORD[v] as int
  {
  }

  lemma DivDown(n: nat, k: nat)
    ensures n / (32 * Pow32(k)) == n / 32 / Pow32(k)
  {
    var p := Pow32(k);
    var q := n / 32 / p;
    assert n / 32 == q * p + n / 32 % p;
    assert n == 32 * (q * p) + 32 * (n / 32 % p) + n % 32;
    assert 32 * (n / 32 % p) + n % 32 < 32 * p;
    assert n == q * (32 * p) + (32 * (n / 32 % p) + n % 32);
    QuotientIs(n, 32 * p, q, 32 * (n / 32 % p) + n % 32);
  }

  lemma QuotientIs(n: nat, d: nat, q: nat, r: nat)
    requires n == q * d + r && r < d
    ensures n / d == q
  {
    var e := n / d - q;
    assert n == n / d * d + n % d;
    assert e * d == n / d * d - q * d;
    assert e > 0 ==> e * d >= d;
    assert e < 0 ==> e * d <= 0 - d;
  }

  lemma {:induction false} Base32Symbol(n: nat, width: nat, k: nat)
    requires k < width
    ensures Base32(n, width)[width - 1 - k] == Symbol(n / Pow32(k) % 32)
  {
    if k == 0 {
      assert Pow32(0) == 1 && n / 1 == n;
    } else {
      Base32Symbol(n / 32, width - 1, k - 1);
      DivDown(n, k - 1);
    }
  }

  /** Each character is its place's base-32 digit of the number, in Crockford's alphabet. */
  lemma Base32Digit(n: nat, width: nat, k: nat)
    requires k < width
    ensures |CROCKFORD| == 32
    ensures Base32(n, width)[width - 1 - k] == CROCKFORD[n / Pow32(k) % 32] as int
  {
    SymbolIs(n / Pow32(k) % 32);
    Base32Symbol(n, width, k);
  }

  /** Octet order of equal-length texts, which is how SQLite compares TEXT. */
  predicate Before(a: seq<byte>, b: seq<byte>)
    requires |a| == |b|
  {
    a != [] && (a[0] < b[0] || (a[0] == b[0] && Before(a[1..], b[1..])))
  }

  lemma {:induction false} BeforeAppend(a: seq<byte>, b: seq<byte>, x: byte, y: byte)
    requires |a| == |b|
    ensures Before(a + [x], b + [y]) <==> Before(a, b) || (a == b && x < y)
  {
    if a != [] {
      assert (a + [x])[1..] == a[1..] + [x] && (b + [y])[1..] == b[1..] + [y];
      BeforeAppend(a[1..], b[1..], x, y);
      assert a == [a[0]] + a[1..] && b == [b[0]] + b[1..];
    } else {
      assert (a + [x])[0] == x && (b + [y])[0] == y;
    }
  }

  lemma {:induction false} BeforeIrreflexive(a: seq<byte>)
    ensures !Before(a, a)
  {
    if a == [] {
    } else {
      BeforeIrreflexive(a[1..]);
    }
  }

  /** Text order is number order, and one number has one text. */
  lemma {:induction false} Base32Order(m: nat, n: nat, width: nat)
    requires m < Pow32(width) && n < Pow32(width)
    ensures Before(Base32(m, width), Base32(n, width)) <==> m < n
    ensures Base32(m, width) == Base32(n, width) <==> m == n
  {
    if width == 0 {
    } else {
      Base32Order(m / 32, n / 32, width - 1);
      var a, b := Base32(m / 32, width - 1), Base32(n / 32, width - 1);
      BeforeAppend(a, b, Symbol(m % 32), Symbol(n % 32));
      SymbolOrder(m % 32, n % 32);
      SymbolOrder(n % 32, m % 32);
      if Base32(m, width) == Base32(n, width) {
        assert Base32(m, width)[..width - 1] == a && Base32(n, width)[..width - 1] == b;
        assert Base32(m, width)[width - 1] == Symbol(m % 32);
        assert Base32(n, width)[width - 1] == Symbol(n % 32);
      }
    }
  }

  lemma {:induction false} Base32Join(a: nat, b: nat, j: nat, k: nat)
    requires b < Pow32(k)
    ensures Base32(a * Pow32(k) + b, j + k) == Base32(a, j) + Base32(b, k)
  {
    if k > 0 {
      var p := Pow32(k - 1);
      var n := a * Pow32(k) + b;
      assert a * Pow32(k) == 32 * (a * p);
      assert n / 32 == a * p + b / 32 && n % 32 == b % 32;
      Base32Join(a, b / 32, j, k - 1);
    } else {
      assert a * Pow32(0) == a;
    }
  }

  // ----- the two halves of an id -------------------------------------------------------------

  const ULID_TIME_CHARS := 10
  const ULID_RANDOM_BYTES := 10
  const ULID_MAX_TIME: nat := 281_474_976_710_655

  /** `encodeTime`. */
  method EncodeTime(ms: nat) returns (out: seq<byte>)
    ensures out == Base32(ms, ULID_TIME_CHARS)
  {
    var remaining := ms;
    out := [];
    for i := 0 to ULID_TIME_CHARS
      invariant Base32(ms, ULID_TIME_CHARS) == Base32(remaining, ULID_TIME_CHARS - i) + out
    {
      SymbolIsAlphabet(remaining % 32);
      out := [ALPHABET[remaining % 32]] + out;
      remaining := remaining / 32;
    }
    assert [] + out == out;
  }

  lemma PowersOf32()
    ensures Pow32(9) == 0x2000_0000_0000 && Pow32(10) == 0x4_0000_0000_0000
    ensures Pow32(16) == 0x1_0000_0000_0000_0000_0000
  {
    assert Pow32(3) == 0x8000;
    assert Pow32(6) == 0x4000_0000;
    assert Pow32(13) == 0x2_0000_0000_0000_0000;
  }

  /** A timestamp of up to 48 bits is exactly one whose text leads with 0 to 7. */
  lemma TimeLead(ms: nat)
    requires ms < Pow32(ULID_TIME_CHARS)
    ensures ms <= ULID_MAX_TIME <==> Base32(ms, ULID_TIME_CHARS)[0] <= 0x37
  {
    PowersOf32();
    var hi, lo := ms / Pow32(9), ms % Pow32(9);
    Base32Join(hi, lo, 1, 9);
    assert ms == hi * Pow32(9) + lo;
    assert Base32(hi, 1) == Base32(hi / 32, 0) + [Symbol(hi % 32)];
    assert hi < 32;
  }

  function BigEndian(bytes: seq<byte>): nat {
    if bytes == [] then 0 else BigEndian(bytes[..|bytes| - 1]) * 256 + bytes[|bytes| - 1]
  }

  // The packer's operators, one bit at a time.

  /** `h << k`. */
  function ShiftLeft(h: nat, k: nat): nat
    decreases k
  {
    if k == 0 then h else ShiftLeft(2 * h, k - 1)
  }

  /** `acc >>> k`. */
  function ShiftRight(acc: nat, k: nat): nat {
    if k == 0 then acc else ShiftRight(acc / 2, k - 1)
  }

  /** `acc & ((1 << k) - 1)`. */
  function LowBits(acc: nat, k: nat): nat {
    if k == 0 then 0 else 2 * LowBits(acc / 2, k - 1) + acc % 2
  }

  lemma {:induction false} ShiftLeftSum(a: nat, b: nat, k: nat)
    ensures ShiftLeft(a + b, k) == ShiftLeft(a, k) + ShiftLeft(b, k)
    decreases k
  {
    if k == 0 {
    } else {
      ShiftLeftSum(2 * a, 2 * b, k - 1);
    }
  }

  lemma ShiftLeftTwice(a: nat, k: nat)
    ensures ShiftLeft(2 * a, k) == 2 * ShiftLeft(a, k)
  {
    ShiftLeftSum(a, a, k);
  }

  lemma ShiftLeftFive(h: nat, k: nat)
    ensures ShiftLeft(h, k + 5) == ShiftLeft(32 * h, k)
  {
    assert ShiftLeft(h, k + 5) == ShiftLeft(4 * h, k + 3);
    assert ShiftLeft(4 * h, k + 3) == ShiftLeft(16 * h, k + 1);
  }

  lemma ShiftLeftEight(h: nat, k: nat)
    ensures ShiftLeft(h, k + 8) == 256 * ShiftLeft(h, k)
  {
    ShiftLeftFive(h, k + 3);
    assert ShiftLeft(32 * h, k + 3) == ShiftLeft(128 * h, k + 1) == ShiftLeft(256 * h, k);
    ShiftLeftTwice(128 * h, k);
    ShiftLeftTwice(64 * h, k);
    ShiftLeftTwice(32 * h, k);
    ShiftLeftTwice(16 * h, k);
    ShiftLeftTwice(8 * h, k);
    ShiftLeftTwice(4 * h, k);
    ShiftLeftTwice(2 * h, k);
    ShiftLeftTwice(h, k);
  }

  lemma {:induction false} LowBitsBound(acc: nat, k: nat)
    ensures LowBits(acc, k) < ShiftLeft(1, k)
  {
    if k == 0 {
    } else {
      LowBitsBound(acc / 2, k - 1);
      ShiftLeftTwice(1, k - 1);
    }
  }

  /** A number that fits is its own low bits. */
  lemma {:induction false} LowBitsAll(x: nat, k: nat)
    requires x < ShiftLeft(1, k)
    ensures LowBits(x, k) == x
  {
    if k == 0 {
    } else {
      ShiftLeftTwice(1, k - 1);
      LowBitsAll(x / 2, k - 1);
    }
  }

  /** `(acc >>> k) & 31`. */
  function Digit(acc: nat, k: nat): (d: nat)
    ensures d < 32
  {
    LowBitsBound(ShiftRight(acc, k), 5);
    LowBits(ShiftRight(acc, k), 5)
  }

  /** The low k + 5 bits are a digit above the low k bits. */
  lemma {:induction false} LowBitsSplit(acc: nat, k: nat)
    ensures LowBits(acc, k + 5) == ShiftLeft(Digit(acc, k), k) + LowBits(acc, k)
  {
    if k == 0 {
    } else {
      LowBitsSplit(acc / 2, k - 1);
      ShiftLeftTwice(Digit(acc, k), k - 1);
    }
  }

  /** `out` is the lowest digits of `h`, as many as it has. */
  predicate Spells(out: seq<byte>, h: nat) {
    out == [] || (out[|out| - 1] == Symbol(h % 32) && Spells(out[..|out| - 1], h / 32))
  }

  lemma {:induction false} SpellsIs(out: seq<byte>, h: nat)
    requires Spells(out, h)
    ensures out == Base32(h, |out|)
  {
    if out == [] {
    } else {
      SpellsIs(out[..|out| - 1], h / 32);
    }
  }

  /** `h` has been written out; the low `bits` bits of the accumulator complete `total`. */
  ghost predicate Packed(h: nat, bits: nat, acc: nat, total: nat, out: seq<byte>) {
    total == ShiftLeft(h, bits) + LowBits(acc, bits) && Spells(out, h)
  }

  lemma Absorb(h: nat, bits: nat, acc: nat, b: byte, before: nat, out: seq<byte>)
    requires bits < 5 && LowBits(acc, bits) == acc && Packed(h, bits, acc, before, out)
    ensures Packed(h, bits + 8, acc * 256 + b, before * 256 + b, out)
    ensures acc * 256 + b < 4096
  {
    LowBitsBound(acc, bits);
    ShiftLeftEight(h, bits);
    ShiftLeftEight(1, bits);
    LowBitsAll(acc * 256 + b, bits + 8);
    SmallShift(bits);
  }

  lemma SmallShift(k: nat)
    requires k <= 4
    ensures ShiftLeft(1, k) <= 16
  {
    assert ShiftLeft(4, 1) == 8 && ShiftLeft(4, 2) == ShiftLeft(8, 1) == 16;
    assert ShiftLeft(1, 2) == 4 && ShiftLeft(1, 3) == ShiftLeft(4, 1) && ShiftLeft(1, 4) == ShiftLeft(4, 2);
  }

  lemma Emit(h: nat, bits: nat, acc: nat, total: nat, out: seq<byte>)
    requires Packed(h, bits + 5, acc, total, out)
    ensures var d := Digit(acc, bits);
            Packed(h * 32 + d, bits, acc, total, out + [Symbol(d)])
  {
    var d := Digit(acc, bits);
    LowBitsSplit(acc, bits);
    ShiftLeftFive(h, bits);
    ShiftLeftSum(32 * h, d, bits);
    assert (h * 32 + d) / 32 == h && (h * 32 + d) % 32 == d;
    assert (out + [Symbol(d)])[..|out|] == out;
  }

  /** The inner loop: digits are written while five bits are at hand. */
  method EmitDigits(ghost h: nat, acc: nat, bitsBefore: nat, ghost total: nat, before: seq<byte>)
    returns (ghost h': nat, bits: nat, out: seq<byte>)
    requires acc < 4096 && Packed(h, bitsBefore, acc, total, before)
    ensures bits < 5 && 5 * |out| + bits == 5 * |before| + bitsBefore
    ensures Packed(h', bits, acc, total, out)
  {
    h', bits, out := h, bitsBefore, before;
    while bits >= 5
      invariant 5 * |out| + bits == 5 * |before| + bitsBefore
      invariant Packed(h', bits, acc, total, out)
    {
      bits := bits - 5;
      Emit(h', bits, acc, total, out);
      var digit := Digit(acc, bits);
      SymbolIsAlphabet(digit);
      out := out + [ALPHABET[digit]];
      h' := h' * 32 + digit;
    }
  }

  /** Between bytes: fewer than five bits are held, and nothing above them. */
  ghost predicate Holding(h: nat, bits: nat, acc: nat, total: nat, out: seq<byte>) {
    bits < 5 && LowBits(acc, bits) == acc && Packed(h, bits, acc, total, out)
  }

  lemma Mask(h: nat, bits: nat, acc: nat, total: nat, out: seq<byte>)
    requires bits < 5 && Packed(h, bits, acc, total, out)
    ensures Holding(h, bits, LowBits(acc, bits), total, out)
  {
    LowBitsBound(acc, bits);
    LowBitsAll(LowBits(acc, bits), bits);
  }

  /** The outer loop's body: one byte in, its digits out, the emitted bits dropped. */
  method PackByte(ghost h: nat, accBefore: nat, bitsBefore: nat, b: byte, ghost total: nat, before: seq<byte>)
    returns (ghost h': nat, acc: nat, bits: nat, out: seq<byte>)
    requires Holding(h, bitsBefore, accBefore, total, before)
    ensures Holding(h', bits, acc, total * 256 + b, out)
    ensures 5 * |out| + bits == 5 * |before| + bitsBefore + 8
  {
    Absorb(h, bitsBefore, accBefore, b, total, before);
    acc := accBefore * 256 + b;
    h', bits, out := EmitDigits(h, acc, bitsBefore + 8, total * 256 + b, before);
    Mask(h', bits, acc, total * 256 + b, out);
    acc := LowBits(acc, bits);
  }

  /** Before the first byte nothing is held and nothing written. */
  method Start() returns (ghost h: nat, acc: nat, bits: nat, out: seq<byte>)
    ensures acc == 0 && bits == 0 && out == [] && Holding(h, bits, acc, 0, out)
  {
    h, acc, bits, out := 0, 0, 0, [];
  }

  /** With no bits held, everything has been written. */
  lemma AllWritten(h: nat, acc: nat, total: nat, out: seq<byte>)
    requires Holding(h, 0, acc, total, out)
    ensures out == Base32(total, |out|)
  {
    SpellsIs(out, h);
  }

  /**
   * `encodeRandom`: the digits of the bytes read as one big-endian number. The accumulator stays below
   * 2^12, far inside the 32 bits JavaScript's operators keep.
   */
  method EncodeRandom(bytes: seq<byte>) returns (out: seq<byte>)
    requires |bytes| == ULID_RANDOM_BYTES
    ensures out == Base32(BigEndian(bytes), 16)
  {
    ghost var h: nat;
    var acc: nat, bits: nat;
    h, acc, bits, out := Start();
    for i := 0 to |bytes|
      invariant 5 * |out| + bits == 8 * i
      invariant Holding(h, bits, acc, BigEndian(bytes[..i]), out)
    {
      assert bytes[..i + 1][..i] == bytes[..i];
      h, acc, bits, out := PackByte(h, acc, bits, bytes[i], BigEndian(bytes[..i]), out);
    }
    assert bytes[..|bytes|] == bytes;
    AllWritten(h, acc, BigEndian(bytes), out);
  }

  /**
   * JavaScript's operators are the arithmetic used, on words of the sizes that occur: a byte shifted in,
   * a right shift and a mask one bit at a time, as `ShiftRight` and `LowBits` go.
   */
  lemma PackingOperators(acc: bv16, b: bv16, k: bv16)
    ensures acc < 16 && b < 256 ==> ((acc << 8) | b) == acc * 256 + b
    ensures acc & 31 == acc % 32
    ensures k < 12 ==> acc >> (k + 1) == (acc / 2) >> k
    ensures k < 12 ==> acc & ((1 << (k + 1)) - 1) == 2 * ((acc / 2) & ((1 << k) - 1)) + acc % 2
    ensures acc >> 0 == acc && acc & ((1 << 0) - 1) == 0
  {
  }

  // ----- whole ids ----------------------------------------------------------------------------

  /** The number an id stands for. */
  function IdValue(ms: nat, random: seq<byte>): nat {
    ms * Pow32(16) + BigEndian(random)
  }

  /** The 26 characters of an id. */
  function IdText(id: nat): seq<byte> {
    Base32(id, 26)
  }

  /** The time takes the bits from the 80th on. */
  lemma IdIs(ms: nat, random: seq<byte>)
    ensures IdValue(ms, random) == ms * 0x1_0000_0000_0000_0000_0000 + BigEndian(random)
  {
    PowersOf32();
  }

  /** The first octet counts most: each of those after it is worth 256 times less. */
  lemma {:induction false} BigEndianLead(bytes: seq<byte>)
    requires bytes != []
    ensures BigEndian(bytes) == bytes[0] * ShiftLeft(1, 8 * (|bytes| - 1)) + BigEndian(bytes[1..])
  {
    if |bytes| == 1 {
      assert bytes[..0] == [] && bytes[1..] == [];
      assert BigEndian([]) == 0 && ShiftLeft(1, 0) == 1;
    } else {
      var n := |bytes| - 1;
      BigEndianLead(bytes[..n]);
      ShiftLeftEight(1, 8 * n - 8);
      assert bytes[..n][1..] == bytes[1..][..n - 1];
      var p := ShiftLeft(1, 8 * n - 8);
      assert bytes[0] * (256 * p) == 256 * (bytes[0] * p);
    }
  }

  lemma {:induction false} BigEndianBound(bytes: seq<byte>)
    ensures BigEndian(bytes) < ShiftLeft(1, 8 * |bytes|)
  {
    if bytes == [] {
    } else {
      BigEndianBound(bytes[..|bytes| - 1]);
      ShiftLeftEight(1, 8 * |bytes| - 8);
    }
  }

  /** Five bits are one digit. */
  lemma {:induction false} PowerOfShift(k: nat)
    ensures ShiftLeft(1, 5 * k) == Pow32(k)
  {
    if k == 0 {
    } else {
      PowerOfShift(k - 1);
      ShiftLeftFive(1, 5 * k - 5);
      ShiftLeftThirtyTwo(5 * k - 5);
    }
  }

  lemma ShiftLeftThirtyTwo(k: nat)
    ensures ShiftLeft(32, k) == 32 * ShiftLeft(1, k)
  {
    ShiftLeftTwice(16, k);
    ShiftLeftTwice(8, k);
    ShiftLeftTwice(4, k);
    ShiftLeftTwice(2, k);
    ShiftLeftTwice(1, k);
  }

  lemma RandomBound(random: seq<byte>)
    requires |random| == ULID_RANDOM_BYTES
    ensures BigEndian(random) < Pow32(16)
  {
    BigEndianBound(random);
    PowerOfShift(16);
  }

  lemma MulMonotone(a: nat, b: nat, p: nat)
    ensures a <= b ==> a * p <= b * p
  {
  }

  /** `ulid`; None is the RangeError. */
  method NewId(now: int, random: seq<byte>) returns (r: Option<seq<byte>>)
    requires |random| == ULID_RANDOM_BYTES
    ensures r.Some? <==> 0 <= now <= ULID_MAX_TIME
    ensures r.Some? ==> r.value == IdText(IdValue(now, random))
  {
    if now < 0 || now > ULID_MAX_TIME {
      return None;
    }
    var time := EncodeTime(now);
    var tail := EncodeRandom(random);
    RandomBound(random);
    Base32Join(now, BigEndian(random), 10, 16);
    r := Some(time + tail);
  }

  /** Ids sort as the numbers they stand for: the order `list` and the due batch rely on. */
  lemma IdOrder(a: nat, b: nat)
    requires a < Pow32(26) && b < Pow32(26)
    ensures Before(IdText(a), IdText(b)) <==> a < b
    ensures IdText(a) == IdText(b) <==> a == b
  {
    Base32Order(a, b, 26);
  }

  /** A later millisecond sorts later whatever the random parts are. */
  lemma LaterSortsLater(ms: nat, random: seq<byte>, ms': nat, random': seq<byte>)
    requires ms < ms' <= ULID_MAX_TIME
    requires |random| == ULID_RANDOM_BYTES && |random'| == ULID_RANDOM_BYTES
    ensures Before(IdText(IdValue(ms, random)), IdText(IdValue(ms', random')))
  {
    IdBound(ms, random);
    IdBound(ms', random');
    LaterIsGreater(ms, random, ms', random');
    IdOrder(IdValue(ms, random), IdValue(ms', random'));
  }

  lemma LaterIsGreater(ms: nat, random: seq<byte>, ms': nat, random': seq<byte>)
    requires ms < ms' && |random| == ULID_RANDOM_BYTES
    ensures IdValue(ms, random) < IdValue(ms', random')
  {
    RandomBound(random);
    MulMonotone(ms + 1, ms', Pow32(16));
    assert (ms + 1) * Pow32(16) == ms * Pow32(16) + Pow32(16);
  }

  lemma IdBound(ms: nat, random: seq<byte>)
    requires ms <= ULID_MAX_TIME && |random| == ULID_RANDOM_BYTES
    ensures IdValue(ms, random) < Pow32(26)
  {
    RandomBound(random);
    PowersOf32();
    Pow32Add(10, 16);
    MulMonotone(ms + 1, Pow32(10), Pow32(16));
  }

  lemma {:induction false} Pow32Add(j: nat, k: nat)
    ensures Pow32(j + k) == Pow32(j) * Pow32(k)
  {
    if k == 0 {
    } else {
      Pow32Add(j, k - 1);
    }
  }
}
