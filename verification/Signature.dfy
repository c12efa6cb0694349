/**
 * Request signing (worker/src/lib/sign.ts) and its check in Odoo (fetchmail_server.py), around an
 * HMAC-SHA256 that is only known to give 32 octets.
 */
module Signature {
  import opened Text
  import opened Wrappers
  import opened Decimal
  import OdooMessage
  import Ulid

  type Octets = seq<byte>
  type Hmac = (Octets, Octets) -> Octets

  ghost predicate GivesDigests(h: Hmac) {
    forall key, message :: |h(key, message)| == 32
  }

  const MINUS: byte := 0x2D
  const PLUS: byte := 0x2B
  const DOT: byte := 0x2E
  const UNDERSCORE: byte := 0x5F
  const EQUALS: byte := 0x3D
  const SIGNATURE_TOLERANCE := 300
  const SCHEME: Octets := [0x76, 0x31]

  // ----- the Worker -------------------------------------------------------------------------

  /** `String(timestamp)` of an integer. */
  function Written(timestamp: int): Octets {
    if timestamp < 0 then [MINUS] + Digits(-timestamp) else Digits(timestamp)
  }

  /** `unixSeconds`: the second that has begun last. */
  function UnixSeconds(nowMs: int): (s: int)
    ensures 1000 * s <= nowMs < 1000 * s + 1000
  {
    nowMs / 1000
  }

  /** The octets that are signed. */
  function Payload(timestamp: Octets, body: Octets): Octets {
    timestamp + [DOT] + body
  }

  /** `signBody`. */
  function SignBody(h: Hmac, secret: Octets, timestamp: int, body: Octets): Octets {
    SCHEME + [EQUALS] + Ulid.Hex(h(secret, Payload(Written(timestamp), body)))
  }

  // ----- Odoo -------------------------------------------------------------------------------

  /** Digits with single underscores between them. */
  predicate Grouped(s: Octets) {
    && s != [] && Digit(s[0]) && Digit(s[|s| - 1])
    && (forall i | 0 <= i < |s| :: Digit(s[i]) || s[i] == UNDERSCORE)
    && (forall i | 0 <= i < |s| - 1 :: s[i] == UNDERSCORE ==> s[i + 1] != UNDERSCORE)
  }

  function Ungrouped(s: Octets): (r: Octets)
    requires forall i | 0 <= i < |s| :: Digit(s[i]) || s[i] == UNDERSCORE
    ensures AllDigits(r)
  {
    if s == [] then []
    else if s[|s| - 1] == UNDERSCORE then Ungrouped(s[..|s| - 1])
    else Ungrouped(s[..|s| - 1]) + [s[|s| - 1]]
  }

  /** Python's `int(s)` of a stripped Latin-1 string; None is the ValueError. */
  function ParseInt(s: Octets): Option<int> {
    if s != [] && (s[0] == MINUS || s[0] == PLUS) then
      if Grouped(s[1..]) then
        Some(if s[0] == MINUS then 0 - Value(Ungrouped(s[1..])) else Value(Ungrouped(s[1..])))
      else None
    else if Grouped(s) then Some(Value(Ungrouped(s)))
    else None
  }

  function Strip(s: Octets): Octets {
    OctetsOf(OdooMessage.Strip(s), s)
  }

  /** Stripping Latin-1 leaves Latin-1. */
  function OctetsOf(s: seq<CodePoint>, within: Octets): Octets
    requires forall c | c in s :: c in within
  {
    if s == [] then []
    else
      assert s[0] in s && forall c | c in s[1..] :: c in s;
      [s[0]] + OctetsOf(s[1..], within)
  }

  function FirstEquals(s: Octets): (n: nat)
    ensures n <= |s| && EQUALS !in s[..n] && (n < |s| ==> s[n] == EQUALS)
  {
    if s == [] || s[0] == EQUALS then 0
    else
      var n := 1 + FirstEquals(s[1..]);
      assert s[..n] == [s[0]] + s[1..][..n - 1];
      n
  }

  predicate Within(now: int, issued: int) {
    -SIGNATURE_TOLERANCE <= now - issued <= SIGNATURE_TOLERANCE
  }

  /**
   * `_cloudflare_verify_signature`, from the two header values as received. `hexdigest()` is the one text
   * of lower-case hexadecimal digits that denotes the digest (`Ulid.DenotesOne`).
   */
  predicate Verifies(h: Hmac, secret: Octets, timestamp: Option<Octets>, signature: Option<Octets>,
                     body: Octets, now: int)
  {
    && secret != []
    && timestamp.Some? && timestamp.value != []
    && signature.Some? && signature.value != []
    && var ts := Strip(timestamp.value);
       var sig := Strip(signature.value);
       var n := FirstEquals(sig);
       && ParseInt(ts).Some? && Within(now, ParseInt(ts).value)
       && sig[..n] == SCHEME && n + 1 < |sig|
       && Ulid.Denotes(OdooMessage.Lower(sig[n + 1..]), h(secret, Payload(ts, body)))
  }

  // ----- agreement --------------------------------------------------------------------------

  lemma {:induction false} UngroupedDigits(s: Octets)
    requires AllDigits(s)
    ensures Ungrouped(s) == s
  {
    if s == [] {
    } else {
      UngroupedDigits(s[..|s| - 1]);
      assert s == s[..|s| - 1] + [s[|s| - 1]];
    }
  }

  lemma DigitsRead(n: nat)
    ensures Grouped(Digits(n)) && Value(Ungrouped(Digits(n))) == n
  {
    ValueOfDigits(n);
    UngroupedDigits(Digits(n));
  }

  lemma {:induction false} Unsigned(s: Octets)
    requires Grouped(s)
    ensures ParseInt(s) == Some(Value(Ungrouped(s)))
    ensures ParseInt([MINUS] + s) == Some(0 - Value(Ungrouped(s)))
  {
    assert ([MINUS] + s)[1..] == s;
  }

  /** Odoo reads back the number the Worker wrote. */
  lemma {:induction false} WrittenIsRead(timestamp: int)
    ensures ParseInt(Written(timestamp)) == Some(timestamp)
  {
    var n := if timestamp < 0 then -timestamp else timestamp;
    DigitsRead(n);
    Unsigned(Digits(n));
  }

  lemma {:induction false} StripKeeps(s: Octets)
    requires s != [] && !OdooMessage.Space(s[0]) && !OdooMessage.Space(s[|s| - 1])
    ensures Strip(s) == s
  {
    assert OdooMessage.Strip(s) == s;
    OctetsSame(s, s);
  }

  lemma {:induction false} OctetsSame(s: Octets, within: Octets)
    requires forall c | c in s :: c in within
    ensures OctetsOf(s, within) == s
  {
    if s == [] {
    } else {
      assert s[0] in s && forall c | c in s[1..] :: c in s;
      OctetsSame(s[1..], within);
    }
  }

  lemma LowerHex(d: Octets)
    ensures OdooMessage.Lower(Ulid.Hex(d)) == Ulid.Hex(d)
  {
    var x := Ulid.Hex(d);
    forall i | 0 <= i < |x|
      ensures OdooMessage.Lower(x)[i] == x[i]
    {
      assert x[i] in x;
    }
  }

  lemma SignatureShape(h: Hmac, secret: Octets, timestamp: int, body: Octets)
    requires GivesDigests(h)
    ensures
      var sig, d := SignBody(h, secret, timestamp, body), Ulid.Hex(h(secret, Payload(Written(timestamp), body)));
      Strip(sig) == sig && FirstEquals(sig) == 2 && sig[..2] == SCHEME && sig[3..] == d && |d| == 64
  {
    var d := Ulid.Hex(h(secret, Payload(Written(timestamp), body)));
    var sig := SignBody(h, secret, timestamp, body);
    assert |d| == 64;
    assert sig[|sig| - 1] == d[63] && d[63] in d;
    HexNotSpace(h(secret, Payload(Written(timestamp), body)));
    StripKeeps(sig);
    assert sig[0] == 0x76 && sig[1..][0] == 0x31 && sig[1..][1..][0] == EQUALS;
    assert FirstEquals(sig) == 1 + FirstEquals(sig[1..]) == 2 + FirstEquals(sig[1..][1..]) == 2;
  }

  lemma {:induction false} HexNotSpace(d: Octets)
    ensures forall c | c in Ulid.Hex(d) :: !OdooMessage.Space(c)
  {
    if d == [] {
    } else {
      HexNotSpace(d[..|d| - 1]);
    }
  }

  lemma WrittenShape(timestamp: int)
    ensures Written(timestamp) != [] && Strip(Written(timestamp)) == Written(timestamp)
    ensures DOT !in Written(timestamp)
  {
    var n := if timestamp < 0 then -timestamp else timestamp;
    var d, t := Digits(n), Written(timestamp);
    assert Digit(d[0]) && Digit(d[|d| - 1]);
    assert t[|t| - 1] == d[|d| - 1];
    StripKeeps(t);
  }

  /**
   * The two sides agree: what the Worker signs verifies in Odoo with the same secret exactly while the
   * clocks are within the tolerance.
   */
  lemma SignedVerifies(h: Hmac, secret: Octets, timestamp: int, body: Octets, now: int)
    requires GivesDigests(h) && secret != []
    ensures Verifies(h, secret, Some(Written(timestamp)), Some(SignBody(h, secret, timestamp, body)), body, now)
            <==> Within(now, timestamp)
  {
    WrittenShape(timestamp);
    WrittenIsRead(timestamp);
    SignatureShape(h, secret, timestamp, body);
    LowerHex(h(secret, Payload(Written(timestamp), body)));
    Ulid.HexDenotes(h(secret, Payload(Written(timestamp), body)));
  }

  // ----- the texts themselves ---------------------------------------------------------------

  /** A signature is `v1=` and the HMAC, in hexadecimal, of the timestamp, a dot, and the body. */
  lemma SignatureIs(h: Hmac, secret: Octets, timestamp: int, body: Octets)
    requires GivesDigests(h)
    ensures var sig := SignBody(h, secret, timestamp, body);
            && |sig| == 67 && sig[..3] == Ascii("v1=")
            && Ulid.Denotes(sig[3..], h(secret, Written(timestamp) + Ascii(".") + body))
  {
    var digest := h(secret, Payload(Written(timestamp), body));
    Ulid.HexDenotes(digest);
    assert Ascii(".") == [DOT] && Ascii("v1=") == SCHEME + [EQUALS];
    assert SignBody(h, secret, timestamp, body)[3..] == Ulid.Hex(digest);
  }

  /** A timestamp is written in decimal, after a minus sign when it is negative, without leading zeros. */
  lemma WrittenIs(timestamp: int)
    ensures var digits := if timestamp < 0 then Written(timestamp)[1..] else Written(timestamp);
            && (timestamp < 0 ==> Written(timestamp)[0] == '-' as int)
            && digits != [] && (forall i | 0 <= i < |digits| :: '0' as int <= digits[i] <= '9' as int)
            && ReadOn(0, digits) == (if timestamp < 0 then -timestamp else timestamp)
            && (digits[0] == '0' as int ==> timestamp == 0)
  {
    var n := if timestamp < 0 then -timestamp else timestamp;
    ValueOfDigits(n);
    ValueIsRead(Digits(n));
    NoLeadingZero(n);
  }

  lemma {:induction false} FirstEqualsIs(s: Octets, n: nat)
    requires n < |s| && s[n] == EQUALS && forall i | 0 <= i < n :: s[i] != EQUALS
    ensures FirstEquals(s) == n
  {
    if n > 0 {
      FirstEqualsIs(s[1..], n - 1);
    }
  }

  lemma StartsWithScheme(sig: Octets)
    ensures |sig| >= 3 && sig[..3] == Ascii("v1=") <==>
            |sig| >= 3 && sig[0] == 0x76 && sig[1] == 0x31 && sig[2] == 0x3D
  {
    if |sig| >= 3 {
      var text := Ascii("v1=");
      assert sig[0] == sig[..3][0] && sig[1] == sig[..3][1] && sig[2] == sig[..3][2];
      assert text == [0x76, 0x31, 0x3D];
    }
  }

  lemma SchemeSplits(sig: Octets, n: nat)
    requires n == FirstEquals(sig)
    ensures n < |sig| && sig[..n] == SCHEME <==> |sig| >= 3 && sig[0] == 0x76 && sig[1] == 0x31 && sig[2] == 0x3D
    ensures n < |sig| && sig[..n] == SCHEME ==> n == 2
  {
    if |sig| >= 3 && sig[0] == 0x76 && sig[1] == 0x31 && sig[2] == 0x3D {
      FirstEqualsIs(sig, 2);
    }
    if n < |sig| && sig[..n] == SCHEME {
      assert sig[0] == sig[..n][0] && sig[1] == sig[..n][1];
    }
  }

  /**
   * What Odoo accepts: a secret, a timestamp that reads as an integer no more than 300 seconds from now, and
   * a signature that is `v1=` and hexadecimal digits, of either case, of the HMAC of the timestamp as it was
   * received, a dot, and the body. Blanks around the two values do not count.
   */
  lemma VerifiesIff(h: Hmac, secret: Octets, timestamp: Octets, signature: Octets, body: Octets, now: int)
    requires GivesDigests(h)
    ensures Verifies(h, secret, Some(timestamp), Some(signature), body, now) <==>
            var ts, sig := Strip(timestamp), Strip(signature);
            && secret != [] && timestamp != [] && signature != []
            && ParseInt(ts).Some? && now - 300 <= ParseInt(ts).value <= now + 300
            && |sig| >= 3 && sig[..3] == Ascii("v1=")
            && Ulid.Denotes(OdooMessage.Lower(sig[3..]), h(secret, ts + Ascii(".") + body))
  {
    var ts, sig := Strip(timestamp), Strip(signature);
    StartsWithScheme(sig);
    SchemeSplits(sig, FirstEquals(sig));
    assert Ascii(".") == [DOT];
    assert |h(secret, ts + [DOT] + body)| == 32;
  }

  /** Digits, with an underscore here and there between two of them. */
  ghost predicate Numeral(t: Octets) {
    && t != [] && t[0] != '_' as int && t[|t| - 1] != '_' as int
    && (forall i | 0 <= i < |t| :: '0' as int <= t[i] <= '9' as int || t[i] == '_' as int)
    && forall i | 0 <= i < |t| - 1 :: t[i] != '_' as int || t[i + 1] != '_' as int
  }

  /** The text after its sign, if it has one. */
  ghost function AfterSign(s: Octets): Octets {
    if s != [] && (s[0] == '-' as int || s[0] == '+' as int) then s[1..] else s
  }

  /** `int()` takes a numeral with or without a sign, leading zeros and underscores included, and nothing else. */
  lemma ParsesIff(s: Octets)
    ensures ParseInt(s).Some? <==> Numeral(AfterSign(s))
    ensures ParseInt(s).Some? && (forall i | 0 <= i < |AfterSign(s)| :: AfterSign(s)[i] != '_' as int) ==>
              var n: int := ReadOn(0, AfterSign(s)); ParseInt(s).value == if s[0] == '-' as int then -n else n
  {
    var t := AfterSign(s);
    assert Numeral(t) <==> Grouped(t);
    if Grouped(t) && forall i | 0 <= i < |t| :: t[i] != '_' as int {
      UngroupedDigits(t);
      ValueIsRead(t);
    }
  }

  /** An underscore does not change what the digits around it come to. */
  lemma {:induction false} UnderscoreIsNothing(a: Octets, b: Octets)
    requires forall i | 0 <= i < |a| :: '0' as int <= a[i] <= '9' as int || a[i] == '_' as int
    requires forall i | 0 <= i < |b| :: '0' as int <= b[i] <= '9' as int || b[i] == '_' as int
    ensures Ungrouped(a + [UNDERSCORE] + b) == Ungrouped(a + b)
  {
    var s, u := a + b, a + [UNDERSCORE] + b;
    if b == [] {
      assert s == a && u[..|u| - 1] == a;
    } else {
      assert s[..|s| - 1] == a + b[..|b| - 1] && u[..|u| - 1] == a + [UNDERSCORE] + b[..|b| - 1];
      UnderscoreIsNothing(a, b[..|b| - 1]);
    }
  }

  lemma ParsedHasNoDot(s: Octets)
    requires ParseInt(s).Some?
    ensures DOT !in s
  {
    ParsesIff(s);
    var t := AfterSign(s);
    assert forall i | 0 <= i < |t| :: t[i] != DOT;
    assert t != s ==> s == [s[0]] + t;
  }

  /** Where the first dot is. */
  function Dot(s: Octets): (n: nat)
    ensures n <= |s|
  {
    if s == [] || s[0] == DOT then 0 else 1 + Dot(s[1..])
  }

  lemma {:induction false} FirstDot(s: Octets, body: Octets)
    requires DOT !in s
    ensures Dot(Payload(s, body)) == |s|
  {
    if s == [] {
    } else {
      assert s[0] in s;
      assert Payload(s, body)[1..] == Payload(s[1..], body);
      FirstDot(s[1..], body);
    }
  }

  /** Over everything `int()` accepts, the signed octets determine the timestamp text and the body. */
  lemma {:induction false} PayloadInjective(s: Octets, a: Octets, t: Octets, b: Octets)
    requires DOT !in s && DOT !in t
    requires Payload(s, a) == Payload(t, b)
    ensures s == t && a == b
  {
    FirstDot(s, a);
    FirstDot(t, b);
    var p := Payload(s, a);
    assert |s| == |t|;
    assert p[..|s|] == s && p[..|t|] == t && p[|s| + 1..] == a && p[|t| + 1..] == b;
  }

  /** Two different payloads with one digest. */
  predicate Collides(h: Hmac, secret: Octets, m: Octets, n: Octets) {
    m != n && h(secret, m) == h(secret, n)
  }

  /**
   * A signature vouches for one timestamp and one body: a request Odoo accepts with a signature the
   * Worker made carries that very timestamp and body, in time, or else its payload and the Worker's
   * are a collision of the HMAC.
   */
  lemma OnlyTheSignedRequest(h: Hmac, secret: Octets, timestamp: int, body: Octets,
                             timestamp': Octets, body': Octets, now: int)
    requires GivesDigests(h)
    requires Verifies(h, secret, Some(timestamp'), Some(SignBody(h, secret, timestamp, body)), body', now)
    ensures
      || (Strip(timestamp') == Written(timestamp) && body' == body && Within(now, timestamp))
      || Collides(h, secret, Payload(Strip(timestamp'), body'), Payload(Written(timestamp), body))
  {
    var ts := Strip(timestamp');
    SignatureShape(h, secret, timestamp, body);
    LowerHex(h(secret, Payload(Written(timestamp), body)));
    var digest := h(secret, Payload(Written(timestamp), body));
    Ulid.HexDenotes(digest);
    Ulid.DenotesInjective(Ulid.Hex(digest), h(secret, Payload(ts, body')), digest);
    if Payload(ts, body') == Payload(Written(timestamp), body) {
      ParsedHasNoDot(ts);
      WrittenShape(timestamp);
      PayloadInjective(ts, body', Written(timestamp), body);
      WrittenIsRead(timestamp);
    }
  }

  /**
   * Both sides read their clocks in whole seconds. A request signed at `signedMs` and checked `lagMs`
   * later verifies if the lag is at most 300 seconds either way, and not if it is 301 or more.
   */
  lemma FreshSignatureVerifies(h: Hmac, secret: Octets, body: Octets, signedMs: int, lagMs: int)
    requires GivesDigests(h) && secret != []
    ensures
      var ts, now := UnixSeconds(signedMs), UnixSeconds(signedMs + lagMs);
      var verifies := Verifies(h, secret, Some(Written(ts)), Some(SignBody(h, secret, ts, body)), body, now);
      && (-300_000 <= lagMs <= 300_000 ==> verifies)
      && (lagMs <= -301_000 || lagMs >= 301_000 ==> !verifies)
  {
    SignedVerifies(h, secret, UnixSeconds(signedMs), body, UnixSeconds(signedMs + lagMs));
  }
}
