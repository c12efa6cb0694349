/** Odoo's preparation of a pushed message (mail_cloudflare/models/fetchmail_server.py). */
module OdooMessage {
  import opened Text
  import opened Wrappers
  import opened Percent
  import opened Rfc822

  type Octets = seq<byte>

  // ----- the header block -------------------------------------------------------------------

  predicate BreakAt(b: Octets, i: nat) {
    i < |b| && (b[i] == LF || (b[i] == CR && i + 1 < |b| && b[i + 1] == LF))
  }

  /** `\r?\n\r?\n` matches at `i`. */
  predicate BlankLineAt(b: Octets, i: nat) {
    BreakAt(b, i) && BreakAt(b, if b[i] == LF then i + 1 else i + 2)
  }

  function HeadFrom(b: Octets, i: nat): (r: nat)
    requires i <= |b|
    ensures i <= r <= |b|
    ensures forall j | i <= j < r :: !BlankLineAt(b, j)
    ensures r < |b| ==> BlankLineAt(b, r)
    decreases |b| - i
  {
    if i == |b| || BlankLineAt(b, i) then i else HeadFrom(b, i + 1)
  }

  /** Everything before the first blank line. */
  function Head(b: Octets): Octets {
    b[..HeadFrom(b, 0)]
  }

  predicate NameOctet(c: int) {
    0x21 <= c <= 0x7E && c != 0x3A
  }

  function NameRun(h: Octets, p: nat): (r: nat)
    requires p <= |h|
    ensures p + r <= |h|
    ensures forall i | p <= i < p + r :: NameOctet(h[i])
    ensures p + r < |h| ==> !NameOctet(h[p + r])
    decreases |h| - p
  {
    if p == |h| || !NameOctet(h[p]) then 0 else 1 + NameRun(h, p + 1)
  }

  /** A header field name starts at `p`: at the start of a line, non-empty, closed by a colon. */
  predicate NameAt(h: Octets, p: nat) {
    && p < |h|
    && (p == 0 || h[p - 1] == LF)
    && NameRun(h, p) > 0
    && p + NameRun(h, p) < |h|
    && h[p + NameRun(h, p)] == 0x3A
  }

  function Lower(s: Octets): (r: Octets)
    ensures |r| == |s|
    ensures forall i | 0 <= i < |s| :: r[i] == if 'A' as int <= s[i] <= 'Z' as int then s[i] + 32 else s[i]
  {
    seq<byte>(|s|, i requires 0 <= i < |s| => if 0x41 <= s[i] <= 0x5A then s[i] + 0x20 else s[i])
  }

  /** `_existing_header_names`. */
  function ExistingNames(body: Octets): set<Octets> {
    var h := Head(body);
    set p | 0 <= p < |h| && NameAt(h, p) :: Lower(h[p..p + NameRun(h, p)])
  }

  // ----- the envelope -----------------------------------------------------------------------

  /** `str.isspace` for one code point. */
  predicate Space(c: int) {
    || 0x09 <= c <= 0x0D || 0x1C <= c <= 0x20 || c == 0x85 || c == 0xA0 || c == 0x1680
    || 0x2000 <= c <= 0x200A || c == 0x2028 || c == 0x2029 || c == 0x202F || c == 0x205F || c == 0x3000
  }

  function StripLeft(s: seq<CodePoint>): (r: seq<CodePoint>)
    ensures forall c | c in r :: c in s
  {
    if s != [] && Space(s[0]) then StripLeft(s[1..]) else s
  }

  function StripRight(s: seq<CodePoint>): (r: seq<CodePoint>)
    ensures forall c | c in r :: c in s
  {
    if s != [] && Space(s[|s| - 1]) then StripRight(s[..|s| - 1]) else s
  }

  /** `str.strip()`. */
  function Strip(s: seq<CodePoint>): (r: seq<CodePoint>)
    ensures forall c | c in r :: c in s
  {
    StripRight(StripLeft(s))
  }

  /** `s` is `r` between blanks, and `r` neither begins nor ends with one. */
  ghost predicate Stripped(s: seq<CodePoint>, r: seq<CodePoint>) {
    && (r != [] ==> !Space(r[0]) && !Space(r[|r| - 1]))
    && exists a, b :: s == a + r + b && forall c | c in a + b :: Space(c)
  }

  lemma {:induction false} StripLeftIs(s: seq<CodePoint>) returns (a: seq<CodePoint>)
    ensures s == a + StripLeft(s) && forall c | c in a :: Space(c)
    ensures StripLeft(s) != [] ==> !Space(StripLeft(s)[0])
  {
    if s != [] && Space(s[0]) {
      var rest := StripLeftIs(s[1..]);
      a := [s[0]] + rest;
    } else {
      a := [];
    }
  }

  lemma {:induction false} StripRightIs(s: seq<CodePoint>) returns (b: seq<CodePoint>)
    ensures s == StripRight(s) + b && forall c | c in b :: Space(c)
    ensures StripRight(s) != [] ==> !Space(StripRight(s)[|StripRight(s)| - 1])
  {
    var n := |s| - 1;
    if s != [] && Space(s[n]) {
      var rest := StripRightIs(s[..n]);
      b := rest + [s[n]];
    } else {
      b := [];
    }
  }

  /** Stripping takes the blanks off both ends and nothing else. */
  lemma StripIs(s: seq<CodePoint>)
    ensures Stripped(s, Strip(s))
  {
    var left := StripLeft(s);
    var a := StripLeftIs(s);
    var b := StripRightIs(left);
    assert s == a + Strip(s) + b;
    assert Strip(s) != [] ==> Strip(s)[0] == left[0];
  }

  /** The blanks of Python's `str.strip`: ASCII's, four separators, and Unicode's. */
  lemma SpaceIs(c: CodePoint)
    ensures Space(c) <==>
            c in {0x20, 0x09, 0x0A, 0x0B, 0x0C, 0x0D, 0x1C, 0x1D, 0x1E, 0x1F, 0x85, 0xA0, 0x1680,
                  0x2000, 0x2001, 0x2002, 0x2003, 0x2004, 0x2005, 0x2006, 0x2007, 0x2008, 0x2009, 0x200A,
                  0x2028, 0x2029, 0x202F, 0x205F, 0x3000}
  {
  }

  /** Only control characters make an envelope value refused. */
  datatype Refusal = ControlCharacters

  /** `_cloudflare_check_envelope`: a header value is octets, read as Latin-1. */
  function CheckEnvelope(value: Option<Octets>): Result<Option<seq<CodePoint>>, Refusal> {
    match value
    case None => Ok(None)
    case Some(v) =>
      if exists c | c in Unquote(v) :: Control(c) then Err(ControlCharacters)
      else Ok(Some(Strip(Unquote(v))))
  }

  lemma {:induction false} RunsNoSurrogate(s: seq<CodePoint>)
    requires forall c | c in s :: !Surrogate(c)
    ensures forall c | c in UnquoteRuns(s) :: !Surrogate(c)
    decreases |s|
  {
    if s == [] {
    } else if s[0] >= 0x80 {
      assert forall c | c in s[1..] :: c in s;
      assert s[0] in s;
      RunsNoSurrogate(s[1..]);
    } else {
      var n := AsciiRun(s);
      assert forall c | c in s[n..] :: c in s;
      RunsNoSurrogate(s[n..]);
    }
  }

  /** A value that passes the check can be written as one header line. */
  lemma CheckedValue(value: Option<Octets>)
    requires CheckEnvelope(value).Ok? && CheckEnvelope(value).value.Some?
    ensures forall c | c in CheckEnvelope(value).value.value :: !Surrogate(c) && !Control(c)
  {
    RunsNoSurrogate(value.value);
  }

  function PointsOf(v: Option<Octets>): (r: seq<CodePoint>)
    requires CheckEnvelope(v).Ok? && CheckEnvelope(v).value.Some?
    ensures forall c | c in r :: !Surrogate(c) && !Control(c)
  {
    CheckedValue(v);
    CheckEnvelope(v).value.value
  }

  const DELIVERED_KEY: Octets := Ascii("delivered-to")
  const RETURN_KEY: Octets := Ascii("return-path")

  function DeliveredLine(to: seq<CodePoint>): Octets
    requires forall c | c in to :: !Surrogate(c)
  {
    DELIVERED_TO + [0x3A, 0x20] + EncodePoints(to)
  }

  function ReturnLine(from: seq<CodePoint>): Octets
    requires forall c | c in from :: !Surrogate(c)
  {
    RETURN_PATH + [0x3A, 0x20, 0x3C] + EncodePoints(from) + [0x3E]
  }

  predicate AddsDelivered(body: Octets, envTo: Option<Octets>)
    requires CheckEnvelope(envTo).Ok?
  {
    && CheckEnvelope(envTo).value.Some? && CheckEnvelope(envTo).value.value != []
    && DELIVERED_KEY !in ExistingNames(body)
  }

  predicate AddsReturn(body: Octets, envFrom: Option<Octets>)
    requires CheckEnvelope(envFrom).Ok?
  {
    CheckEnvelope(envFrom).value.Some? && RETURN_KEY !in ExistingNames(body)
  }

  /** The body with the Return-Path line in front, when it is missing. */
  function WithReturn(body: Octets, envFrom: Option<Octets>): Octets
    requires CheckEnvelope(envFrom).Ok?
  {
    if AddsReturn(body, envFrom) then ReturnLine(PointsOf(envFrom)) + [CR, LF] + body else body
  }

  /** `_cloudflare_prepare_message`. */
  function Prepare(body: Octets, envFrom: Option<Octets>, envTo: Option<Octets>): Result<Octets, Refusal> {
    if CheckEnvelope(envFrom).Err? || CheckEnvelope(envTo).Err? then Err(ControlCharacters)
    else if AddsDelivered(body, envTo) then
      Ok(DeliveredLine(PointsOf(envTo)) + [CR, LF] + WithReturn(body, envFrom))
    else Ok(WithReturn(body, envFrom))
  }

  /** There is a value, and a control character in what it unquotes to. */
  ghost predicate BadValue(value: Option<Octets>) {
    value.Some? && exists c :: c in Unquote(value.value) && (c < 0x20 || c == 0x7F)
  }

  /**
   * An envelope value is refused exactly for a control character in what it unquotes to, and is otherwise
   * that text without the blanks around it; a value that is not there stays away.
   */
  lemma CheckIff(value: Option<Octets>)
    ensures CheckEnvelope(value).Err? <==> BadValue(value)
    ensures CheckEnvelope(value).Ok? ==>
              && (value == None ==> CheckEnvelope(value).value == None)
              && (value.Some? ==>
                    && CheckEnvelope(value).value.Some?
                    && Stripped(Unquote(value.value), CheckEnvelope(value).value.value))
  {
    if value.Some? {
      StripIs(Unquote(value.value));
    }
  }

  /** The text of an envelope value, where there is one. */
  ghost function TextOf(v: Option<Octets>): (r: seq<CodePoint>)
    requires CheckEnvelope(v).Ok?
    ensures forall c | c in r :: !Surrogate(c)
  {
    if v.Some? then PointsOf(v) else []
  }

  /** A line in front of the message, or not. */
  ghost function Front(adds: bool, line: Octets, message: Octets): Octets {
    if adds then line + message else message
  }

  lemma ReturnLineIs(from: seq<CodePoint>)
    requires forall c | c in from :: !Surrogate(c)
    ensures ReturnLine(from) + [CR, LF] == ReturnText(EncodePoints(from))
  {
    var name, text := RETURN_PATH + [0x3A, 0x20], EncodePoints(from);
    ReturnIs(text);
    assert RETURN_PATH + [0x3A, 0x20, 0x3C] == name + [0x3C];
    assert name + [0x3C] + text + [0x3E] == name + ([0x3C] + text + [0x3E]);
  }

  /** The Return-Path line goes in exactly where there is a sender and no header of that name. */
  lemma WithReturnIs(body: Octets, envFrom: Option<Octets>)
    requires CheckEnvelope(envFrom).Ok?
    ensures WithReturn(body, envFrom) ==
            Front(envFrom.Some? && Ascii("return-path") !in ExistingNames(body),
                  ReturnText(EncodePoints(TextOf(envFrom))), body)
  {
    assert RETURN_KEY == Ascii("return-path");
    if AddsReturn(body, envFrom) {
      ReturnLineIs(PointsOf(envFrom));
    }
  }

  /**
   * What preparing a message comes to, in octets: a Delivered-To line for a recipient that is not empty, a
   * Return-Path line for a sender that may be, each only where the message has no header of that name, and
   * then the message as it was.
   */
  lemma PreparedText(body: Octets, envFrom: Option<Octets>, envTo: Option<Octets>)
    requires CheckEnvelope(envFrom).Ok? && CheckEnvelope(envTo).Ok?
    ensures var from, to := TextOf(envFrom), TextOf(envTo);
            Prepare(body, envFrom, envTo) ==
            Ok(Front(to != [] && Ascii("delivered-to") !in ExistingNames(body), DeliveredText(EncodePoints(to)),
                     Front(envFrom.Some? && Ascii("return-path") !in ExistingNames(body),
                           ReturnText(EncodePoints(from)), body)))
  {
    assert DELIVERED_KEY == Ascii("delivered-to");
    WithReturnIs(body, envFrom);
    if AddsDelivered(body, envTo) {
      DeliveredIs(EncodePoints(PointsOf(envTo)));
    }
  }

  /** A message is refused exactly for its envelope. */
  lemma RefusedIff(body: Octets, envFrom: Option<Octets>, envTo: Option<Octets>)
    ensures Prepare(body, envFrom, envTo).Err? <==> BadValue(envFrom) || BadValue(envTo)
  {
    CheckIff(envFrom);
    CheckIff(envTo);
  }

  /** The source's own shape: a list of lines, joined and put in front of the body. */
  method PrepareMessage(body: Octets, envFrom: Option<Octets>, envTo: Option<Octets>)
      returns (r: Result<Octets, Refusal>)
    ensures r == Prepare(body, envFrom, envTo)
  {
    var from := CheckEnvelope(envFrom);
    if from.Err? {
      return Err(ControlCharacters);
    }
    var to := CheckEnvelope(envTo);
    if to.Err? {
      return Err(ControlCharacters);
    }
    var present := ExistingNames(body);
    var lines: seq<Octets> := [];
    if to.value.Some? && to.value.value != [] && DELIVERED_KEY !in present {
      lines := lines + [DeliveredLine(PointsOf(envTo))];
    }
    if from.value.Some? && RETURN_KEY !in present {
      lines := lines + [ReturnLine(PointsOf(envFrom))];
    }
    if lines == [] {
      return Ok(body);
    }
    var block: Octets := [];
    for i := 0 to |lines|
      invariant i == 0 ==> block == []
      invariant i == 1 ==> block == lines[0] + [CR, LF]
      invariant i == 2 ==> block == lines[0] + [CR, LF] + (lines[1] + [CR, LF])
    {
      block := block + (lines[i] + [CR, LF]);
    }
    r := Ok(block + body);
    assert |lines| == 1 ==> block + body == lines[0] + [CR, LF] + body;
    assert |lines| == 2 ==> block + body == lines[0] + [CR, LF] + (lines[1] + [CR, LF] + body);
  }

  // ----- one line in front of a body --------------------------------------------------------

  predicate StartsWithBreak(b: Octets) {
    BreakAt(b, 0)
  }

  /** A header line: a name, a colon, and anything without a line break. */
  predicate HeaderLine(line: Octets, name: Octets) {
    && 0 < |name| < |line| && line[..|name|] == name && line[|name|] == 0x3A
    && (forall i | 0 <= i < |name| :: NameOctet(name[i]))
    && (forall i | 0 <= i < |line| :: line[i] != CR && line[i] != LF)
  }

  /** `w` is `line`, a CRLF, then `b`; said by index, which is how the proofs below use it. */
  predicate Added(w: Octets, line: Octets, b: Octets) {
    && |w| == |line| + 2 + |b|
    && (forall i | 0 <= i < |line| :: w[i] == line[i])
    && w[|line|] == CR && w[|line| + 1] == LF
    && (forall i | 0 <= i < |b| :: b[i] == w[|line| + 2 + i])
  }

  lemma BreakShift(w: Octets, line: Octets, b: Octets, i: nat)
    requires Added(w, line, b)
    ensures BreakAt(w, |line| + 2 + i) <==> BreakAt(b, i)
  {
    assert i < |b| ==> b[i] == w[|line| + 2 + i];
    assert i + 1 < |b| ==> b[i + 1] == w[|line| + 2 + (i + 1)];
  }

  lemma BlankShift(w: Octets, line: Octets, b: Octets, i: nat)
    requires Added(w, line, b)
    ensures BlankLineAt(w, |line| + 2 + i) <==> BlankLineAt(b, i)
  {
    BreakShift(w, line, b, i);
    BreakShift(w, line, b, i + 1);
    BreakShift(w, line, b, i + 2);
    assert i < |b| ==> b[i] == w[|line| + 2 + i];
  }

  lemma HeadOfAdded(w: Octets, line: Octets, name: Octets, b: Octets)
    requires HeaderLine(line, name) && Added(w, line, b)
    ensures HeadFrom(w, 0) == if StartsWithBreak(b) then |line| else |line| + 2 + HeadFrom(b, 0)
  {
    var k := |line| + 2;
    var n, m := HeadFrom(w, 0), HeadFrom(b, 0);
    forall i | 0 <= i < |line|
      ensures !BlankLineAt(w, i)
    {
      assert w[i] == line[i];
    }
    BreakShift(w, line, b, 0);
    assert BlankLineAt(w, |line|) <==> BreakAt(w, k);
    assert BlankLineAt(w, |line| + 1) <==> BreakAt(w, k);
    if !StartsWithBreak(b) {
      assert n >= k;
      BlankShift(w, line, b, n - k);
      BlankShift(w, line, b, m);
    }
  }

  lemma NameRunShift(w: Octets, k: nat, h: Octets, p: nat)
    requires |w| == k + |h| && forall i | 0 <= i < |h| :: h[i] == w[k + i]
    requires p <= |h|
    ensures NameRun(w, k + p) == NameRun(h, p)
    decreases |h| - p
  {
    if p < |h| {
      assert h[p] == w[k + p];
      NameRunShift(w, k, h, p + 1);
    }
  }

  lemma FirstName(w: Octets, line: Octets, name: Octets)
    requires HeaderLine(line, name)
    requires |w| >= |line| && forall i | 0 <= i < |line| :: w[i] == line[i]
    ensures NameAt(w, 0) && NameRun(w, 0) == |name| && w[0..|name|] == name
  {
    assert forall i | 0 <= i < |name| :: name[i] == line[i];
    assert w[|name|] == 0x3A;
    assert forall i | 0 <= i < |name| :: NameOctet(w[i]);
  }

  /** Where the names of the new head stand: at 0, or at a place of the old head moved by the line. */
  lemma NamePlaces(w: Octets, line: Octets, name: Octets, h: Octets, p: nat)
    requires HeaderLine(line, name) && Added(w, line, h)
    ensures p < |line| + 2 && NameAt(w, p) ==> p == 0
    ensures p <= |h| ==> (NameAt(w, |line| + 2 + p) <==> NameAt(h, p))
    ensures p <= |h| ==> NameRun(w, |line| + 2 + p) == NameRun(h, p)
  {
    var k := |line| + 2;
    if 0 < p < k {
      assert w[p - 1] == if p - 1 < |line| then line[p - 1] else CR;
    }
    if p <= |h| {
      NameRunShift(w, k, h, p);
      var q := p + NameRun(h, p);
      assert q < |h| ==> h[q] == w[k + q];
      assert 0 < p ==> h[p - 1] == w[k + (p - 1)];
    }
  }

  /** A header name is among the existing ones exactly when it stands somewhere in the head. */
  predicate NamedAt(h: Octets, p: nat, n: Octets) {
    NameAt(h, p) && n == Lower(h[p..p + NameRun(h, p)])
  }

  lemma ExistingNamesAre(body: Octets, n: Octets)
    ensures n in ExistingNames(body) <==> exists p: nat :: NamedAt(Head(body), p, n)
  {
    var h := Head(body);
    if n in ExistingNames(body) {
      var p :| 0 <= p < |h| && NameAt(h, p) && n == Lower(h[p..p + NameRun(h, p)]);
      assert NamedAt(h, p, n);
    }
  }

  /** A line break of either kind begins at `i`; it ends before `j`. */
  ghost predicate BreaksAt(b: Octets, i: nat, j: nat) {
    || (j == i + 1 && j <= |b| && b[i] == 0x0A)
    || (j == i + 2 && j <= |b| && b[i] == 0x0D && b[i + 1] == 0x0A)
  }

  /** An empty line begins at the end of the line that ends at `i`: two breaks in a row. */
  ghost predicate EmptyLineAt(b: Octets, i: nat) {
    exists j: nat, k: nat :: BreaksAt(b, i, j) && BreaksAt(b, j, k)
  }

  /**
   * A header field called `n`, ignoring case: at the start of a line before the first empty one stand the
   * name's printable characters, none of them a colon, and then a colon.
   */
  ghost predicate FieldAt(body: Octets, n: Octets, p: nat, q: nat) {
    && p < q < |body| && |n| == q - p
    && (p == 0 || body[p - 1] == 0x0A) && body[q] == 0x3A
    && (forall i | p <= i < q ::
          && 0x21 <= body[i] <= 0x7E && body[i] != 0x3A
          && n[i - p] == if 'A' as int <= body[i] <= 'Z' as int then body[i] + 32 else body[i])
    && forall i: nat | i <= q :: !EmptyLineAt(body, i)
  }

  lemma EmptyLineIs(b: Octets, i: nat)
    ensures EmptyLineAt(b, i) <==> BlankLineAt(b, i)
  {
    if BlankLineAt(b, i) {
      var j := if b[i] == LF then i + 1 else i + 2;
      var k := if b[j] == LF then j + 1 else j + 2;
      assert BreaksAt(b, i, j) && BreaksAt(b, j, k);
    }
  }

  lemma NoEmptyLineIs(body: Octets, q: nat)
    requires q < |body|
    ensures (forall i: nat | i <= q :: !EmptyLineAt(body, i)) <==> q < |Head(body)|
  {
    if q < |Head(body)| {
      forall i: nat | i <= q
        ensures !EmptyLineAt(body, i)
      {
        EmptyLineIs(body, i);
      }
    } else {
      EmptyLineIs(body, |Head(body)|);
    }
  }

  lemma FieldIsNamed(body: Octets, n: Octets, p: nat, q: nat)
    requires FieldAt(body, n, p, q)
    ensures NamedAt(Head(body), p, n)
  {
    var h := Head(body);
    NoEmptyLineIs(body, q);
    NameRunIs(h, p, q);
    assert n == Lower(h[p..q]);
  }

  lemma NamedIsField(body: Octets, n: Octets, p: nat, q: nat)
    requires NamedAt(Head(body), p, n) && q == p + NameRun(Head(body), p)
    ensures FieldAt(body, n, p, q)
  {
    NoEmptyLineIs(body, q);
    assert n == Lower(body[p..q]);
  }

  /** The names found are exactly those of the header fields before the first empty line. */
  lemma NamesFoundIff(body: Octets, n: Octets)
    ensures n in ExistingNames(body) <==> exists p: nat, q: nat :: FieldAt(body, n, p, q)
  {
    ExistingNamesAre(body, n);
    if p: nat :| NamedAt(Head(body), p, n) {
      NamedIsField(body, n, p, p + NameRun(Head(body), p));
    }
    if p: nat, q: nat :| FieldAt(body, n, p, q) {
      FieldIsNamed(body, n, p, q);
    }
  }

  lemma NameRunIs(h: Octets, p: nat, q: nat)
    requires p <= q < |h| && !NameOctet(h[q]) && forall i | p <= i < q :: NameOctet(h[i])
    ensures NameRun(h, p) == q - p
    decreases q - p
  {
    if p < q {
      NameRunIs(h, p + 1, q);
    }
  }

  lemma SliceShift(w: Octets, k: nat, h: Octets, p: nat, q: nat)
    requires |w| == k + |h| && (forall i | 0 <= i < |h| :: h[i] == w[k + i])
    requires p <= q <= |h|
    ensures w[k + p..k + q] == h[p..q]
  {
    var moved, slice := w[k + p..k + q], h[p..q];
    forall i | 0 <= i < q - p
      ensures moved[i] == slice[i]
    {
      assert h[p + i] == w[k + (p + i)];
    }
  }

  lemma NamedShift(w: Octets, line: Octets, name: Octets, h: Octets, p: nat, n: Octets)
    requires HeaderLine(line, name) && Added(w, line, h)
    ensures NamedAt(w, |line| + 2 + p, n) <==> NamedAt(h, p, n)
  {
    if p <= |h| {
      NamePlaces(w, line, name, h, p);
      var k, r := |line| + 2, NameRun(h, p);
      SliceShift(w, k, h, p, p + r);
    }
  }

  lemma NamesHidden(w: Octets, line: Octets, name: Octets, n: Octets)
    requires HeaderLine(line, name) && w == line
    ensures (exists p: nat :: NamedAt(w, p, n)) <==> n == Lower(name)
  {
    FirstName(w, line, name);
    forall p: nat | NameAt(w, p)
      ensures p == 0
    {
      assert p > 0 ==> w[p - 1] == line[p - 1];
    }
    assert NamedAt(w, 0, Lower(name));
  }

  lemma NameBack(w: Octets, line: Octets, name: Octets, h: Octets, p: nat, n: Octets)
    requires HeaderLine(line, name) && Added(w, line, h)
    requires NamedAt(w, p, n)
    ensures p == 0 || (p >= |line| + 2 && NamedAt(h, p - (|line| + 2), n))
  {
    NamePlaces(w, line, name, h, p);
    if p >= |line| + 2 {
      NamedShift(w, line, name, h, p - (|line| + 2), n);
    }
  }

  lemma NamesExtended(w: Octets, line: Octets, name: Octets, h: Octets, n: Octets)
    requires HeaderLine(line, name) && Added(w, line, h)
    ensures (exists p: nat :: NamedAt(w, p, n)) <==>
            n == Lower(name) || exists p: nat :: NamedAt(h, p, n)
  {
    FirstName(w, line, name);
    assert NamedAt(w, 0, Lower(name));
    forall p: nat | NamedAt(h, p, n)
      ensures NamedAt(w, |line| + 2 + p, n)
    {
      NamedShift(w, line, name, h, p, n);
    }
    forall p: nat | NamedAt(w, p, n)
      ensures n == Lower(name) || exists q: nat :: NamedAt(h, q, n)
    {
      NameBack(w, line, name, h, p, n);
    }
  }

  lemma HeadIsAdded(whole: Octets, line: Octets, name: Octets, b: Octets)
    requires HeaderLine(line, name) && Added(whole, line, b)
    ensures StartsWithBreak(b) ==> Head(whole) == line
    ensures !StartsWithBreak(b) ==> Added(Head(whole), line, Head(b))
  {
    HeadOfAdded(whole, line, name, b);
    var w, h := Head(whole), Head(b);
    assert forall i | 0 <= i < |w| :: w[i] == whole[i];
    if !StartsWithBreak(b) {
      forall i | 0 <= i < |h|
        ensures h[i] == w[|line| + 2 + i]
      {
        assert h[i] == b[i];
      }
    }
  }

  /** A line in front hides the old block when the body starts with a break, and extends it otherwise. */
  lemma NamesOfAdded(line: Octets, name: Octets, b: Octets, n: Octets)
    requires HeaderLine(line, name)
    ensures n in ExistingNames(line + [CR, LF] + b) <==>
            n == Lower(name) || (!StartsWithBreak(b) && n in ExistingNames(b))
  {
    var whole := line + [CR, LF] + b;
    HeadIsAdded(whole, line, name, b);
    ExistingNamesAre(whole, n);
    ExistingNamesAre(b, n);
    if StartsWithBreak(b) {
      NamesHidden(Head(whole), line, name, n);
    } else {
      NamesExtended(Head(whole), line, name, Head(b), n);
    }
  }

  // ----- the envelope survives --------------------------------------------------------------

  lemma {:induction false} PointsNoBreak(s: seq<CodePoint>)
    requires forall c | c in s :: !Surrogate(c) && !Control(c)
    ensures CR !in EncodePoints(s) && LF !in EncodePoints(s)
  {
    if s == [] {
    } else {
      assert s[0] in s && forall c | c in s[1..] :: c in s;
      PointsNoBreak(s[1..]);
    }
  }

  lemma LiteralNames()
    ensures Lower(DELIVERED_TO) == DELIVERED_KEY && Lower(RETURN_PATH) == RETURN_KEY
    ensures DELIVERED_KEY != RETURN_KEY
    ensures forall i | 0 <= i < |DELIVERED_TO| :: NameOctet(DELIVERED_TO[i])
    ensures forall i | 0 <= i < |RETURN_PATH| :: NameOctet(RETURN_PATH[i])
    ensures 0 < |DELIVERED_TO| && 0 < |RETURN_PATH|
    ensures DELIVERED_TO[0] == 0x44 && RETURN_PATH[0] == 0x52
  {
    assert |DELIVERED_KEY| != |RETURN_KEY|;
  }

  lemma LineShape(line: Octets, name: Octets, value: Octets)
    requires 0 < |name| && forall i | 0 <= i < |name| :: NameOctet(name[i])
    requires line == name + [0x3A] + value
    requires CR !in value && LF !in value
    ensures HeaderLine(line, name)
  {
    assert forall i | 0 <= i < |name| :: line[i] == name[i];
    assert forall i | |name| < i < |line| :: line[i] == value[i - |name| - 1];
  }

  lemma DeliveredShape(to: seq<CodePoint>)
    requires forall c | c in to :: !Surrogate(c) && !Control(c)
    ensures HeaderLine(DeliveredLine(to), DELIVERED_TO)
  {
    LiteralNames();
    PointsNoBreak(to);
    LineShape(DeliveredLine(to), DELIVERED_TO, [0x20] + EncodePoints(to));
  }

  lemma ReturnShape(from: seq<CodePoint>)
    requires forall c | c in from :: !Surrogate(c) && !Control(c)
    ensures HeaderLine(ReturnLine(from), RETURN_PATH)
  {
    LiteralNames();
    PointsNoBreak(from);
    LineShape(ReturnLine(from), RETURN_PATH, [0x20, 0x3C] + EncodePoints(from) + [0x3E]);
  }

  lemma LineDoesNotStartWithBreak(line: Octets, name: Octets, b: Octets)
    requires HeaderLine(line, name)
    ensures !StartsWithBreak(line + [CR, LF] + b)
  {
    assert (line + [CR, LF] + b)[0] == line[0];
  }

  lemma WorkerLine(name: Octets, value: Units)
    requires 0 < |name| && forall i | 0 <= i < |name| :: NameOctet(name[i])
    requires NoControl(value)
    ensures HeaderLine(LineOctets(name, value), name)
  {
    assert forall u | u in name :: u < 0x80;
    EncodeLine(name, value);
    EncodeNoBreak(value);
    LineShape(LineOctets(name, value), name, [0x20] + Encode(value));
  }

  /** A message the Worker stored already names both envelope headers, whatever the raw message holds. */
  lemma StoredNamesBoth(raw: Octets, from: Units, to: Units)
    requires Prepend(raw, EnvelopeHeaders(from, to)).Some?
    ensures var stored := Prepend(raw, EnvelopeHeaders(from, to)).value;
            DELIVERED_KEY in ExistingNames(stored) && RETURN_KEY in ExistingNames(stored)
  {
    PrependedOctets(raw, from, to);
    LiteralNames();
    EnvelopeSafe(from, to);
    WorkerLine(DELIVERED_TO, to);
    WorkerLine(RETURN_PATH, Bracketed(from));
    var d, r := LineOctets(DELIVERED_TO, to), LineOctets(RETURN_PATH, Bracketed(from));
    NamesOfAdded(r, RETURN_PATH, raw, RETURN_KEY);
    var inner := r + [CR, LF] + raw;
    LineDoesNotStartWithBreak(r, RETURN_PATH, raw);
    NamesOfAdded(d, DELIVERED_TO, inner, DELIVERED_KEY);
    NamesOfAdded(d, DELIVERED_TO, inner, RETURN_KEY);
  }

  lemma CheckedAscii(value: Units)
    requires NoControl(value) && AsciiValue(value).Some?
    ensures CheckEnvelope(Some(AsciiValue(value).value)) == Ok(Some(Strip(value)))
  {
    AsciiValueDomain(value);
    UnquoteInverts(value);
  }

  /**
   * The Worker's envelope survives Odoo's preparation: for every raw message and every sender and
   * recipient the Worker could store and encode, the octets stored are the octets processed.
   */
  lemma EnvelopeSurvives(raw: Octets, from: Units, to: Units)
    requires Prepend(raw, EnvelopeHeaders(from, to)).Some?
    requires AsciiValue(from).Some? && AsciiValue(to).Some?
    ensures var stored := Prepend(raw, EnvelopeHeaders(from, to)).value;
            Prepare(stored, Some(AsciiValue(from).value), Some(AsciiValue(to).value)) == Ok(stored)
  {
    PrependedOctets(raw, from, to);
    StoredNamesBoth(raw, from, to);
    CheckedAscii(from);
    CheckedAscii(to);
  }

  // ----- preparing twice --------------------------------------------------------------------

  /** The one way a second preparation can differ: the first line added hides the header already there. */
  predicate Unstable(body: Octets, envFrom: Option<Octets>, envTo: Option<Octets>)
    requires CheckEnvelope(envFrom).Ok? && CheckEnvelope(envTo).Ok?
  {
    && StartsWithBreak(body)
    && CheckEnvelope(envFrom).value.Some?
    && CheckEnvelope(envTo).value.Some? && CheckEnvelope(envTo).value.value != []
    && ((DELIVERED_KEY in ExistingNames(body)) != (RETURN_KEY in ExistingNames(body)))
  }

  lemma NamesWithReturn(body: Octets, envFrom: Option<Octets>, n: Octets)
    requires CheckEnvelope(envFrom).Ok? && AddsReturn(body, envFrom)
    ensures n in ExistingNames(WithReturn(body, envFrom)) <==>
            n == RETURN_KEY || (!StartsWithBreak(body) && n in ExistingNames(body))
    ensures !StartsWithBreak(WithReturn(body, envFrom))
  {
    var line := ReturnLine(PointsOf(envFrom));
    LiteralNames();
    ReturnShape(PointsOf(envFrom));
    NamesOfAdded(line, RETURN_PATH, body, n);
    LineDoesNotStartWithBreak(line, RETURN_PATH, body);
  }

  lemma NamesWithDelivered(inner: Octets, to: seq<CodePoint>, n: Octets)
    requires forall c | c in to :: !Surrogate(c) && !Control(c)
    ensures n in ExistingNames(DeliveredLine(to) + [CR, LF] + inner) <==>
            n == DELIVERED_KEY || (!StartsWithBreak(inner) && n in ExistingNames(inner))
  {
    LiteralNames();
    DeliveredShape(to);
    NamesOfAdded(DeliveredLine(to), DELIVERED_TO, inner, n);
  }

  lemma NamesAfter(body: Octets, envFrom: Option<Octets>, envTo: Option<Octets>, n: Octets)
    requires Prepare(body, envFrom, envTo).Ok?
    ensures
      var d, r := AddsDelivered(body, envTo), AddsReturn(body, envFrom);
      n in ExistingNames(Prepare(body, envFrom, envTo).value) <==>
      (d && n == DELIVERED_KEY) || (r && n == RETURN_KEY) ||
      ((!StartsWithBreak(body) || (!d && !r)) && n in ExistingNames(body))
  {
    if AddsReturn(body, envFrom) {
      NamesWithReturn(body, envFrom, n);
    }
    if AddsDelivered(body, envTo) {
      NamesWithDelivered(WithReturn(body, envFrom), PointsOf(envTo), n);
    }
  }

  lemma PrepareAddsOrKeeps(body: Octets, envFrom: Option<Octets>, envTo: Option<Octets>)
    requires Prepare(body, envFrom, envTo).Ok?
    ensures Prepare(body, envFrom, envTo).value == body <==>
            !AddsDelivered(body, envTo) && !AddsReturn(body, envFrom)
  {
    if !AddsDelivered(body, envTo) && !AddsReturn(body, envFrom) {
    } else {
      assert |Prepare(body, envFrom, envTo).value| > |body|;
    }
  }

  /** Preparing twice is preparing once exactly when the body is not an `Unstable` one. */
  lemma PrepareIdempotent(body: Octets, envFrom: Option<Octets>, envTo: Option<Octets>)
    requires Prepare(body, envFrom, envTo).Ok?
    ensures Prepare(Prepare(body, envFrom, envTo).value, envFrom, envTo) == Prepare(body, envFrom, envTo)
            <==> !Unstable(body, envFrom, envTo)
  {
    LiteralNames();
    NamesAfter(body, envFrom, envTo, DELIVERED_KEY);
    NamesAfter(body, envFrom, envTo, RETURN_KEY);
    PrepareAddsOrKeeps(Prepare(body, envFrom, envTo).value, envFrom, envTo);
  }

  lemma NamesAfterBreak(body: Octets, line: Octets, name: Octets, p: nat)
    requires HeaderLine(line, name)
    requires |body| == 1 + |line| && body[0] == LF && forall i | 0 <= i < |line| :: line[i] == body[1 + i]
    ensures NameAt(body, p) <==> p == 1
    ensures NameRun(body, 1) == |name| && body[1..1 + |name|] == name
  {
    FirstName(line, line, name);
    NameRunShift(body, 1, line, 0);
    assert body[1 + |name|] == line[|name|];
    if 1 < p < |body| {
      assert line[p - 2] == body[1 + (p - 2)];
    }
    assert forall i | 0 <= i < |name| :: body[1..1 + |name|][i] == line[i];
  }

  lemma BreakThenLine(line: Octets, name: Octets, n: Octets)
    requires HeaderLine(line, name)
    ensures StartsWithBreak([LF] + line)
    ensures n in ExistingNames([LF] + line) <==> n == Lower(name)
  {
    var body := [LF] + line;
    assert forall i | 0 <= i < |line| :: line[i] == body[1 + i];
    forall i: nat | i < |body|
      ensures !BlankLineAt(body, i)
    {
      assert i > 0 ==> line[i - 1] == body[1 + (i - 1)];
      assert |body| > 1 && body[1] == line[0];
    }
    assert Head(body) == body;
    ExistingNamesAre(body, n);
    NamesAfterBreak(body, line, name, 1);
    assert NamedAt(body, 1, Lower(name));
    forall p: nat | NamedAt(body, p, n)
      ensures p == 1
    {
      NamesAfterBreak(body, line, name, p);
    }
  }

  /** A concrete unstable body: a line feed, then `Return-Path: <>`, pushed with both addresses. */
  lemma UnstableBodyExists()
    ensures Unstable([LF] + ReturnLine([]), Some([]), Some([0x78]))
  {
    ReturnShape([]);
    LiteralNames();
    BreakThenLine(ReturnLine([]), RETURN_PATH, DELIVERED_KEY);
    BreakThenLine(ReturnLine([]), RETURN_PATH, RETURN_KEY);
    assert Unquote([0x78]) == [0x78];
  }
}
