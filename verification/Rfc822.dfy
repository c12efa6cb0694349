/** Writing the SMTP envelope into a message that is otherwise opaque octets (worker/src/lib/rfc822.ts). */
module Rfc822 {
  import opened Text
  import opened Wrappers

  const MAX_LINE_OCTETS := 998

  type Units = seq<CodeUnit>

  datatype Header = Header(name: Units, value: Units)

  const DELIVERED_TO: seq<byte> := Ascii("Delivered-To")
  const RETURN_PATH: seq<byte> := Ascii("Return-Path")
  const SEPARATOR: Units := Ascii(": ")
  const BREAK: Units := [CR, LF]

  predicate NoControl(value: Units) {
    forall u | u in value :: !Control(u)
  }

  /** What `assertHeaderSafe` lets through. */
  predicate HeaderSafe(name: Units, value: Units) {
    NoControl(value) && |Encode(name + SEPARATOR + value)| <= MAX_LINE_OCTETS
  }

  /** `assertHeaderSafe`: false where the source throws. */
  method AssertHeaderSafe(name: Units, value: Units) returns (safe: bool)
    ensures safe <==> HeaderSafe(name, value)
  {
    for i := 0 to |value|
      invariant forall j | 0 <= j < i :: !Control(value[j])
    {
      if Control(value[i]) {
        assert value[i] in value;
        return false;
      }
    }
    safe := |Encode(name + SEPARATOR + value)| <= MAX_LINE_OCTETS;
  }

  function Bracketed(from: Units): Units {
    [0x3C] + from + [0x3E]
  }

  function EnvelopeHeaders(from: Units, to: Units): seq<Header> {
    [Header(DELIVERED_TO, to), Header(RETURN_PATH, Bracketed(from))]
  }

  function Line(h: Header): Units {
    h.name + SEPARATOR + h.value + BREAK
  }

  function Block(headers: seq<Header>): Units {
    if headers == [] then [] else Block(headers[..|headers| - 1]) + Line(headers[|headers| - 1])
  }

  /** `prependHeaders`; None is the EnvelopeError. */
  function Prepend(raw: seq<byte>, headers: seq<Header>): Option<seq<byte>> {
    if forall h | h in headers :: HeaderSafe(h.name, h.value) then Some(Encode(Block(headers)) + raw) else None
  }

  method PrependHeaders(raw: seq<byte>, headers: seq<Header>) returns (r: Option<seq<byte>>)
    ensures r == Prepend(raw, headers)
  {
    var block: Units := [];
    for i := 0 to |headers|
      invariant block == Block(headers[..i])
      invariant forall j | 0 <= j < i :: HeaderSafe(headers[j].name, headers[j].value)
    {
      var safe := AssertHeaderSafe(headers[i].name, headers[i].value);
      if !safe {
        assert headers[i] in headers;
        return None;
      }
      block := block + Line(headers[i]);
      assert headers[..i + 1][..i] == headers[..i];
    }
    assert headers[..|headers|] == headers;
    r := Some(Encode(block) + raw);
  }

  /** The octets of one header line, without its line break. */
  function LineOctets(name: Units, value: Units): seq<byte> {
    Encode(name + SEPARATOR + value)
  }

  lemma EncodeName(name: Units)
    requires forall u | u in name :: u < 0x80
    ensures Encode(name + SEPARATOR) == name + SEPARATOR
  {
    EncodeAscii(name + SEPARATOR);
  }

  lemma EncodeBroken(line: Units)
    ensures Encode(line + BREAK) == Encode(line) + BREAK
  {
    EncodeSplit(line, BREAK);
    EncodeAscii(BREAK);
  }

  lemma EncodeLine(name: Units, value: Units)
    requires forall u | u in name :: u < 0x80
    ensures LineOctets(name, value) == name + SEPARATOR + Encode(value)
    ensures Encode(Line(Header(name, value))) == LineOctets(name, value) + BREAK
  {
    EncodeSplit(name + SEPARATOR, value);
    EncodeName(name);
    EncodeBroken(name + SEPARATOR + value);
  }

  lemma EncodeBracketed(from: Units)
    ensures Encode(Bracketed(from)) == [0x3C] + Encode(from) + [0x3E]
  {
    EncodeSplit([0x3C] + from, [0x3E]);
    EncodeSplit([0x3C], from);
    EncodeAscii([0x3C]);
    EncodeAscii([0x3E]);
  }

  lemma BlockOfEnvelope(from: Units, to: Units)
    ensures Block(EnvelopeHeaders(from, to)) ==
            Line(Header(DELIVERED_TO, to)) + Line(Header(RETURN_PATH, Bracketed(from)))
  {
    var hs := EnvelopeHeaders(from, to);
    assert hs[..1] == [hs[0]] && hs[..1][..0] == [];
    assert Block(hs[..1]) == [] + Line(hs[0]) == Line(hs[0]);
  }

  lemma EnvelopeSafe(from: Units, to: Units)
    ensures (forall h | h in EnvelopeHeaders(from, to) :: HeaderSafe(h.name, h.value)) <==>
            HeaderSafe(DELIVERED_TO, to) && HeaderSafe(RETURN_PATH, Bracketed(from))
    ensures NoControl(Bracketed(from)) <==> NoControl(from)
  {
    var hs := EnvelopeHeaders(from, to);
    assert hs[0] in hs && hs[1] in hs;
    var br := Bracketed(from);
    assert forall i | 0 <= i < |from| :: br[i + 1] == from[i];
    assert forall u | u in br :: u in from || u == 0x3C || u == 0x3E;
  }

  lemma EncodeTwoLines(h: Header, g: Header)
    requires forall u | u in h.name :: u < 0x80
    requires forall u | u in g.name :: u < 0x80
    ensures Encode(Line(h) + Line(g)) ==
            (LineOctets(h.name, h.value) + BREAK) + (LineOctets(g.name, g.value) + BREAK)
  {
    var first, second := Line(h), Line(g);
    assert first[|first| - 1] == LF;
    EncodeSplit(first, second);
    EncodeLine(h.name, h.value);
    EncodeLine(g.name, g.value);
  }

  /** What a successful prepend stores: the two lines, then the message octet for octet. */
  lemma PrependedOctets(raw: seq<byte>, from: Units, to: Units)
    requires Prepend(raw, EnvelopeHeaders(from, to)).Some?
    ensures NoControl(from) && NoControl(to)
    ensures Prepend(raw, EnvelopeHeaders(from, to)).value ==
            LineOctets(DELIVERED_TO, to) + BREAK + (LineOctets(RETURN_PATH, Bracketed(from)) + BREAK + raw)
  {
    EnvelopeSafe(from, to);
    BlockOfEnvelope(from, to);
    EncodeTwoLines(Header(DELIVERED_TO, to), Header(RETURN_PATH, Bracketed(from)));
    var d, r := LineOctets(DELIVERED_TO, to) + BREAK, LineOctets(RETURN_PATH, Bracketed(from)) + BREAK;
    assert (d + r) + raw == d + (r + raw);
  }

  /** A Return-Path line is fifteen octets longer than the bare sender, two of them the brackets. */
  lemma ReturnPathOctets(from: Units)
    ensures |LineOctets(RETURN_PATH, from)| == |Encode(from)| + 13
    ensures |LineOctets(RETURN_PATH, Bracketed(from))| == |Encode(from)| + 15
  {
    EncodeLine(RETURN_PATH, from);
    EncodeLine(RETURN_PATH, Bracketed(from));
    EncodeBracketed(from);
  }

  /**
   * `handleEmail` checks the bare sender but the stored line carries it in angle brackets, two octets
   * more. Once its own check has passed, the later prepend throws exactly for a sender of 984 or 985
   * octets.
   */
  lemma PrecheckGap(raw: seq<byte>, from: Units, to: Units)
    requires HeaderSafe(DELIVERED_TO, to) && HeaderSafe(RETURN_PATH, from)
    ensures Prepend(raw, EnvelopeHeaders(from, to)).None? <==> |Encode(from)| > 983
    ensures |Encode(from)| <= 985
  {
    ReturnPathOctets(from);
    EnvelopeSafe(from, to);
  }

  // ----- in octets --------------------------------------------------------------------------

  /** No control character, and at most 998 octets with the name, the colon and the blank. */
  lemma HeaderSafeIff(name: Units, value: Units)
    requires forall u | u in name :: u < 0x80
    ensures HeaderSafe(name, value) <==>
            (forall u | u in value :: u >= 0x20 && u != 0x7F) && |name| + 2 + |Encode(value)| <= 998
  {
    EncodeLine(name, value);
  }

  /** The line a delivering server would put in for these octets of a recipient. */
  ghost function DeliveredText(to: seq<byte>): seq<byte> {
    Ascii("Delivered-To: ") + to + Ascii("\r\n")
  }

  /** And for these octets of a sender, none of them included. */
  ghost function ReturnText(from: seq<byte>): seq<byte> {
    Ascii("Return-Path: <") + from + Ascii(">\r\n")
  }

  lemma DeliveredIs(to: seq<byte>)
    ensures DELIVERED_TO + [0x3A, 0x20] + to + [CR, LF] == DeliveredText(to)
    ensures |DELIVERED_TO| == 12
  {
  }

  lemma ReturnIs(from: seq<byte>)
    ensures RETURN_PATH + [0x3A, 0x20] + ([0x3C] + from + [0x3E]) + [CR, LF] == ReturnText(from)
    ensures |RETURN_PATH| == 11
  {
  }

  /** What is stored for an envelope: the two lines, and then the message octet for octet. */
  ghost function StoredText(raw: seq<byte>, from: Units, to: Units): seq<byte> {
    DeliveredText(Encode(to)) + (ReturnText(Encode(from)) + raw)
  }

  lemma StoredOctets(raw: seq<byte>, from: Units, to: Units)
    requires Prepend(raw, EnvelopeHeaders(from, to)).Some?
    ensures Prepend(raw, EnvelopeHeaders(from, to)).value == StoredText(raw, from, to)
  {
    PrependedOctets(raw, from, to);
    EncodeLine(DELIVERED_TO, to);
    EncodeLine(RETURN_PATH, Bracketed(from));
    EncodeBracketed(from);
    DeliveredIs(Encode(to));
    ReturnIs(Encode(from));
    assert SEPARATOR == [0x3A, 0x20];
  }

  lemma EnvelopeSafeIff(from: Units, to: Units)
    ensures (forall h | h in EnvelopeHeaders(from, to) :: HeaderSafe(h.name, h.value)) <==>
            && (forall u | u in from || u in to :: u >= 0x20 && u != 0x7F)
            && |Encode(to)| <= 984 && |Encode(from)| <= 983
  {
    EnvelopeSafe(from, to);
    DeliveredIs([]);
    ReturnIs([]);
    HeaderSafeIff(DELIVERED_TO, to);
    HeaderSafeIff(RETURN_PATH, Bracketed(from));
    EncodeBracketed(from);
  }

  /**
   * When a message is stored, and what is: without control characters in its envelope, a recipient of at
   * most 984 octets and a sender of at most 983.
   */
  lemma StoredIff(raw: seq<byte>, from: Units, to: Units)
    ensures Prepend(raw, EnvelopeHeaders(from, to)).Some? <==>
            && (forall u | u in from || u in to :: u >= 0x20 && u != 0x7F)
            && |Encode(to)| <= 984 && |Encode(from)| <= 983
    ensures Prepend(raw, EnvelopeHeaders(from, to)).Some? ==>
              Prepend(raw, EnvelopeHeaders(from, to)).value == StoredText(raw, from, to)
  {
    EnvelopeSafeIff(from, to);
    if Prepend(raw, EnvelopeHeaders(from, to)).Some? {
      StoredOctets(raw, from, to);
    }
  }

  /** An address of so many letters. */
  function Letters(n: nat): (r: Units)
    ensures |r| == n && forall u | u in r :: u == 0x61
  {
    seq<CodeUnit>(n, i => 0x61)
  }

  lemma LettersAreSafe(n: nat)
    ensures NoControl(Letters(n)) && |Encode(Letters(n))| == n
  {
    EncodeAscii(Letters(n));
  }

  lemma ShortRecipientSafe(to: Units)
    requires NoControl(to) && |Encode(to)| <= 984
    ensures HeaderSafe(DELIVERED_TO, to)
  {
    EncodeLine(DELIVERED_TO, to);
  }

  /** A sender of 984 letters gets past the handler's check and then makes the prepend throw. */
  lemma LongSenderThrows(raw: seq<byte>)
    ensures HeaderSafe(DELIVERED_TO, Letters(1)) && HeaderSafe(RETURN_PATH, Letters(984))
    ensures Prepend(raw, EnvelopeHeaders(Letters(984), Letters(1))) == None
  {
    LettersAreSafe(1);
    LettersAreSafe(984);
    ShortRecipientSafe(Letters(1));
    ReturnPathOctets(Letters(984));
    PrecheckGap(raw, Letters(984), Letters(1));
  }
}
