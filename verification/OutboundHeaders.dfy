/**
 * The custom headers of a send request (`_passthrough_headers` in cloudflare_api.py): which headers
 * travel, how repeats are joined, and how References is trimmed against two byte limits at once.
 */
module OutboundHeaders {
  import opened Text
  import opened Wrappers
  import opened MessageIds
  import OdooMessage

  /** One header of the message, or one entry of the request's `headers` object. */
  datatype Field = Field(name: Str, value: Str)

  type Headers = seq<Field>

  datatype Refusal = Oversized(tooLong: seq<Str>) | TooMany(count: nat)

  const MAX_HEADER_BYTES := 16 * 1024
  const MAX_HEADER_COUNT := 20
  const MAX_HEADER_VALUE_BYTES := 2048

  const REFERENCES: Str := Ascii("References")
  const MESSAGE_ID: Str := Ascii("Message-Id")
  const COMMA: Str := Ascii(", ")

  const THREADING: seq<Str> := [
    Ascii("In-Reply-To"), REFERENCES, Ascii("Thread-Index"), Ascii("Thread-Topic")]
  const LISTS: seq<Str> := [
    Ascii("List-Unsubscribe"), Ascii("List-Unsubscribe-Post"), Ascii("List-Id"), Ascii("List-Archive"),
    Ascii("List-Help"), Ascii("List-Owner"), Ascii("List-Post"), Ascii("List-Subscribe")]
  const AUTOMATED: seq<Str> := [Ascii("Precedence"), Ascii("Auto-Submitted")]
  const CONTENT: seq<Str> := [
    Ascii("Content-Language"), Ascii("Keywords"), Ascii("Comments"), Ascii("Importance"),
    Ascii("Priority"), Ascii("Sensitivity"), Ascii("Organization")]
  const DELIVERY: seq<Str> := [
    Ascii("Require-Recipient-Valid-Since"), Ascii("Expires"), Ascii("Reply-By"), Ascii("Archived-At")]

  /** The allow-list under its documented spellings. */
  const ALLOWED: seq<Str> := THREADING + LISTS + AUTOMATED + CONTENT + DELIVERY

  /** `str.lower` on a header name. */
  function Lower(s: Str): (r: Str)
    ensures |r| == |s|
    ensures forall i | 0 <= i < |s| :: r[i] == if 0x41 <= s[i] <= 0x5A then s[i] + 0x20 else s[i]
  {
    seq<CodePoint>(|s|, i requires 0 <= i < |s| => if 0x41 <= s[i] <= 0x5A then s[i] + 0x20 else s[i])
  }

  function Strip(s: Str): Str {
    OdooMessage.Strip(s)
  }

  // ----- sizes ------------------------------------------------------------------------------

  /** How many octets a character takes in UTF-8. */
  function Weight(c: CodePoint): (n: nat)
    ensures 1 <= n <= 4
  {
    if c < 0x80 then 1 else if c < 0x800 then 2 else if c < 0x1_0000 then 3 else 4
  }

  /** `len(s.encode())`. */
  function Octets(s: Str): nat {
    if s == [] then 0 else Weight(s[0]) + Octets(s[1..])
  }

  /** `_header_size`. */
  function Size(h: Headers): nat {
    if h == [] then 0 else Size(h[..|h| - 1]) + FieldSize(h[|h| - 1])
  }

  function FieldSize(f: Field): nat {
    Octets(f.name) + Octets(f.value) + 4
  }

  lemma {:induction false} OctetsAreEncoded(s: Str)
    requires forall c | c in s :: !Surrogate(c)
    ensures Octets(s) == |EncodePoints(s)|
  {
    if s == [] {
    } else {
      assert s[0] in s && forall c | c in s[1..] :: c in s;
      OctetsAreEncoded(s[1..]);
    }
  }

  lemma {:induction false} OctetsAdd(a: Str, b: Str)
    ensures Octets(a + b) == Octets(a) + Octets(b)
  {
    if a == [] {
      assert a + b == b;
    } else {
      assert (a + b)[1..] == a[1..] + b;
      OctetsAdd(a[1..], b);
    }
  }

  lemma {:induction false} SizeOfUpdate(h: Headers, i: nat, f: Field)
    requires i < |h|
    ensures Size(h[i := f]) == Size(h) - FieldSize(h[i]) + FieldSize(f)
  {
    var n := |h| - 1;
    if i == n {
      assert h[i := f][..n] == h[..n];
    } else {
      assert h[i := f][..n] == h[..n][i := f];
      SizeOfUpdate(h[..n], i, f);
    }
  }

  // ----- a dict of headers ------------------------------------------------------------------

  /** Where the entry called exactly `name` is; |h| when there is none. */
  function Find(h: Headers, name: Str): (i: nat)
    ensures i <= |h| && (i < |h| ==> h[i].name == name)
    ensures forall j | 0 <= j < i :: h[j].name != name
  {
    if h == [] then 0 else if h[0].name == name then 0 else 1 + Find(h[1..], name)
  }

  function Get(h: Headers, name: Str): Str {
    var i := Find(h, name);
    if i < |h| then h[i].value else []
  }

  function Set(h: Headers, name: Str, value: Str): Headers {
    var i := Find(h, name);
    if i < |h| then h[i := Field(name, value)] else h + [Field(name, value)]
  }

  // ----- which headers travel ---------------------------------------------------------------

  /** The last of `names` that reads `l` in lower case. */
  function Spelling(names: seq<Str>, l: Str): (r: Option<Str>)
    ensures r.Some? ==> r.value in names && Lower(r.value) == l
    ensures r.None? ==> forall n | n in names :: Lower(n) != l
  {
    if names == [] then None
    else if Lower(names[|names| - 1]) == l then Some(names[|names| - 1])
    else Spelling(names[..|names| - 1], l)
  }

  function Canonical(l: Str): Option<Str> {
    Spelling(ALLOWED, l)
  }

  predicate Allowed(l: Str) {
    Canonical(l).Some? || (|l| >= 2 && l[0] == 0x78 && l[1] == 0x2D)
  }

  /** Where an entry called `l` ignoring case is; |h| when there is none. */
  function FindLower(h: Headers, l: Str): (i: nat)
    ensures i <= |h| && (i < |h| ==> Lower(h[i].name) == l)
    ensures forall j | 0 <= j < i :: Lower(h[j].name) != l
  {
    if h == [] then 0 else if Lower(h[0].name) == l then 0 else 1 + FindLower(h[1..], l)
  }

  /** The documented spelling, else the one already used, else the message's own. */
  function KeyFor(h: Headers, name: Str): (key: Str)
    ensures Lower(key) == Lower(name)
  {
    var l := Lower(name);
    var i := FindLower(h, l);
    match Canonical(l)
    case Some(known) => known
    case None => if i < |h| then h[i].name else name
  }

  /** What one header of the message does to the dict. */
  function Absorb(h: Headers, f: Field): Headers {
    if !Allowed(Lower(f.name)) then h
    else
      var value := Strip(f.value);
      var key := KeyFor(h, f.name);
      if Find(h, key) == |h| then Set(h, key, value)
      else if value != [] then Set(h, key, Get(h, key) + COMMA + value)
      else h
  }

  function Gather(items: seq<Field>): Headers {
    if items == [] then [] else Absorb(Gather(items[..|items| - 1]), items[|items| - 1])
  }

  /** An entry's name is allow-listed and spelled as documented. */
  predicate Proper(name: Str) {
    Allowed(Lower(name)) && (Canonical(Lower(name)).Some? ==> Canonical(Lower(name)).value == name)
  }

  /** No two entries are the same header. */
  predicate Distinct(h: Headers) {
    forall i, j | 0 <= i < j < |h| :: Lower(h[i].name) != Lower(h[j].name)
  }

  predicate Keyed(h: Headers) {
    (forall i | 0 <= i < |h| :: Proper(h[i].name)) && Distinct(h)
  }

  // ----- References -------------------------------------------------------------------------

  /** `str(message["Message-Id"] or "").strip()`: the first header of that name. */
  function OwnId(items: seq<Field>): Str {
    if items == [] then []
    else if Lower(items[0].name) == Lower(MESSAGE_ID) then Strip(items[0].value)
    else OwnId(items[1..])
  }

  /** The identifiers before trimming: those of the message, then its own unless it is there. */
  function Ids(items: seq<Field>): seq<Str> {
    var found := FindAll(Get(Gather(items), REFERENCES));
    if OwnId(items) != [] && OwnId(items) !in found then found + [OwnId(items)] else found
  }

  /** The dict with these identifiers as its References; without any, References stays as it is. */
  function WithIds(h: Headers, ids: seq<Str>): Headers {
    if ids == [] then h else Set(h, REFERENCES, Join(ids, BLANK))
  }

  /** `not references_oversized()`. */
  predicate Fits(h: Headers) {
    Octets(Get(h, REFERENCES)) <= MAX_HEADER_VALUE_BYTES && Size(h) <= MAX_HEADER_BYTES
  }

  /** The oldest identifiers go until the rest fits or one is left. */
  function Trimmed(h: Headers, ids: seq<Str>): seq<Str> {
    if Fits(WithIds(h, ids)) || |ids| <= 1 then ids else Trimmed(h, ids[1..])
  }

  function TooLong(h: Headers): seq<Str> {
    if h == [] then []
    else
      var f := h[|h| - 1];
      TooLong(h[..|h| - 1]) + if Octets(f.value) > MAX_HEADER_VALUE_BYTES then [f.name] else []
  }

  /** `_passthrough_headers`. */
  function Passthrough(items: seq<Field>): Result<Headers, Refusal> {
    var g := Gather(items);
    var h := WithIds(g, Trimmed(g, Ids(items)));
    if TooLong(h) != [] || Size(h) > MAX_HEADER_BYTES then Err(Oversized(TooLong(h)))
    else if |h| > MAX_HEADER_COUNT then Err(TooMany(|h|))
    else Ok(h)
  }

  method HeaderSize(h: Headers) returns (size: nat)
    ensures size == Size(h)
  {
    size := 0;
    for i := 0 to |h|
      invariant size == Size(h[..i])
    {
      assert h[..i + 1][..i] == h[..i];
      size := size + Octets(h[i].name) + Octets(h[i].value) + 4;
    }
    assert h[..|h|] == h;
  }

  method FitsNow(h: Headers) returns (fits: bool)
    ensures fits == Fits(h)
  {
    if Octets(Get(h, REFERENCES)) > MAX_HEADER_VALUE_BYTES {
      return false;
    }
    var size := HeaderSize(h);
    fits := size <= MAX_HEADER_BYTES;
  }

  /** Writing References twice leaves what the second writing says. */
  lemma ReferencesOnly(h: Headers, a: seq<Str>, b: seq<Str>)
    ensures b != [] ==> WithIds(WithIds(h, a), b) == WithIds(h, b)
  {
    if a != [] {
      FindAfterSet(h, REFERENCES, Join(a, BLANK));
    }
  }

  lemma FindAfterSet(h: Headers, name: Str, value: Str)
    ensures Find(Set(h, name, value), name) == Find(h, name) < |Set(h, name, value)|
    ensures Get(Set(h, name, value), name) == value
  {
    var s, i := Set(h, name, value), Find(h, name);
    assert s[i].name == name;
    assert forall j | 0 <= j < i :: s[j] == h[j];
  }

  method GatherHeaders(items: seq<Field>) returns (headers: Headers)
    ensures headers == Gather(items)
  {
    headers := [];
    for i := 0 to |items|
      invariant headers == Gather(items[..i])
    {
      assert items[..i + 1][..i] == items[..i];
      var lname := Lower(items[i].name);
      if Allowed(lname) {
        var value := Strip(items[i].value);
        var key := KeyFor(headers, items[i].name);
        if Find(headers, key) == |headers| {
          headers := Set(headers, key, value);
        } else if value != [] {
          headers := Set(headers, key, Get(headers, key) + COMMA + value);
        }
      }
    }
    assert items[..|items|] == items;
  }

  method TrimReferences(gathered: Headers, ids: seq<Str>) returns (headers: Headers)
    ensures headers == WithIds(gathered, Trimmed(gathered, ids))
  {
    var references := ids;
    headers := WithIds(gathered, references);
    var fits := FitsNow(headers);
    while !fits && |references| > 1
      invariant headers == WithIds(gathered, references)
      invariant fits == Fits(headers)
      invariant Trimmed(gathered, references) == Trimmed(gathered, ids)
      decreases |references|
    {
      ReferencesOnly(gathered, references, references[1..]);
      references := references[1..];
      headers := WithIds(headers, references);
      fits := FitsNow(headers);
    }
  }

  method NamesTooLong(headers: Headers) returns (tooLong: seq<Str>)
    ensures tooLong == TooLong(headers)
  {
    tooLong := [];
    for i := 0 to |headers|
      invariant tooLong == TooLong(headers[..i])
    {
      assert headers[..i + 1][..i] == headers[..i];
      if Octets(headers[i].value) > MAX_HEADER_VALUE_BYTES {
        tooLong := tooLong + [headers[i].name];
      }
    }
    assert headers[..|headers|] == headers;
  }

  method PassthroughHeaders(items: seq<Field>) returns (r: Result<Headers, Refusal>)
    ensures r == Passthrough(items)
  {
    var headers := GatherHeaders(items);
    var references := FindAll(Get(headers, REFERENCES));
    var ownId := OwnId(items);
    if ownId != [] && ownId !in references {
      references := references + [ownId];
    }
    headers := TrimReferences(headers, references);
    var tooLong := NamesTooLong(headers);
    var size := HeaderSize(headers);
    if tooLong != [] || size > MAX_HEADER_BYTES {
      r := Err(Oversized(tooLong));
    } else if |headers| > MAX_HEADER_COUNT {
      r := Err(TooMany(|headers|));
    } else {
      r := Ok(headers);
    }
  }
}
