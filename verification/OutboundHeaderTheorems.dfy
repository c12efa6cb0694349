/** What the headers of a send request promise, over every message. */
module OutboundHeaderTheorems {
  import opened Text
  import opened Wrappers
  import opened MessageIds
  import opened OutboundHeaders
  import OdooMessage

  // ----- the limits and the names -----------------------------------------------------------

  /** References takes at most 2048 octets and all the headers together at most 16 384. */
  predicate Within(h: Headers) {
    Octets(Get(h, Ascii("References"))) <= 2048 && Size(h) <= 16_384
  }

  /** The headers as they would stand in a message. */
  ghost function Wire(h: Headers): Str {
    if h == [] then []
    else
      var f := h[|h| - 1];
      Wire(h[..|h| - 1]) + (f.name + Ascii(": ") + f.value + Ascii("\r\n"))
  }

  lemma WireField(f: Field)
    ensures Octets(f.name + Ascii(": ") + f.value + Ascii("\r\n")) == FieldSize(f)
  {
    var colon, end := Ascii(": "), Ascii("\r\n");
    OctetsAdd(f.name + colon + f.value, end);
    OctetsAdd(f.name + colon, f.value);
    OctetsAdd(f.name, colon);
    OctetsOfAscii(colon);
    OctetsOfAscii(end);
  }

  /** The size that is checked is that of the headers on the wire. */
  lemma {:induction false} SizeOnTheWire(h: Headers)
    ensures Size(h) == Octets(Wire(h))
  {
    if h == [] {
    } else {
      var front, f := h[..|h| - 1], h[|h| - 1];
      SizeOnTheWire(front);
      WireField(f);
      OctetsAdd(Wire(front), f.name + Ascii(": ") + f.value + Ascii("\r\n"));
    }
  }

  // Cloudflare's list of header names, as documented.

  ghost const THREAD_NAMES: seq<string> := ["In-Reply-To", "References", "Thread-Index", "Thread-Topic"]
  ghost const LIST_NAMES: seq<string> := [
    "List-Unsubscribe", "List-Unsubscribe-Post", "List-Id", "List-Archive",
    "List-Help", "List-Owner", "List-Post", "List-Subscribe"]
  ghost const ROBOT_NAMES: seq<string> := ["Precedence", "Auto-Submitted"]
  ghost const CONTENT_NAMES: seq<string> := [
    "Content-Language", "Keywords", "Comments", "Importance", "Priority", "Sensitivity", "Organization"]
  ghost const DELIVERY_NAMES: seq<string> := [
    "Require-Recipient-Valid-Since", "Expires", "Reply-By", "Archived-At"]

  /** `l` is `name` in lower case. */
  ghost predicate Reads(l: Str, name: string) {
    && |l| == |name|
    && forall k | 0 <= k < |l| :: l[k] == if 'A' <= name[k] <= 'Z' then name[k] as int + 32 else name[k] as int
  }

  /** One of the names reads so. */
  ghost predicate OneReads(l: Str, names: seq<string>) {
    exists i :: 0 <= i < |names| && Reads(l, names[i])
  }

  /** The same names as they are compared. */
  ghost predicate Lists(group: seq<Str>, names: seq<string>) {
    && |group| == |names|
    && forall i | 0 <= i < |names| ::
         |group[i]| == |names[i]| && forall k | 0 <= k < |names[i]| :: group[i][k] == names[i][k] as int
  }

  lemma GroupIs(group: seq<Str>, names: seq<string>, l: Str)
    requires Lists(group, names)
    ensures OneReads(l, names) <==> exists n :: n in group && Lower(n) == l
  {
    if i :| 0 <= i < |names| && Reads(l, names[i]) {
      assert Lower(group[i]) == l;
    }
    if n :| n in group && Lower(n) == l {
      var i :| 0 <= i < |group| && group[i] == n;
      assert Reads(l, names[i]);
    }
  }

  lemma FirstGroups()
    ensures Lists(THREADING, THREAD_NAMES) && Lists(AUTOMATED, ROBOT_NAMES)
  {
  }

  lemma ListGroup()
    ensures Lists(LISTS, LIST_NAMES)
  {
  }

  lemma LastGroups()
    ensures Lists(CONTENT, CONTENT_NAMES) && Lists(DELIVERY, DELIVERY_NAMES)
  {
  }

  /** Exactly the documented names, ignoring case, and those that begin with `x-` are let through. */
  lemma AllowedIff(l: Str)
    ensures Allowed(l) <==>
            || OneReads(l, THREAD_NAMES) || OneReads(l, LIST_NAMES) || OneReads(l, ROBOT_NAMES)
            || OneReads(l, CONTENT_NAMES) || OneReads(l, DELIVERY_NAMES)
            || (|l| >= 2 && l[0] == 'x' as int && l[1] == '-' as int)
  {
    FirstGroups();
    ListGroup();
    LastGroups();
    GroupIs(THREADING, THREAD_NAMES, l);
    GroupIs(LISTS, LIST_NAMES, l);
    GroupIs(AUTOMATED, ROBOT_NAMES, l);
    GroupIs(CONTENT, CONTENT_NAMES, l);
    GroupIs(DELIVERY, DELIVERY_NAMES, l);
    assert forall n :: n in ALLOWED <==>
      n in THREADING || n in LISTS || n in AUTOMATED || n in CONTENT || n in DELIVERY;
  }

  // ----- the dict ---------------------------------------------------------------------------

  lemma OneEntry(h: Headers, i: nat, j: nat)
    requires Distinct(h) && i < |h| && j < |h| && Lower(h[i].name) == Lower(h[j].name)
    ensures i == j
  {
  }

  lemma EntryPlace(h: Headers, j: nat)
    requires Distinct(h) && j < |h|
    ensures Find(h, h[j].name) == j == FindLower(h, Lower(h[j].name))
  {
    OneEntry(h, FindLower(h, Lower(h[j].name)), j);
    OneEntry(h, Find(h, h[j].name), j);
  }

  lemma KeyOfEntry(h: Headers, name: Str, j: nat)
    requires j < |h| && FindLower(h, Lower(name)) == j && Proper(h[j].name)
    ensures KeyFor(h, name) == h[j].name
  {
  }

  /** A name ignoring case has one key. */
  lemma SameKey(h: Headers, name: Str, j: nat)
    requires Distinct(h) && j < |h| && Proper(h[j].name) && Lower(h[j].name) == Lower(name)
    ensures KeyFor(h, name) == h[j].name && Find(h, h[j].name) == j == FindLower(h, Lower(name))
  {
    EntryPlace(h, j);
    KeyOfEntry(h, name, j);
  }

  /** A name the dict does not have starts an entry. */
  lemma NewKey(h: Headers, name: Str)
    requires Keyed(h) && FindLower(h, Lower(name)) == |h|
    ensures Find(h, KeyFor(h, name)) == |h|
    ensures Allowed(Lower(name)) ==> Proper(KeyFor(h, name))
  {
  }

  lemma AbsorbKeeps(h: Headers, f: Field)
    requires Keyed(h)
    ensures Keyed(Absorb(h, f))
  {
    if Allowed(Lower(f.name)) {
      var i := FindLower(h, Lower(f.name));
      if i < |h| {
        SameKey(h, f.name, i);
      } else {
        NewKey(h, f.name);
      }
    }
  }

  /** The names of the request are allow-listed, spelled as documented, and distinct ignoring case. */
  lemma {:induction false} GatherIsKeyed(items: seq<Field>)
    ensures Keyed(Gather(items))
  {
    if items == [] {
    } else {
      GatherIsKeyed(items[..|items| - 1]);
      AbsorbKeeps(Gather(items[..|items| - 1]), items[|items| - 1]);
    }
  }

  /** The values an allowed name `l` brings: the first as it is, later ones unless empty. */
  function Collected(items: seq<Field>, l: Str): seq<Str>
    requires Allowed(l)
  {
    if items == [] then []
    else
      var c, f := Collected(items[..|items| - 1], l), items[|items| - 1];
      if Lower(f.name) == l && (c == [] || Strip(f.value) != []) then c + [Strip(f.value)] else c
  }

  /** The entry `l` holds exactly what the message collected under it. */
  ghost predicate Holds(h: Headers, items: seq<Field>, l: Str) {
    Allowed(l) &&
    var i, c := FindLower(h, l), Collected(items, l);
    if i < |h| then c != [] && h[i].value == Join(c, Ascii(", ")) else c == []
  }

  lemma {:induction false} JoinOneMore(parts: seq<Str>, v: Str, sep: Str)
    requires parts != []
    ensures Join(parts + [v], sep) == Join(parts, sep) + sep + v
  {
    assert (parts + [v])[0] == parts[0] && (parts + [v])[1..] == parts[1..] + [v];
    if |parts| == 1 {
      assert (parts + [v])[1..] == [v];
    } else {
      JoinOneMore(parts[1..], v, sep);
    }
  }

  lemma AbsorbNew(h: Headers, f: Field)
    requires Keyed(h) && Allowed(Lower(f.name)) && FindLower(h, Lower(f.name)) == |h|
    ensures Absorb(h, f) == h + [Field(KeyFor(h, f.name), Strip(f.value))]
  {
    NewKey(h, f.name);
  }

  lemma AbsorbMore(h: Headers, f: Field, i: nat)
    requires Keyed(h) && Allowed(Lower(f.name)) && FindLower(h, Lower(f.name)) == i < |h|
    ensures Absorb(h, f) == if Strip(f.value) == [] then h
                            else h[i := Field(h[i].name, h[i].value + COMMA + Strip(f.value))]
  {
    SameKey(h, f.name, i);
  }

  /** One header starts its entry or extends it. */
  lemma AbsorbIs(h: Headers, f: Field)
    requires Keyed(h) && Allowed(Lower(f.name))
    ensures var i, v := FindLower(h, Lower(f.name)), Strip(f.value);
            Absorb(h, f) == if i == |h| then h + [Field(KeyFor(h, f.name), v)]
                            else if v != [] then h[i := Field(h[i].name, h[i].value + COMMA + v)]
                            else h
  {
    var i := FindLower(h, Lower(f.name));
    if i < |h| {
      AbsorbMore(h, f, i);
    } else {
      AbsorbNew(h, f);
    }
  }

  lemma {:induction false} FindLowerIs(h: Headers, l: Str, i: nat)
    requires i <= |h| && (i < |h| ==> Lower(h[i].name) == l)
    requires forall j | 0 <= j < i :: Lower(h[j].name) != l
    ensures FindLower(h, l) == i
  {
    if i == 0 {
    } else {
      assert Lower(h[0].name) != l;
      FindLowerIs(h[1..], l, i - 1);
    }
  }

  lemma FindLowerAppend(h: Headers, f: Field, l: Str)
    ensures FindLower(h + [f], l) ==
            if FindLower(h, l) < |h| || Lower(f.name) == l then FindLower(h, l) else |h| + 1
  {
    FindLowerIs(h + [f], l, if FindLower(h, l) < |h| || Lower(f.name) == l then FindLower(h, l) else |h| + 1);
  }

  lemma FindLowerUpdate(h: Headers, i: nat, value: Str, l: Str)
    requires i < |h|
    ensures FindLower(h[i := Field(h[i].name, value)], l) == FindLower(h, l)
  {
    FindLowerIs(h[i := Field(h[i].name, value)], l, FindLower(h, l));
  }

  lemma CollectedOneMore(items: seq<Field>, f: Field, l: Str)
    requires Allowed(l)
    ensures var c := Collected(items, l);
            Collected(items + [f], l) ==
            if Lower(f.name) == l && (c == [] || Strip(f.value) != []) then c + [Strip(f.value)] else c
  {
    assert (items + [f])[..|items|] == items;
  }

  /** A header of another name leaves the entry alone. */
  lemma OtherHolds(h: Headers, items: seq<Field>, f: Field, l: Str)
    requires Keyed(h) && Holds(h, items, l) && Lower(f.name) != l
    ensures Holds(Absorb(h, f), items + [f], l)
  {
    CollectedOneMore(items, f, l);
    if Allowed(Lower(f.name)) {
      AbsorbIs(h, f);
      var i, v := FindLower(h, Lower(f.name)), Strip(f.value);
      if i == |h| {
        FindLowerAppend(h, Field(KeyFor(h, f.name), v), l);
      } else if v != [] {
        FindLowerUpdate(h, i, h[i].value + COMMA + v, l);
      }
    }
  }

  lemma SameHolds(h: Headers, items: seq<Field>, f: Field)
    requires Keyed(h) && Allowed(Lower(f.name)) && Holds(h, items, Lower(f.name))
    ensures Holds(Absorb(h, f), items + [f], Lower(f.name))
  {
    var l, v := Lower(f.name), Strip(f.value);
    var i, c := FindLower(h, l), Collected(items, l);
    CollectedOneMore(items, f, l);
    AbsorbIs(h, f);
    if i == |h| {
      FindLowerAppend(h, Field(KeyFor(h, f.name), v), l);
      assert c + [v] == [v];
    } else if v != [] {
      FindLowerUpdate(h, i, h[i].value + COMMA + v, l);
      JoinOneMore(c, v, COMMA);
    }
  }

  lemma AbsorbHolds(h: Headers, items: seq<Field>, f: Field, l: Str)
    requires Keyed(h) && Holds(h, items, l)
    ensures Holds(Absorb(h, f), items + [f], l)
  {
    if Lower(f.name) == l {
      SameHolds(h, items, f);
    } else {
      OtherHolds(h, items, f, l);
    }
  }

  /** Every allowed name of the message travels once, with all its values in order, and no other does. */
  lemma {:induction false} GatherHolds(items: seq<Field>, l: Str)
    requires Allowed(l)
    ensures Holds(Gather(items), items, l)
  {
    if items == [] {
    } else {
      var before, f := items[..|items| - 1], items[|items| - 1];
      GatherHolds(before, l);
      GatherIsKeyed(before);
      AbsorbHolds(Gather(before), before, f, l);
      assert before + [f] == items;
    }
  }

  // ----- trimming ---------------------------------------------------------------------------

  /** Only the value's length matters to the size once the name is fixed. */
  lemma SetSize(h: Headers, name: Str, v: Str, w: Str)
    ensures Size(Set(h, name, v)) + Octets(w) == Size(Set(h, name, w)) + Octets(v)
    ensures |Set(h, name, v)| == |Set(h, name, w)|
  {
    var i := Find(h, name);
    if i < |h| {
      SizeOfUpdate(h, i, Field(name, v));
      SizeOfUpdate(h, i, Field(name, w));
    } else {
      assert Set(h, name, v)[..|h|] == h && Set(h, name, w)[..|h|] == h;
    }
  }

  lemma JoinShrinks(ids: seq<Str>)
    requires |ids| > 1
    ensures Octets(Join(ids[1..], BLANK)) <= Octets(Join(ids, BLANK))
  {
    OctetsAdd(ids[0], BLANK);
    OctetsAdd(ids[0] + BLANK, Join(ids[1..], BLANK));
  }

  /** What fits still fits without its oldest identifier. */
  lemma FitsShrinks(h: Headers, ids: seq<Str>)
    requires |ids| > 1 && Within(WithIds(h, ids))
    ensures Within(WithIds(h, ids[1..]))
  {
    var v, w := Join(ids, BLANK), Join(ids[1..], BLANK);
    JoinShrinks(ids);
    SetSize(h, REFERENCES, v, w);
    FindAfterSet(h, REFERENCES, v);
    FindAfterSet(h, REFERENCES, w);
  }

  lemma {:induction false} SuffixFits(h: Headers, ids: seq<Str>, j: nat)
    requires j < |ids| && Within(WithIds(h, ids))
    ensures Within(WithIds(h, ids[j..]))
  {
    if j == 0 {
      assert ids[0..] == ids;
    } else {
      FitsShrinks(h, ids);
      SuffixFits(h, ids[1..], j - 1);
      assert ids[1..][j - 1..] == ids[j..];
    }
  }

  lemma DropTwice(ids: seq<Str>, j: nat)
    requires ids != [] && j < |ids|
    ensures ids[1..][j..] == ids[j + 1..]
  {
  }

  /** What does not fit stays out also when seen from one further back. */
  lemma StaysOut(h: Headers, ids: seq<Str>, j: nat)
    requires j < |ids|
    requires if j == 0 then !Within(WithIds(h, ids)) else !Within(WithIds(h, ids[1..][j - 1..]))
    ensures !Within(WithIds(h, ids[j..]))
  {
    if j == 0 {
      assert ids[0..] == ids;
    } else {
      DropTwice(ids, j - 1);
    }
  }

  /** Trimming leaves what fits, or goes on without the oldest. */
  lemma TrimmedStep(h: Headers, ids: seq<Str>)
    requires |ids| > 1
    ensures Trimmed(h, ids) == if Within(WithIds(h, ids)) then ids else Trimmed(h, ids[1..])
  {
  }

  lemma {:induction false} TrimmedSuffix(h: Headers, ids: seq<Str>, kept: seq<Str>)
    requires ids != [] && kept == Trimmed(h, ids)
    ensures 0 < |kept| <= |ids| && kept == ids[|ids| - |kept|..]
  {
    if |ids| == 1 {
    } else {
      TrimmedStep(h, ids);
      if kept != ids {
        TrimmedSuffix(h, ids[1..], kept);
        DropTwice(ids, |ids| - 1 - |kept|);
      }
    }
  }

  lemma {:induction false} TrimmedFits(h: Headers, ids: seq<Str>)
    requires |Trimmed(h, ids)| > 1
    ensures Within(WithIds(h, Trimmed(h, ids)))
  {
    TrimmedStep(h, ids);
    if !Within(WithIds(h, ids)) {
      TrimmedFits(h, ids[1..]);
    }
  }

  lemma {:induction false} LongerTrimmed(h: Headers, ids: seq<Str>)
    requires ids != []
    ensures forall j | 0 <= j < |ids| - |Trimmed(h, ids)| :: !Within(WithIds(h, ids[j..]))
  {
    if |ids| == 1 {
    } else {
      TrimmedStep(h, ids);
      if !Within(WithIds(h, ids)) {
        TrimmedSuffix(h, ids[1..], Trimmed(h, ids[1..]));
        LongerTrimmed(h, ids[1..]);
        forall j | 0 <= j < |ids| - |Trimmed(h, ids)|
          ensures !Within(WithIds(h, ids[j..]))
        {
          StaysOut(h, ids, j);
        }
      }
    }
  }

  /** What is kept is a non-empty suffix, and no longer one fits. */
  lemma TrimmedShape(h: Headers, ids: seq<Str>, kept: seq<Str>)
    requires ids != [] && kept == Trimmed(h, ids)
    ensures 0 < |kept| <= |ids| && kept == ids[|ids| - |kept|..]
    ensures |kept| > 1 ==> Within(WithIds(h, kept))
    ensures forall j | 0 <= j < |ids| - |kept| :: !Within(WithIds(h, ids[j..]))
  {
    TrimmedSuffix(h, ids, kept);
    LongerTrimmed(h, ids);
    if |kept| > 1 {
      TrimmedFits(h, ids);
    }
  }

  lemma ShorterFits(h: Headers, ids: seq<Str>, cut: nat, j: nat)
    requires cut <= j < |ids| && Within(WithIds(h, ids[cut..]))
    ensures Within(WithIds(h, ids[j..]))
  {
    SuffixFits(h, ids[cut..], j - cut);
    assert ids[cut..][j - cut..] == ids[j..];
  }

  lemma LongestSuffix(h: Headers, ids: seq<Str>, kept: seq<Str>)
    requires ids != [] && kept == Trimmed(h, ids) && Within(WithIds(h, kept))
    ensures 0 < |kept| <= |ids| && kept == ids[|ids| - |kept|..]
    ensures forall j | 0 <= j < |ids| :: Within(WithIds(h, ids[j..])) <==> j >= |ids| - |kept|
  {
    TrimmedShape(h, ids, kept);
    var cut := |ids| - |kept|;
    forall j | 0 <= j < |ids|
      ensures Within(WithIds(h, ids[j..])) <==> j >= cut
    {
      if j >= cut {
        ShorterFits(h, ids, cut, j);
      }
    }
  }

  lemma {:induction false} NoneTooLong(h: Headers, i: nat)
    requires TooLong(h) == [] && i < |h|
    ensures Octets(h[i].value) <= 2048
  {
    if i < |h| - 1 {
      NoneTooLong(h[..|h| - 1], i);
    }
  }

  lemma ReferencesShort(h: Headers)
    requires TooLong(h) == []
    ensures Octets(Get(h, REFERENCES)) <= 2048
  {
    var r := Find(h, REFERENCES);
    if r < |h| {
      NoneTooLong(h, r);
    }
  }

  lemma PassedFits(items: seq<Field>)
    requires Passthrough(items).Ok?
    ensures Within(WithIds(Gather(items), Trimmed(Gather(items), Ids(items))))
  {
    ReferencesShort(Passthrough(items).value);
  }

  lemma SentReferences(g: Headers, kept: seq<Str>)
    requires kept != []
    ensures Get(WithIds(g, kept), REFERENCES) == Join(kept, BLANK)
  {
    FindAfterSet(g, REFERENCES, Join(kept, BLANK));
  }

  /**
   * With identifiers present, a request that is not refused carries the longest suffix of them that
   * meets both limits: a suffix fits exactly when it is no longer than the one kept.
   */
  lemma LongestThatFits(items: seq<Field>)
    requires Passthrough(items).Ok? && Ids(items) != []
    ensures var g, ids, h := Gather(items), Ids(items), Passthrough(items).value;
            var kept := Trimmed(g, ids);
            && 0 < |kept| <= |ids| && kept == ids[|ids| - |kept|..]
            && Get(h, REFERENCES) == Join(kept, BLANK)
            && (forall j | 0 <= j < |ids| :: Within(WithIds(g, ids[j..])) <==> j >= |ids| - |kept|)
  {
    var g, ids := Gather(items), Ids(items);
    PassedFits(items);
    LongestSuffix(g, ids, Trimmed(g, ids));
    SentReferences(g, Trimmed(g, ids));
  }

  lemma {:induction false} SomeTooLong(h: Headers)
    requires TooLong(h) != []
    ensures exists i | 0 <= i < |h| :: Octets(h[i].value) > 2048
  {
    var n := |h| - 1;
    if Octets(h[n].value) <= 2048 {
      SomeTooLong(h[..n]);
      var i :| 0 <= i < n && Octets(h[..n][i].value) > 2048;
      assert h[i] == h[..n][i];
    }
  }

  /** Trimming touches References and nothing else. */
  lemma OnlyReferencesTrimmed(g: Headers, ids: seq<Str>, i: nat)
    requires i < |g| && g[i].name != REFERENCES
    ensures WithIds(g, ids)[i] == g[i]
  {
  }

  /** The message trimmed as far as it goes. */
  function Youngest(ids: seq<Str>): seq<Str> {
    if ids == [] then [] else [ids[|ids| - 1]]
  }

  predicate OthersShort(g: Headers) {
    forall i | 0 <= i < |g| :: g[i].name != REFERENCES ==> Octets(g[i].value) <= 2048
  }

  lemma ShortIff(g: Headers, kept: seq<Str>)
    requires Keyed(g)
    ensures TooLong(WithIds(g, kept)) == [] <==>
            OthersShort(g) && Octets(Get(WithIds(g, kept), REFERENCES)) <= 2048
  {
    var h := WithIds(g, kept);
    if TooLong(h) == [] {
      forall i | 0 <= i < |g| && g[i].name != REFERENCES
        ensures Octets(g[i].value) <= 2048
      {
        OnlyReferencesTrimmed(g, kept, i);
        NoneTooLong(h, i);
      }
      ReferencesShort(h);
    } else {
      SomeTooLong(h);
      var i :| 0 <= i < |h| && Octets(h[i].value) > 2048;
      TooLongIsFound(g, kept, i);
    }
  }

  /**
   * When a message passes: exactly when every other value is short enough, there are not too many
   * headers, and the youngest identifier alone fits.
   */
  lemma PassesIff(items: seq<Field>)
    ensures var g := Gather(items);
            var least := WithIds(g, Youngest(Ids(items)));
            Passthrough(items).Ok? <==> OthersShort(g) && |least| <= 20 && Within(least)
  {
    var g, ids := Gather(items), Ids(items);
    GatherIsKeyed(items);
    KeptFitsIff(g, ids);
    ShortIff(g, Trimmed(g, ids));
  }

  lemma {:induction false} TooLongAre(h: Headers, name: Str)
    ensures name in TooLong(h) <==> exists i :: 0 <= i < |h| && h[i].name == name && Octets(h[i].value) > 2048
  {
    if h == [] {
    } else {
      var front, n := h[..|h| - 1], |h| - 1;
      TooLongAre(front, name);
      if i :| 0 <= i < |front| && front[i].name == name && Octets(front[i].value) > 2048 {
        assert h[i] == front[i];
      }
      if i :| 0 <= i < |h| && h[i].name == name && Octets(h[i].value) > 2048 {
        assert i < n ==> front[i] == h[i];
      }
    }
  }

  /** What a message is refused for: sizes first, with the names of the values too long, and then the count. */
  lemma RefusedAs(items: seq<Field>)
    requires Passthrough(items).Err?
    ensures var g := Gather(items);
            var h := WithIds(g, Trimmed(g, Ids(items)));
            var fits := OthersShort(g) && Within(WithIds(g, Youngest(Ids(items))));
            && (fits ==> |h| > 20 && Passthrough(items) == Err(TooMany(|h|)))
            && (!fits ==>
                  && Passthrough(items).error.Oversized?
                  && forall name :: name in Passthrough(items).error.tooLong <==>
                       exists i :: 0 <= i < |h| && h[i].name == name && Octets(h[i].value) > 2048)
  {
    var g, ids := Gather(items), Ids(items);
    var h := WithIds(g, Trimmed(g, ids));
    GatherIsKeyed(items);
    KeptFitsIff(g, ids);
    ShortIff(g, Trimmed(g, ids));
    forall name
      ensures name in TooLong(h) <==> exists i :: 0 <= i < |h| && h[i].name == name && Octets(h[i].value) > 2048
    {
      TooLongAre(h, name);
    }
  }

  lemma KeptFitsIff(g: Headers, ids: seq<Str>)
    ensures var kept := Trimmed(g, ids);
            && (Within(WithIds(g, kept)) <==> Within(WithIds(g, Youngest(ids))))
            && |WithIds(g, kept)| == |WithIds(g, Youngest(ids))|
  {
    if ids != [] {
      var kept, last := Trimmed(g, ids), Youngest(ids);
      TrimmedShape(g, ids, kept);
      assert last == kept[|kept| - 1..];
      SetSize(g, REFERENCES, Join(kept, BLANK), Join(last, BLANK));
      if Within(WithIds(g, kept)) {
        SuffixFits(g, kept, |kept| - 1);
      } else {
        assert last == kept;
      }
    }
  }

  /** A value of the request that is too long is References or was too long before trimming. */
  lemma TooLongIsFound(g: Headers, kept: seq<Str>, i: nat)
    requires Keyed(g)
    requires var h := WithIds(g, kept); i < |h| && Octets(h[i].value) > 2048
    ensures || Octets(Get(WithIds(g, kept), REFERENCES)) > 2048
            || (i < |g| && g[i].name != REFERENCES && Octets(g[i].value) > 2048)
  {
    var h, r := WithIds(g, kept), Find(g, REFERENCES);
    if i < |g| && g[i].name == REFERENCES {
      OneEntry(g, i, r);
    }
    if kept != [] {
      FindAfterSet(g, REFERENCES, Join(kept, BLANK));
    }
  }

  // ----- limits and the own identifier ------------------------------------------------------

  /** Of the documented names only References starts with R and has ten letters. */
  lemma OnlyReferences(n: Str)
    requires n in ALLOWED && |n| == 10
    ensures n[0] == 0x52 || n[0] == 0x72 ==> n == REFERENCES
    ensures n[0] != 0x4D && n[0] != 0x6D
  {
    if n in LISTS {
      assert n[0] == 0x4C;
    } else if n in CONTENT {
      OnlyContent(n);
    }
  }

  lemma OnlyContent(n: Str)
    requires n in CONTENT
    ensures n != [] && n[0] != 0x52 && n[0] != 0x72 && n[0] != 0x4D && n[0] != 0x6D
  {
  }

  lemma ReferencesCanonical()
    ensures Canonical(Lower(REFERENCES)) == Some(REFERENCES) && Proper(REFERENCES)
  {
    assert REFERENCES in THREADING by { assert THREADING[1] == REFERENCES; }
    var r := Canonical(Lower(REFERENCES));
    assert REFERENCES in ALLOWED;
    assert |r.value| == |Lower(r.value)| == 10 && Lower(r.value)[0] == 0x72;
    OnlyReferences(r.value);
  }

  lemma MessageIdStays()
    ensures !Allowed(Lower(MESSAGE_ID))
  {
    var l := Lower(MESSAGE_ID);
    var r := Canonical(l);
    assert l[0] == 0x6D;
    if r.Some? {
      assert |r.value| == |Lower(r.value)| == 10 && Lower(r.value)[0] == 0x6D;
      OnlyReferences(r.value);
    }
  }

  lemma WithIdsKeyed(g: Headers, ids: seq<Str>)
    requires Keyed(g)
    ensures Keyed(WithIds(g, ids))
  {
    ReferencesCanonical();
    if ids != [] && Find(g, REFERENCES) == |g| {
      forall i | 0 <= i < |g|
        ensures Lower(g[i].name) != Lower(REFERENCES)
      {
        assert Proper(g[i].name);
      }
    }
  }

  /** A text Python can encode takes at most so many octets in UTF-8. */
  predicate TakesAtMost(s: Str, limit: nat) {
    (forall c | c in s :: !Surrogate(c)) ==> |EncodePoints(s)| <= limit
  }

  /** Everything Cloudflare limits holds of every request that is not refused, the values in UTF-8 octets. */
  lemma LimitsHold(items: seq<Field>)
    requires Passthrough(items).Ok?
    ensures var h := Passthrough(items).value;
            && Keyed(h) && |h| <= 20 && Size(h) <= 16_384
            && (forall i | 0 <= i < |h| :: Octets(h[i].value) <= 2048)
            && (forall i | 0 <= i < |h| :: TakesAtMost(h[i].value, 2048))
  {
    var h := Passthrough(items).value;
    GatherIsKeyed(items);
    WithIdsKeyed(Gather(items), Trimmed(Gather(items), Ids(items)));
    forall i | 0 <= i < |h|
      ensures Octets(h[i].value) <= 2048 && TakesAtMost(h[i].value, 2048)
    {
      NoneTooLong(h, i);
      EncodedTakes(h[i].value, 2048);
    }
  }

  lemma EncodedTakes(s: Str, limit: nat)
    requires Octets(s) <= limit
    ensures TakesAtMost(s, limit)
  {
    if forall c | c in s :: !Surrogate(c) {
      OctetsAreEncoded(s);
    }
  }

  /** The identifiers that travel. */
  function Kept(items: seq<Field>): seq<Str> {
    Trimmed(Gather(items), Ids(items))
  }

  /** `own` is at j, and the identifiers from there on fit. */
  predicate FitsFrom(h: Headers, ids: seq<Str>, own: Str, j: nat) {
    j < |ids| && ids[j] == own && Within(WithIds(h, ids[j..]))
  }

  lemma KeptFitsFrom(h: Headers, ids: seq<Str>, own: Str)
    requires ids != [] && Within(WithIds(h, Trimmed(h, ids))) && own in Trimmed(h, ids)
    ensures exists j: nat :: FitsFrom(h, ids, own, j)
  {
    var kept := Trimmed(h, ids);
    LongestSuffix(h, ids, kept);
    var j :| 0 <= j < |kept| && kept[j] == own;
    assert FitsFrom(h, ids, own, |ids| - |kept| + j);
  }

  lemma FitsFromKept(h: Headers, ids: seq<Str>, own: Str, j: nat)
    requires Within(WithIds(h, Trimmed(h, ids))) && FitsFrom(h, ids, own, j)
    ensures own in Trimmed(h, ids)
  {
    var kept := Trimmed(h, ids);
    LongestSuffix(h, ids, kept);
    assert kept[j - (|ids| - |kept|)] == own;
  }

  lemma LastIsKept(h: Headers, ids: seq<Str>)
    requires ids != []
    ensures ids[|ids| - 1] in Trimmed(h, ids)
  {
    var kept := Trimmed(h, ids);
    TrimmedShape(h, ids, kept);
    assert kept[|kept| - 1] == ids[|ids| - 1];
  }

  lemma TravelsFrom(h: Headers, ids: seq<Str>, own: Str)
    requires ids != [] && Within(WithIds(h, Trimmed(h, ids)))
    ensures own in Trimmed(h, ids) <==> exists j: nat :: FitsFrom(h, ids, own, j)
  {
    if own in Trimmed(h, ids) {
      KeptFitsFrom(h, ids, own);
    }
    if j: nat :| FitsFrom(h, ids, own, j) {
      FitsFromKept(h, ids, own, j);
    }
  }

  /** The i-th header is the message's first Message-Id, in whatever case. */
  ghost predicate FirstMessageId(items: seq<Field>, i: nat) {
    && i < |items| && Reads(Lower(items[i].name), "message-id")
    && forall j | 0 <= j < i :: !Reads(Lower(items[j].name), "message-id")
  }

  lemma MessageIdReads(l: Str)
    ensures l == Lower(MESSAGE_ID) <==> Reads(l, "message-id")
  {
  }

  /** The own identifier is what the first Message-Id says, without the blanks around it. */
  lemma {:induction false} OwnIdIs(items: seq<Field>)
    ensures forall i: nat | FirstMessageId(items, i) :: OdooMessage.Stripped(items[i].value, OwnId(items))
    ensures (forall f | f in items :: !Reads(Lower(f.name), "message-id")) ==> OwnId(items) == []
  {
    if items == [] {
    } else {
      MessageIdReads(Lower(items[0].name));
      OdooMessage.StripIs(items[0].value);
      OwnIdIs(items[1..]);
      assert items[0] in items && forall f | f in items[1..] :: f in items;
      forall i: nat | FirstMessageId(items, i)
        ensures OdooMessage.Stripped(items[i].value, OwnId(items))
      {
        assert i > 0 ==> !Reads(Lower(items[0].name), "message-id");
        if i > 0 {
          assert forall j | 0 <= j < i - 1 :: items[1..][j] == items[j + 1];
          assert FirstMessageId(items[1..], i - 1);
        }
      }
    }
  }

  /**
   * What is considered: the identifiers of References, all of them in order, and the message's own, which
   * is appended exactly when it is not there already.
   */
  lemma OwnIsConsidered(items: seq<Field>)
    ensures var found, ids, own := FindAll(Get(Gather(items), Ascii("References"))), Ids(items), OwnId(items);
            && found <= ids && |ids| <= |found| + 1
            && (own != [] ==> own in ids)
            && (|ids| > |found| <==> own != [] && own !in found)
            && (|ids| > |found| ==> ids[|found|] == own)
  {
    var found := FindAll(Get(Gather(items), REFERENCES));
    if OwnId(items) != [] && OwnId(items) !in found {
      assert Ids(items)[|found|] == OwnId(items);
    }
  }

  /**
   * The message's own identifier travels exactly when the identifiers from one of its places on fit;
   * so it always does when it comes last, which it does when it was appended (`OwnIsConsidered`).
   */
  lemma OwnIdTravelsIff(items: seq<Field>, g: Headers, ids: seq<Str>, own: Str)
    requires g == Gather(items) && ids == Ids(items) && own == OwnId(items) != []
    requires Passthrough(items).Ok?
    ensures own in Kept(items) <==> exists j: nat :: FitsFrom(g, ids, own, j)
    ensures ids[|ids| - 1] == own ==> own in Kept(items)
  {
    OwnIsConsidered(items);
    PassedFits(items);
    TravelsFrom(g, ids, own);
    LastIsKept(g, ids);
  }

  /** What travels is read back by the same expression, so a reply that copies it leads to the message. */
  lemma SentIdsAreFound(items: seq<Field>)
    requires Passthrough(items).Ok? && Ids(items) != []
    requires OwnId(items) != [] ==> IsId(OwnId(items))
    ensures FindAll(Get(Passthrough(items).value, REFERENCES)) == Kept(items)
  {
    LongestThatFits(items);
    var kept, found := Kept(items), FindAll(Get(Gather(items), REFERENCES));
    forall t | t in kept
      ensures IsId(t)
    {
      assert t in Ids(items);
      if t in found {
        FoundIff(Get(Gather(items), REFERENCES), t);
      }
    }
    FindJoined(kept);
  }

  // ----- the own identifier can be trimmed --------------------------------------------------

  /** `<a>`. */
  const SHORT_ID: Str := [OPEN, 0x61, CLOSE]

  /** An identifier of 2048 octets. */
  function LongId(): (t: Str)
    ensures IsId(t) && |t| == 2048 && forall c | c in t :: c < 0x80
  {
    [OPEN] + seq<CodePoint>(2048 - 2, i => 0x62) + [CLOSE]
  }

  lemma {:induction false} OctetsOfAscii(s: Str)
    requires forall c | c in s :: c < 0x80
    ensures Octets(s) == |s|
  {
    if s == [] {
    } else {
      assert s[0] in s && forall c | c in s[1..] :: c in s;
      OctetsOfAscii(s[1..]);
    }
  }

  /** A reply whose References names its own identifier first and a long one after it. */
  function Unlucky(): seq<Field> {
    [Field(REFERENCES, Join([SHORT_ID, LongId()], BLANK)), Field(MESSAGE_ID, SHORT_ID)]
  }

  lemma BracketsStay(v: Str)
    requires v != [] && v[0] == OPEN && v[|v| - 1] == CLOSE
    ensures Strip(v) == v
  {
  }

  lemma FirstReferences(v: Str)
    ensures Absorb([], Field(REFERENCES, v)) == [Field(REFERENCES, Strip(v))]
  {
    ReferencesCanonical();
  }

  lemma NotAbsorbed(h: Headers, v: Str)
    ensures Absorb(h, Field(MESSAGE_ID, v)) == h
  {
    MessageIdStays();
  }

  lemma GatherTwo(f: Field, g: Field)
    ensures Gather([f, g]) == Absorb(Absorb([], f), g)
  {
    assert [f, g][..1] == [f] && [f][..0] == [];
    assert Gather([f]) == Absorb([], f);
  }

  lemma JoinTwo(a: Str, b: Str)
    ensures Join([a, b], BLANK) == a + BLANK + b
  {
    assert [a, b][1..] == [b];
  }

  lemma UnluckyGathers()
    ensures Gather(Unlucky()) == [Unlucky()[0]]
  {
    var v := Unlucky()[0].value;
    JoinTwo(SHORT_ID, LongId());
    assert v[0] == OPEN && v[|v| - 1] == CLOSE;
    BracketsStay(v);
    FirstReferences(v);
    NotAbsorbed([Unlucky()[0]], SHORT_ID);
    GatherTwo(Unlucky()[0], Unlucky()[1]);
  }

  lemma UnluckyIds()
    ensures Ids(Unlucky()) == [SHORT_ID, LongId()] && OwnId(Unlucky()) == SHORT_ID
  {
    var u := Unlucky();
    var ids := [SHORT_ID, LongId()];
    UnluckyGathers();
    ReferencesCanonical();
    MessageIdStays();
    assert Strip(SHORT_ID) == SHORT_ID;
    assert u[1..] == [u[1]];
    FindJoined(ids);
    assert ids[0] in ids;
  }

  lemma BothTooLong(g: Headers)
    ensures !Within(WithIds(g, [SHORT_ID, LongId()]))
  {
    var ids := [SHORT_ID, LongId()];
    OctetsOfAscii(LongId());
    OctetsOfAscii(SHORT_ID + BLANK);
    OctetsAdd(SHORT_ID + BLANK, LongId());
    JoinTwo(SHORT_ID, LongId());
    FindAfterSet(g, REFERENCES, Join(ids, BLANK));
  }

  lemma LongAloneFits(f: Field)
    requires f.name == REFERENCES
    ensures WithIds([f], [LongId()]) == [Field(REFERENCES, LongId())] && Within(WithIds([f], [LongId()]))
  {
    OctetsOfAscii(LongId());
    OctetsOfAscii(REFERENCES);
    FindAfterSet([f], REFERENCES, LongId());
    SizeOfOne(Field(REFERENCES, LongId()));
  }

  lemma SizeOfOne(f: Field)
    ensures Size([f]) == FieldSize(f)
  {
    assert Size([f][..0]) == 0;
  }

  lemma SecondIsKept(h: Headers, a: Str, b: Str)
    requires !Within(WithIds(h, [a, b]))
    ensures Trimmed(h, [a, b]) == [b]
  {
    assert [a, b][1..] == [b];
  }

  lemma OneIsShort(f: Field)
    requires f.name == REFERENCES
    ensures OthersShort([f])
  {
  }

  lemma PassesWith(items: seq<Field>, g: Headers, ids: seq<Str>)
    requires g == Gather(items) && ids == Ids(items)
    requires OthersShort(g) && |WithIds(g, Youngest(ids))| <= 20 && Within(WithIds(g, Youngest(ids)))
    ensures Passthrough(items).Ok?
  {
    PassesIff(items);
  }

  lemma UnluckyPasses()
    ensures Passthrough(Unlucky()).Ok?
  {
    var f, ids := Unlucky()[0], [SHORT_ID, LongId()];
    UnluckyGathers();
    UnluckyIds();
    LongAloneFits(f);
    OneIsShort(f);
    assert Youngest(ids) == [LongId()];
    PassesWith(Unlucky(), [f], ids);
  }

  /** The documentation promises that the own identifier is never dropped; this message loses it. */
  lemma OwnIdCanBeLost()
    ensures var u := Unlucky();
            Passthrough(u).Ok? && OwnId(u) != [] && OwnId(u) !in Kept(u)
  {
    UnluckyPasses();
    UnluckyIds();
    BothTooLong(Gather(Unlucky()));
    SecondIsKept(Gather(Unlucky()), SHORT_ID, LongId());
    assert |SHORT_ID| < |LongId()|;
  }
}
