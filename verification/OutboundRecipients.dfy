/**
 * The To/Cc/Bcc split of an envelope (`_split_recipients` in cloudflare_api.py). Lower-casing is a
 * parameter; the pairs of a header are what `email_split_tuples` parsed from it.
 */
module OutboundRecipients {
  import opened Wrappers
  import opened MessageIds

  type Lowering = Str -> Str

  /** An address object; the name is left out of the request when empty. */
  datatype Mailbox = Mailbox(name: Str, address: Str)

  datatype Split = Split(to: seq<Mailbox>, cc: seq<Mailbox>, bcc: seq<Mailbox>)

  datatype Refusal = NobodyLeft | TooMany(total: nat)

  const MAX_RECIPIENTS := 50

  function Key(lower: Lowering, m: Mailbox): Str {
    lower(m.address)
  }

  /** The people a list names, ignoring case. */
  function Keys(lower: Lowering, list: seq<Mailbox>): set<Str> {
    set m | m in list :: Key(lower, m)
  }

  /** The first of `list` with this key. */
  predicate FirstWith(lower: Lowering, list: seq<Mailbox>, m: Mailbox) {
    exists i | 0 <= i < |list| :: list[i] == m && forall j | 0 <= j < i :: Key(lower, list[j]) != Key(lower, m)
  }

  /** An envelope address without a display name. */
  function Bare(addresses: seq<Str>): seq<Mailbox> {
    seq(|addresses|, i requires 0 <= i < |addresses| => Mailbox([], addresses[i]))
  }

  /** Those of `list` that are wanted, each key once, in order. */
  function Take(lower: Lowering, list: seq<Mailbox>, wanted: set<Str>): seq<Mailbox> {
    if list == [] then []
    else
      var before, m := Take(lower, list[..|list| - 1], wanted), list[|list| - 1];
      if Key(lower, m) in wanted && Key(lower, m) !in Keys(lower, before) then before + [m] else before
  }

  /** What the message says about its recipients. */
  datatype Mail = Mail(toHeader: seq<Mailbox>, ccHeader: seq<Mailbox>, smtpTo: seq<Str>)

  function Everyone(lower: Lowering, mail: Mail): set<Str> {
    Keys(lower, Bare(mail.smtpTo))
  }

  function Named(lower: Lowering, mail: Mail): seq<Mailbox> {
    Take(lower, mail.toHeader, Everyone(lower, mail))
  }

  function Copied(lower: Lowering, mail: Mail): seq<Mailbox> {
    Take(lower, mail.ccHeader, Everyone(lower, mail) - Keys(lower, Named(lower, mail)))
  }

  function Hidden(lower: Lowering, mail: Mail): seq<Mailbox> {
    Take(lower, Bare(mail.smtpTo),
         Everyone(lower, mail) - Keys(lower, Named(lower, mail)) - Keys(lower, Copied(lower, mail)))
  }

  /** `_split_recipients`. */
  function SplitOf(lower: Lowering, mail: Mail): Result<Split, Refusal> {
    var to, cc, bcc := Named(lower, mail), Copied(lower, mail), Hidden(lower, mail);
    var total := |to| + |cc| + |bcc|;
    if total == 0 then Err(NobodyLeft)
    else if total > MAX_RECIPIENTS then Err(TooMany(total))
    else if to == [] && |bcc| == 1 then Ok(Split(bcc, cc, []))
    else Ok(Split(to, cc, bcc))
  }

  // ----- the loops --------------------------------------------------------------------------

  lemma KeysAppend(lower: Lowering, list: seq<Mailbox>, m: Mailbox)
    ensures Keys(lower, list + [m]) == Keys(lower, list) + {Key(lower, m)}
  {
    assert forall x | x in list + [m] :: x in list || x == m;
    assert forall x | x in list :: x in list + [m];
    assert m in list + [m];
  }

  /** `take`: `seen` grows by the keys it returns. */
  method TakeFrom(lower: Lowering, list: seq<Mailbox>, everyone: set<Str>, seenBefore: set<Str>)
    returns (pairs: seq<Mailbox>, seen: set<Str>)
    ensures pairs == Take(lower, list, everyone - seenBefore)
    ensures seen == seenBefore + Keys(lower, pairs)
  {
    pairs, seen := [], seenBefore;
    for i := 0 to |list|
      invariant pairs == Take(lower, list[..i], everyone - seenBefore)
      invariant seen == seenBefore + Keys(lower, pairs)
    {
      assert list[..i + 1][..i] == list[..i];
      var key := Key(lower, list[i]);
      if key in everyone && key !in seen {
        KeysAppend(lower, pairs, list[i]);
        seen := seen + {key};
        pairs := pairs + [list[i]];
      }
    }
    assert list[..|list|] == list;
  }

  /** The envelope dict, in order: `setdefault` keeps the first spelling of each key. */
  method EnvelopeOf(lower: Lowering, smtpTo: seq<Str>) returns (envelope: seq<Mailbox>, everyone: set<Str>)
    ensures everyone == Keys(lower, Bare(smtpTo))
    ensures envelope == Take(lower, Bare(smtpTo), everyone)
  {
    envelope, everyone := [], {};
    ghost var all := Keys(lower, Bare(smtpTo));
    for i := 0 to |smtpTo|
      invariant everyone == Keys(lower, Bare(smtpTo)[..i])
      invariant envelope == Take(lower, Bare(smtpTo)[..i], all)
      invariant everyone == Keys(lower, envelope)
    {
      var m := Mailbox([], smtpTo[i]);
      assert Bare(smtpTo)[..i + 1] == Bare(smtpTo)[..i] + [m];
      assert Bare(smtpTo)[..i + 1][..i] == Bare(smtpTo)[..i];
      assert m == Bare(smtpTo)[i] && m in Bare(smtpTo);
      KeysAppend(lower, Bare(smtpTo)[..i], m);
      if Key(lower, m) !in everyone {
        KeysAppend(lower, envelope, m);
        everyone := everyone + {Key(lower, m)};
        envelope := envelope + [m];
      }
    }
    assert Bare(smtpTo)[..|smtpTo|] == Bare(smtpTo);
  }

  /** Taking the unseen from the dict is taking them from the envelope. */
  lemma {:induction false} TakeAgain(lower: Lowering, list: seq<Mailbox>, all: set<Str>, some: set<Str>)
    requires some <= all
    ensures Take(lower, Take(lower, list, all), some) == Take(lower, list, some)
  {
    if list == [] {
    } else {
      var front, m := list[..|list| - 1], list[|list| - 1];
      TakeAgain(lower, front, all, some);
      var a := Take(lower, front, all);
      TakenKeys(lower, a, some);
      TakenKeys(lower, front, some);
      TakenKeys(lower, front, all);
      assert (a + [m])[..|a|] == a;
    }
  }

  /** Who is in the dict and was not seen in a header. */
  method Unseen(lower: Lowering, envelope: seq<Mailbox>, everyone: set<Str>, seen: set<Str>)
    returns (bcc: seq<Mailbox>)
    requires OncePerKey(lower, envelope) && Keys(lower, envelope) <= everyone
    ensures bcc == Take(lower, envelope, everyone - seen)
  {
    bcc := [];
    for i := 0 to |envelope|
      invariant bcc == Take(lower, envelope[..i], everyone - seen)
    {
      var before, m := envelope[..i], envelope[i];
      assert envelope[..i + 1][..i] == before;
      TakenKeys(lower, before, everyone - seen);
      assert Key(lower, m) !in Keys(lower, before);
      assert Key(lower, m) in Keys(lower, envelope);
      if Key(lower, m) !in seen {
        bcc := bcc + [m];
      }
    }
    assert envelope[..|envelope|] == envelope;
  }

  /** The dict's unseen are the hidden ones. */
  lemma UnseenAreHidden(lower: Lowering, mail: Mail, seen: set<Str>)
    requires seen == Keys(lower, Named(lower, mail)) + Keys(lower, Copied(lower, mail))
    ensures var all := Everyone(lower, mail);
            Take(lower, Take(lower, Bare(mail.smtpTo), all), all - seen) == Hidden(lower, mail)
  {
    var all := Everyone(lower, mail);
    assert all - seen == all - Keys(lower, Named(lower, mail)) - Keys(lower, Copied(lower, mail));
    TakeAgain(lower, Bare(mail.smtpTo), all, all - seen);
  }

  /** The three lists, before a lone hidden recipient is made visible. */
  method ThreeLists(lower: Lowering, mail: Mail)
    returns (to: seq<Mailbox>, cc: seq<Mailbox>, bcc: seq<Mailbox>)
    ensures to == Named(lower, mail) && cc == Copied(lower, mail) && bcc == Hidden(lower, mail)
  {
    var envelope, everyone := EnvelopeOf(lower, mail.smtpTo);
    var seen;
    to, seen := TakeFrom(lower, mail.toHeader, everyone, {});
    assert everyone - {} == everyone && {} + Keys(lower, to) == Keys(lower, to);
    cc, seen := TakeFrom(lower, mail.ccHeader, everyone, seen);
    TakenOnce(lower, Bare(mail.smtpTo), everyone);
    TakenKeys(lower, Bare(mail.smtpTo), everyone);
    bcc := Unseen(lower, envelope, everyone, seen);
    UnseenAreHidden(lower, mail, seen);
  }

  method SplitRecipients(lower: Lowering, mail: Mail) returns (r: Result<Split, Refusal>)
    ensures r == SplitOf(lower, mail)
  {
    var to, cc, bcc := ThreeLists(lower, mail);
    if to == [] && |bcc| == 1 {
      to, bcc := bcc, [];
    }
    var total := |to| + |cc| + |bcc|;
    if total == 0 {
      return Err(NobodyLeft);
    }
    if total > MAX_RECIPIENTS {
      return Err(TooMany(total));
    }
    r := Ok(Split(to, cc, bcc));
  }

  // ----- what taking promises ---------------------------------------------------------------

  /** Who is taken: exactly the wanted who are there. */
  lemma {:induction false} TakenKeys(lower: Lowering, list: seq<Mailbox>, wanted: set<Str>)
    ensures Keys(lower, Take(lower, list, wanted)) == Keys(lower, list) * wanted
  {
    if list == [] {
    } else {
      var front, m := list[..|list| - 1], list[|list| - 1];
      assert list == front + [m];
      TakenKeys(lower, front, wanted);
      KeysAppend(lower, front, m);
      KeysAppend(lower, Take(lower, front, wanted), m);
    }
  }

  ghost predicate OncePerKey(lower: Lowering, list: seq<Mailbox>) {
    forall i, j | 0 <= i < j < |list| :: Key(lower, list[i]) != Key(lower, list[j])
  }

  lemma {:induction false} TakenOnce(lower: Lowering, list: seq<Mailbox>, wanted: set<Str>)
    ensures OncePerKey(lower, Take(lower, list, wanted))
  {
    if list == [] {
    } else {
      TakenOnce(lower, list[..|list| - 1], wanted);
      var before := Take(lower, list[..|list| - 1], wanted);
      assert forall i | 0 <= i < |before| :: before[i] in before && Key(lower, before[i]) in Keys(lower, before);
    }
  }

  /** Each is taken as first spelled. */
  lemma {:induction false} TakenFirst(lower: Lowering, list: seq<Mailbox>, wanted: set<Str>, m: Mailbox)
    requires m in Take(lower, list, wanted)
    ensures FirstWith(lower, list, m)
  {
    var n := |list| - 1;
    var front := list[..n];
    if m in Take(lower, front, wanted) {
      TakenFirst(lower, front, wanted, m);
      var i :| 0 <= i < n && front[i] == m && forall j | 0 <= j < i :: Key(lower, front[j]) != Key(lower, m);
      assert list[i] == m && forall j | 0 <= j < i :: list[j] == front[j];
    } else {
      assert list[n] == m;
      TakenKeys(lower, front, wanted);
      forall j | 0 <= j < n
        ensures Key(lower, list[j]) != Key(lower, m)
      {
        assert list[j] == front[j] && front[j] in front;
      }
    }
  }

  /** `m` is on the list before `n` is. */
  predicate Precedes(list: seq<Mailbox>, m: Mailbox, n: Mailbox) {
    exists i, j | 0 <= i < j < |list| :: list[i] == m && list[j] == n
  }

  /** The p-th of the list is the first with its key, and the key is wanted. */
  predicate Leads(lower: Lowering, list: seq<Mailbox>, wanted: set<Str>, p: nat) {
    p < |list| && Key(lower, list[p]) in wanted && forall j | 0 <= j < p :: Key(lower, list[j]) != Key(lower, list[p])
  }

  lemma LastIsTaken(lower: Lowering, list: seq<Mailbox>, wanted: set<Str>)
    requires list != [] && Leads(lower, list, wanted, |list| - 1)
    ensures Take(lower, list, wanted) == Take(lower, list[..|list| - 1], wanted) + [list[|list| - 1]]
  {
    var front, m := list[..|list| - 1], list[|list| - 1];
    TakenKeys(lower, front, wanted);
    forall x | x in front
      ensures Key(lower, x) != Key(lower, m)
    {
      var j :| 0 <= j < |front| && front[j] == x;
      assert list[j] == x;
    }
  }

  /** Whoever is wanted is taken where the list first has them. */
  lemma {:induction false} LeadIsTaken(lower: Lowering, list: seq<Mailbox>, wanted: set<Str>, p: nat)
    requires Leads(lower, list, wanted, p)
    ensures list[p] in Take(lower, list, wanted)
  {
    var n := |list| - 1;
    if p < n {
      assert forall j | 0 <= j <= p :: list[..n][j] == list[j];
      LeadIsTaken(lower, list[..n], wanted, p);
    } else {
      LastIsTaken(lower, list, wanted);
    }
  }

  lemma PrecedesOn(before: seq<Mailbox>, after: seq<Mailbox>, m: Mailbox, n: Mailbox)
    requires Precedes(before, m, n) && before <= after
    ensures Precedes(after, m, n)
  {
    var i, j :| 0 <= i < j < |before| && before[i] == m && before[j] == n;
    assert after[i] == m && after[j] == n;
  }

  lemma PrecedesLast(before: seq<Mailbox>, m: Mailbox, n: Mailbox)
    requires m in before
    ensures Precedes(before + [n], m, n)
  {
    var i :| 0 <= i < |before| && before[i] == m;
    assert (before + [n])[i] == m && (before + [n])[|before|] == n;
  }

  /** Those taken are in the order of the list. */
  lemma {:induction false} TakenInOrder(lower: Lowering, list: seq<Mailbox>, wanted: set<Str>, p: nat, q: nat)
    requires p < q && Leads(lower, list, wanted, p) && Leads(lower, list, wanted, q)
    ensures Precedes(Take(lower, list, wanted), list[p], list[q])
  {
    var n := |list| - 1;
    var front := list[..n];
    assert forall j | 0 <= j < n :: front[j] == list[j];
    if q < n {
      TakenInOrder(lower, front, wanted, p, q);
      PrecedesOn(Take(lower, front, wanted), Take(lower, list, wanted), list[p], list[q]);
    } else {
      LeadIsTaken(lower, front, wanted, p);
      LastIsTaken(lower, list, wanted);
      PrecedesLast(Take(lower, front, wanted), list[p], list[q]);
    }
  }

  lemma {:induction false} OnceCounts(lower: Lowering, list: seq<Mailbox>)
    requires OncePerKey(lower, list)
    ensures |Keys(lower, list)| == |list|
  {
    if list == [] {
    } else {
      var front, m := list[..|list| - 1], list[|list| - 1];
      OnceCounts(lower, front);
      assert list == front + [m];
      KeysAppend(lower, front, m);
      assert Key(lower, m) !in Keys(lower, front);
    }
  }

  // ----- what the split promises ------------------------------------------------------------

  lemma KeysEmpty(lower: Lowering, list: seq<Mailbox>)
    ensures Keys(lower, list) == {} <==> list == []
  {
    assert list != [] ==> Key(lower, list[0]) in Keys(lower, list);
  }

  lemma TakenSize(lower: Lowering, list: seq<Mailbox>, wanted: set<Str>)
    ensures |Take(lower, list, wanted)| == |Keys(lower, list) * wanted|
  {
    TakenOnce(lower, list, wanted);
    TakenKeys(lower, list, wanted);
    OnceCounts(lower, Take(lower, list, wanted));
  }

  lemma NamedShare(lower: Lowering, mail: Mail)
    ensures var share := Everyone(lower, mail) * Keys(lower, mail.toHeader);
            Keys(lower, Named(lower, mail)) == share && |Named(lower, mail)| == |share|
  {
    var all, shown := Everyone(lower, mail), Keys(lower, mail.toHeader);
    TakenKeys(lower, mail.toHeader, all);
    TakenSize(lower, mail.toHeader, all);
    assert shown * all == all * shown;
  }

  lemma CopiedShare(lower: Lowering, mail: Mail)
    ensures var share := Everyone(lower, mail) * Keys(lower, mail.ccHeader) - Keys(lower, mail.toHeader);
            Keys(lower, Copied(lower, mail)) == share && |Copied(lower, mail)| == |share|
  {
    var all, shown, copied := Everyone(lower, mail), Keys(lower, mail.toHeader), Keys(lower, mail.ccHeader);
    NamedShare(lower, mail);
    TakenKeys(lower, mail.ccHeader, all - all * shown);
    TakenSize(lower, mail.ccHeader, all - all * shown);
    assert copied * (all - all * shown) == all * copied - shown;
  }

  lemma HiddenShare(lower: Lowering, mail: Mail)
    ensures var share := Everyone(lower, mail) - Keys(lower, mail.toHeader) - Keys(lower, mail.ccHeader);
            Keys(lower, Hidden(lower, mail)) == share && |Hidden(lower, mail)| == |share|
  {
    var all, shown, copied := Everyone(lower, mail), Keys(lower, mail.toHeader), Keys(lower, mail.ccHeader);
    NamedShare(lower, mail);
    CopiedShare(lower, mail);
    var wanted := all - all * shown - (all * copied - shown);
    TakenKeys(lower, Bare(mail.smtpTo), wanted);
    TakenSize(lower, Bare(mail.smtpTo), wanted);
    assert all * wanted == all - shown - copied;
  }

  lemma SharesCount(all: set<Str>, shown: set<Str>, copied: set<Str>)
    ensures |all * shown| + |all * copied - shown| + |all - shown - copied| == |all|
  {
    assert all == all * shown + (all * copied - shown) + (all - shown - copied);
  }

  lemma TotalIsEveryone(lower: Lowering, mail: Mail)
    ensures |Named(lower, mail)| + |Copied(lower, mail)| + |Hidden(lower, mail)| == |Everyone(lower, mail)|
  {
    NamedShare(lower, mail);
    CopiedShare(lower, mail);
    HiddenShare(lower, mail);
    SharesCount(Everyone(lower, mail), Keys(lower, mail.toHeader), Keys(lower, mail.ccHeader));
  }

  /** The people of the envelope: its addresses, ignoring case. */
  lemma EveryoneIs(lower: Lowering, mail: Mail)
    ensures Everyone(lower, mail) == set a | a in mail.smtpTo :: lower(a)
  {
    var bare := Bare(mail.smtpTo);
    assert forall i | 0 <= i < |bare| :: bare[i].address == mail.smtpTo[i] && bare[i] in bare;
  }

  /** A message is accepted exactly when its envelope names between 1 and 50 people ignoring case. */
  lemma AcceptedIff(lower: Lowering, mail: Mail)
    ensures var n, r := |set a | a in mail.smtpTo :: lower(a)|, SplitOf(lower, mail);
            && (r.Ok? <==> 1 <= n <= 50)
            && (r == Err(NobodyLeft) <==> mail.smtpTo == [])
            && (r.Err? && n > 0 ==> r == Err(TooMany(n)))
  {
    EveryoneIs(lower, mail);
    TotalIsEveryone(lower, mail);
    KeysEmpty(lower, Bare(mail.smtpTo));
  }

  /** Nobody of the To header is in the envelope, and one person in no header is. */
  predicate Lone(lower: Lowering, mail: Mail) {
    && Everyone(lower, mail) * Keys(lower, mail.toHeader) == {}
    && |Everyone(lower, mail) - Keys(lower, mail.toHeader) - Keys(lower, mail.ccHeader)| == 1
  }

  lemma LoneIff(lower: Lowering, mail: Mail)
    ensures Lone(lower, mail) <==> Named(lower, mail) == [] && |Hidden(lower, mail)| == 1
  {
    NamedShare(lower, mail);
    HiddenShare(lower, mail);
    KeysEmpty(lower, Named(lower, mail));
  }

  lemma SplitCases(lower: Lowering, mail: Mail)
    requires SplitOf(lower, mail).Ok?
    ensures SplitOf(lower, mail).value ==
            if Lone(lower, mail) then Split(Hidden(lower, mail), Copied(lower, mail), [])
            else Split(Named(lower, mail), Copied(lower, mail), Hidden(lower, mail))
  {
    LoneIff(lower, mail);
  }

  /**
   * Who goes where. To wins over Cc, and someone no header names is hidden, unless nobody of the
   * To header is left and they are the only hidden one.
   */
  lemma WhoGoesWhere(lower: Lowering, mail: Mail)
    requires SplitOf(lower, mail).Ok?
    ensures var s := SplitOf(lower, mail).value;
            var all, shown, copied := Everyone(lower, mail), Keys(lower, mail.toHeader), Keys(lower, mail.ccHeader);
            var hidden := all - shown - copied;
            && Keys(lower, s.to) == (if Lone(lower, mail) then hidden else all * shown)
            && Keys(lower, s.cc) == all * copied - shown
            && Keys(lower, s.bcc) == (if Lone(lower, mail) then {} else hidden)
  {
    SplitCases(lower, mail);
    NamedShare(lower, mail);
    CopiedShare(lower, mail);
    HiddenShare(lower, mail);
  }

  lemma ListsOnce(lower: Lowering, mail: Mail)
    ensures OncePerKey(lower, Named(lower, mail))
    ensures OncePerKey(lower, Copied(lower, mail))
    ensures OncePerKey(lower, Hidden(lower, mail))
  {
    var all, to, cc := Everyone(lower, mail), Named(lower, mail), Copied(lower, mail);
    TakenOnce(lower, mail.toHeader, all);
    TakenOnce(lower, mail.ccHeader, all - Keys(lower, to));
    TakenOnce(lower, Bare(mail.smtpTo), all - Keys(lower, to) - Keys(lower, cc));
  }

  /** No list names a person twice. */
  lemma NobodyTwice(lower: Lowering, mail: Mail)
    requires SplitOf(lower, mail).Ok?
    ensures var s := SplitOf(lower, mail).value;
            OncePerKey(lower, s.to) && OncePerKey(lower, s.cc) && OncePerKey(lower, s.bcc)
  {
    SplitCases(lower, mail);
    ListsOnce(lower, mail);
  }

  /** Three sets share out `all`. */
  predicate Partition(to: set<Str>, cc: set<Str>, bcc: set<Str>, all: set<Str>) {
    to * cc == {} && to * bcc == {} && cc * bcc == {} && to + cc + bcc == all
  }

  lemma SharesPartition(all: set<Str>, shown: set<Str>, copied: set<Str>)
    ensures Partition(all * shown, all * copied - shown, all - shown - copied, all)
    ensures all * shown == {} ==> Partition(all - shown - copied, all * copied - shown, {}, all)
  {
  }

  /** The request names as many recipients as the envelope has people. */
  lemma SplitCounts(lower: Lowering, mail: Mail)
    requires SplitOf(lower, mail).Ok?
    ensures var s := SplitOf(lower, mail).value; |s.to| + |s.cc| + |s.bcc| == |Everyone(lower, mail)|
  {
    TotalIsEveryone(lower, mail);
  }

  /** Everyone in the envelope is in exactly one list, and nobody else is in any. */
  lemma EveryoneOnce(lower: Lowering, mail: Mail)
    requires SplitOf(lower, mail).Ok?
    ensures var s := SplitOf(lower, mail).value;
            Partition(Keys(lower, s.to), Keys(lower, s.cc), Keys(lower, s.bcc), Everyone(lower, mail))
  {
    WhoGoesWhere(lower, mail);
    SharesPartition(Everyone(lower, mail), Keys(lower, mail.toHeader), Keys(lower, mail.ccHeader));
  }

  /** A recipient is written as its header, or else the envelope, first wrote it. */
  lemma FirstSpelling(lower: Lowering, mail: Mail, m: Mailbox)
    requires SplitOf(lower, mail).Ok?
    ensures var s := SplitOf(lower, mail).value;
            && (m in s.to ==> FirstWith(lower, if Lone(lower, mail) then Bare(mail.smtpTo) else mail.toHeader, m))
            && (m in s.cc ==> FirstWith(lower, mail.ccHeader, m))
            && (m in s.bcc ==> FirstWith(lower, Bare(mail.smtpTo), m) && m.name == [] && m.address in mail.smtpTo)
  {
    var all, to, cc := Everyone(lower, mail), Named(lower, mail), Copied(lower, mail);
    SplitCases(lower, mail);
    if m in to {
      TakenFirst(lower, mail.toHeader, all, m);
    }
    if m in cc {
      TakenFirst(lower, mail.ccHeader, all - Keys(lower, to), m);
    }
    if m in Hidden(lower, mail) {
      TakenFirst(lower, Bare(mail.smtpTo), all - Keys(lower, to) - Keys(lower, cc), m);
    }
  }

  /** The p-th of `list` is the first with its key and not a key of `others`, and is in the envelope. */
  ghost predicate FirstOf(lower: Lowering, list: seq<Mailbox>, p: nat, mail: Mail, others: seq<Mailbox>) {
    && p < |list|
    && (exists a :: a in mail.smtpTo && lower(a) == lower(list[p].address))
    && (forall j | 0 <= j < p :: lower(list[j].address) != lower(list[p].address))
    && (forall m | m in others :: lower(m.address) != lower(list[p].address))
  }

  lemma FirstLeads(lower: Lowering, list: seq<Mailbox>, p: nat, mail: Mail, others: seq<Mailbox>, wanted: set<Str>)
    requires FirstOf(lower, list, p, mail, others)
    requires wanted >= Everyone(lower, mail) - Keys(lower, others)
    ensures Leads(lower, list, wanted, p)
  {
    EveryoneIs(lower, mail);
    assert Key(lower, list[p]) in Everyone(lower, mail);
  }

  lemma ToInOrder(lower: Lowering, mail: Mail, p: nat, q: nat)
    requires SplitOf(lower, mail).Ok? && p < q
    requires FirstOf(lower, mail.toHeader, p, mail, []) && FirstOf(lower, mail.toHeader, q, mail, [])
    ensures Precedes(SplitOf(lower, mail).value.to, mail.toHeader[p], mail.toHeader[q])
  {
    var all, to := Everyone(lower, mail), mail.toHeader;
    FirstLeads(lower, to, p, mail, [], all);
    FirstLeads(lower, to, q, mail, [], all);
    TakenInOrder(lower, to, all, p, q);
    assert Key(lower, to[p]) in all * Keys(lower, to);
    SplitCases(lower, mail);
  }

  lemma CcInOrder(lower: Lowering, mail: Mail, p: nat, q: nat)
    requires SplitOf(lower, mail).Ok? && p < q
    requires FirstOf(lower, mail.ccHeader, p, mail, mail.toHeader)
    requires FirstOf(lower, mail.ccHeader, q, mail, mail.toHeader)
    ensures Precedes(SplitOf(lower, mail).value.cc, mail.ccHeader[p], mail.ccHeader[q])
  {
    var wanted := Everyone(lower, mail) - Keys(lower, Named(lower, mail));
    NamedShare(lower, mail);
    FirstLeads(lower, mail.ccHeader, p, mail, mail.toHeader, wanted);
    FirstLeads(lower, mail.ccHeader, q, mail, mail.toHeader, wanted);
    TakenInOrder(lower, mail.ccHeader, wanted, p, q);
    SplitCases(lower, mail);
  }

  lemma TwoAreNotOne(s: set<Str>, a: Str, b: Str)
    requires a in s && b in s && a != b
    ensures |s| != 1
  {
    assert b in s - {a} && |s - {a}| == |s| - 1;
  }

  lemma BccInOrder(lower: Lowering, mail: Mail, p: nat, q: nat)
    requires SplitOf(lower, mail).Ok? && p < q
    requires FirstOf(lower, Bare(mail.smtpTo), p, mail, mail.toHeader + mail.ccHeader)
    requires FirstOf(lower, Bare(mail.smtpTo), q, mail, mail.toHeader + mail.ccHeader)
    ensures Precedes(SplitOf(lower, mail).value.bcc, Bare(mail.smtpTo)[p], Bare(mail.smtpTo)[q])
  {
    var all, envelope := Everyone(lower, mail), Bare(mail.smtpTo);
    var wanted := all - Keys(lower, Named(lower, mail)) - Keys(lower, Copied(lower, mail));
    var hidden := all - Keys(lower, mail.toHeader) - Keys(lower, mail.ccHeader);
    NamedShare(lower, mail);
    CopiedShare(lower, mail);
    FirstLeads(lower, envelope, p, mail, mail.toHeader + mail.ccHeader, hidden);
    FirstLeads(lower, envelope, q, mail, mail.toHeader + mail.ccHeader, hidden);
    TakenInOrder(lower, envelope, wanted, p, q);
    TwoAreNotOne(hidden, Key(lower, envelope[p]), Key(lower, envelope[q]));
    SplitCases(lower, mail);
  }

  /**
   * The API asks for at least one `to`. The request has none exactly when nobody of the To header is
   * left and the hidden ones are not one: several, or none because Cc names everyone.
   */
  lemma NoToIff(lower: Lowering, mail: Mail)
    requires SplitOf(lower, mail).Ok?
    ensures SplitOf(lower, mail).value.to == [] <==>
            && Everyone(lower, mail) * Keys(lower, mail.toHeader) == {}
            && |Everyone(lower, mail) - Keys(lower, mail.ccHeader)| != 1
  {
    var all, shown, copied := Everyone(lower, mail), Keys(lower, mail.toHeader), Keys(lower, mail.ccHeader);
    if all * shown == {} {
      forall p | p in all
        ensures p !in shown
      {
        assert p in shown ==> p in all * shown;
      }
      assert all - shown - copied == all - copied;
    }
    WhoGoesWhere(lower, mail);
    KeysEmpty(lower, SplitOf(lower, mail).value.to);
  }

  /** Two people in the envelope and in no header make a request without a `to`. */
  lemma TwoHiddenHaveNoTo(lower: Lowering, a: Str, b: Str)
    requires lower(a) != lower(b)
    ensures var r := SplitOf(lower, Mail([], [], [a, b])); r.Ok? && r.value.to == []
  {
    var mail := Mail([], [], [a, b]);
    assert Everyone(lower, mail) == {lower(a), lower(b)} by {
      EveryoneIs(lower, mail);
      assert mail.smtpTo[0] == a && mail.smtpTo[1] == b;
    }
    EveryoneIs(lower, mail);
    AcceptedIff(lower, mail);
    assert Everyone(lower, mail) - Keys(lower, mail.ccHeader) == {lower(a), lower(b)};
    NoToIff(lower, mail);
  }
}
