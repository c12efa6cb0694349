/** Which mail gets a row at all, and states the other theorems speak of that do come about. */
module ProtocolReach {
  import opened Text
  import opened Wrappers
  import opened InboxColumns
  import opened InboxRows
  import opened Protocol
  import opened ProtocolRefinement
  import opened ProtocolTheorems
  import opened ProtocolFairness
  import opened ProtocolStarvation
  import OdooController
  import Percent
  import Q = InboxQueue
  import Rfc822

  lemma ExtendReach(w: World, s: State, step: Step)
    requires ValidConfig(w.config) && Reachable(w, s) && Enabled(w, s, step)
    ensures Reachable(w, Next(w, s, step))
  {
    var s0, steps :| Initial(s0) && Run(w, s0, steps) == Some(s);
    var longer := steps + [step];
    assert longer[..|longer| - 1] == steps;
    assert Run(w, s0, longer) == Some(Next(w, s, step));
  }

  // ----- a message on its way in ------------------------------------------------------------

  /** A message at a stage of `handleEmail`, nothing else having changed since `s`. */
  ghost predicate OnItsWay(w: World, s: State, t: State, id: Id, mail: Mail, stage: Ingest)
    requires ValidConfig(w.config)
  {
    && Reachable(w, t) && id in t.emails && t.emails[id] == stage
    && t.rows == s.rows && t.now == s.now && t.pass == s.pass && t.h.mail == s.h.mail[id := mail]
    && t.alarm == s.alarm && t.odoo == s.odoo
    && (stage == Queueing ==> t.bucket == s.bucket[KeyOf(w.config, id) := mail.stored])
  }

  /** The row of a message queued just now. */
  function RowAt(c: Config, now: int, id: Id, mail: Mail): Row {
    NewRow(InputOf(c, id, mail, now), now + c.deliveryDelayMs)
  }

  /** The message accepted and queued, and otherwise the table as it was. */
  ghost predicate Arrived(w: World, s: State, t: State, id: Id, mail: Mail)
    requires ValidConfig(w.config)
  {
    && Reachable(w, t) && id in t.h.accepted
    && t.rows == s.rows[id := RowAt(w.config, s.now, id, mail)]
    && t.now == s.now && t.pass == s.pass && t.h.mail == s.h.mail[id := mail]
    && t.alarm == NoLater(s.alarm, s.now + w.config.deliveryDelayMs) && t.odoo == s.odoo
    && t.bucket == s.bucket[KeyOf(w.config, id) := mail.stored]
  }

  lemma Starts(w: World, s: State, id: Id, mail: Mail) returns (t: State)
    requires ValidConfig(w.config) && Reachable(w, s) && id !in s.h.mail && Admissible(mail)
    ensures OnItsWay(w, s, t, id, mail, Storing) && t.bucket == s.bucket
  {
    ExtendReach(w, s, EmailStart(id, mail));
    t := Next(w, s, EmailStart(id, mail));
  }

  lemma Stores(w: World, s: State, u: State, id: Id, mail: Mail) returns (t: State)
    requires ValidConfig(w.config) && OnItsWay(w, s, u, id, mail, Storing) && u.bucket == s.bucket
    requires MetadataEncodes(mail.from, mail.to)
    ensures OnItsWay(w, s, t, id, mail, Queueing)
  {
    ExtendReach(w, u, EmailPut(id, true, false));
    t := Next(w, u, EmailPut(id, true, false));
  }

  lemma Queues(w: World, s: State, u: State, id: Id, mail: Mail) returns (t: State)
    requires ValidConfig(w.config) && OnItsWay(w, s, u, id, mail, Queueing) && id !in s.rows
    ensures Arrived(w, s, t, id, mail)
  {
    ExtendReach(w, u, EmailEnqueue(id, true, true));
    t := Next(w, u, EmailEnqueue(id, true, true));
  }

  /** `handleEmail` from its start to its return, with nothing going wrong and nothing in between. */
  lemma Arrives(w: World, s: State, id: Id, mail: Mail) returns (t: State)
    requires ValidConfig(w.config) && Reachable(w, s) && id !in s.h.mail && Admissible(mail)
    requires MetadataEncodes(mail.from, mail.to)
    ensures Arrived(w, s, t, id, mail)
  {
    NoRowYet(w, s, id);
    var started := Starts(w, s, id, mail);
    var stored := Stores(w, s, started, id, mail);
    t := Queues(w, s, stored, id, mail);
  }

  lemma NoRowYet(w: World, s: State, id: Id)
    requires ValidConfig(w.config) && Reachable(w, s) && id !in s.h.mail
    ensures id !in s.rows
  {
    ReachableGives(w, s);
  }

  // ----- an empty queue ---------------------------------------------------------------------

  function Empty(): State {
    State(0, map[], map[], None, Idle, true, None, map[], map[], map[], {}, OdooController.Db([], {}),
          History(map[], {}, {}, {}, {}, {}, {}, map[], 0, []))
  }

  lemma EmptyReachable(w: World)
    requires ValidConfig(w.config)
    ensures Reachable(w, Empty())
  {
    assert Initial(Empty()) && Run(w, Empty(), []) == Some(Empty());
  }

  // ----- which mail is ever queued ----------------------------------------------------------

  /** Some run gives this mail a pending row. */
  ghost predicate CanBeQueued(w: World, mail: Mail)
    requires ValidConfig(w.config)
  {
    exists s, id :: Reachable(w, s) && Queued(s, id, mail)
  }

  predicate Queued(s: State, id: Id, mail: Mail) {
    id in s.rows && s.rows[id].status == Pending && id in s.h.mail && s.h.mail[id] == mail
  }

  /**
   * A message that can be stored gets a row in some run exactly when neither address has a surrogate
   * among its first 256 code units. With one there,
   * `handleEmail` throws and no row is ever made; with one further on, the row is made and then stuck.
   */
  lemma QueuedIff(w: World, mail: Mail)
    requires ValidConfig(w.config) && Admissible(mail)
    ensures CanBeQueued(w, mail) <==> Clean(mail.from, 256) && Clean(mail.to, 256)
  {
    MetadataIs(mail.from, mail.to);
    if s, id :| Reachable(w, s) && Queued(s, id, mail) {
      RowsEncode(w, s, id);
    }
    if MetadataEncodes(mail.from, mail.to) {
      EmptyReachable(w);
      var t := Arrives(w, Empty(), 0, mail);
      assert Queued(t, 0, mail);
    }
  }

  lemma RowsEncode(w: World, s: State, id: Id)
    requires ValidConfig(w.config) && Reachable(w, s) && id in s.rows
    ensures id in s.h.mail && MetadataEncodes(s.h.mail[id].from, s.h.mail[id].to)
  {
    ReachableInv(w, s);
  }

  // ----- a row that is stuck ----------------------------------------------------------------

  /** 256 letters and then U+1F600. */
  function LateAstral(): (r: Units)
    ensures |r| == 258 && r[..256] == Rfc822.Letters(256) && r[256..] == [0xD83D, 0xDE00]
  {
    Rfc822.Letters(256) + [0xD83D, 0xDE00]
  }

  function MailFrom(from: Units): Mail
    requires Rfc822.Prepend([], Rfc822.EnvelopeHeaders(from, Rfc822.Letters(1))).Some?
  {
    Mail(from, Rfc822.Letters(1), None, [], Rfc822.Prepend([], Rfc822.EnvelopeHeaders(from, Rfc822.Letters(1))).value)
  }

  /** A sender without control characters and of at most 983 octets can be stored. */
  lemma ShortSenderStores(from: Units)
    requires Rfc822.NoControl(from) && |Encode(from)| <= 983
    ensures Rfc822.Prepend([], Rfc822.EnvelopeHeaders(from, Rfc822.Letters(1))).Some?
    ensures Admissible(MailFrom(from))
  {
    var to := Rfc822.Letters(1);
    EncodeAscii(to);
    Rfc822.EncodeLine(Rfc822.DELIVERED_TO, to);
    Rfc822.ReturnPathOctets(from);
    Rfc822.PrecheckGap([], from, to);
  }

  lemma LettersEncode(n: nat)
    ensures Percent.Encodable(Rfc822.Letters(n)) && Percent.AsciiValue(Rfc822.Letters(n)).Some?
    ensures Rfc822.NoControl(Rfc822.Letters(n)) && |Encode(Rfc822.Letters(n))| == n
  {
    Percent.AsciiValueDomain(Rfc822.Letters(n));
    EncodeAscii(Rfc822.Letters(n));
  }

  lemma LateAstralOctets()
    ensures |Encode(LateAstral())| == 260
  {
    var pair: Units := [0xD83D, 0xDE00];
    LettersEncode(256);
    EncodeSplit(Rfc822.Letters(256), pair);
    assert Encode(pair[2..]) == [];
    assert LateAstral() == Rfc822.Letters(256) + pair;
  }

  lemma LateAstralUnits()
    ensures Rfc822.NoControl(LateAstral()) && !Percent.Encodable(LateAstral())
  {
    var a := LateAstral();
    assert a[256] == a[256..][0] == 0xD83D && a[257] == a[256..][1] == 0xDE00;
    assert a[256] in a && Surrogate(a[256]);
    forall u | u in a
      ensures !Control(u)
    {
      var i :| 0 <= i < |a| && a[i] == u;
      if i < 256 {
        assert a[i] == a[..256][i] && a[..256][i] in Rfc822.Letters(256);
      }
    }
  }

  /** Such a message passes the handler, and no request for it can be made. */
  lemma LateAstralMail()
    ensures Rfc822.Prepend([], Rfc822.EnvelopeHeaders(LateAstral(), Rfc822.Letters(1))).Some?
    ensures var mail := MailFrom(LateAstral());
            Admissible(mail) && MetadataEncodes(mail.from, mail.to) && !Writable(mail.from, mail.to)
  {
    LateAstralOctets();
    LateAstralUnits();
    ShortSenderStores(LateAstral());
    LettersEncode(256);
    LettersEncode(1);
    assert MetadataPart(LateAstral()) == Rfc822.Letters(256);
  }

  /** A pending row that can never be delivered does come about. */
  lemma StuckRowExists(w: World)
    requires ValidConfig(w.config)
    ensures exists s, id :: Reachable(w, s) && id in s.rows && s.rows[id].status == Pending
                            && !Writable(s.rows[id].from, s.rows[id].to)
  {
    LateAstralMail();
    EmptyReachable(w);
    var t := Arrives(w, Empty(), 0, MailFrom(LateAstral()));
    assert 0 in t.rows && t.rows[0].status == Pending;
  }

  // ----- ten of them ------------------------------------------------------------------------

  function FirstIds(n: nat): (ids: set<Id>)
    ensures |ids| == n && forall id: Id :: id in ids <==> id < n
  {
    if n == 0 then {} else FirstIds(n - 1) + {n - 1}
  }

  /** A queue of n messages of one kind, all received at the same moment. */
  ghost predicate Piled(w: World, s: State, n: nat, mail: Mail)
    requires ValidConfig(w.config)
  {
    && Reachable(w, s) && s.pass == Idle
    && PiledRows(w.config, s.rows, s.h.mail.Keys, s.now, n, mail)
  }

  predicate PiledRows(c: Config, rows: Table, used: set<Id>, now: int, n: nat, mail: Mail) {
    && (forall id | id in used :: id < n)
    && (forall id: Id | id < n :: id in rows && rows[id] == RowAt(c, now, id, mail))
  }

  lemma PiledOneMore(c: Config, rows: Table, used: set<Id>, now: int, n: nat, mail: Mail)
    requires PiledRows(c, rows, used, now, n, mail)
    ensures PiledRows(c, rows[n := RowAt(c, now, n, mail)], used + {n}, now, n + 1, mail)
  {
  }

  lemma PilesOneMore(w: World, s: State, n: nat, mail: Mail) returns (t: State)
    requires ValidConfig(w.config) && Admissible(mail) && MetadataEncodes(mail.from, mail.to)
    requires Piled(w, s, n, mail)
    ensures Piled(w, t, n + 1, mail)
  {
    t := Arrives(w, s, n, mail);
    PiledOneMore(w.config, s.rows, s.h.mail.Keys, s.now, n, mail);
    assert t.h.mail.Keys == s.h.mail.Keys + {n};
  }

  /** Any number of messages can wait in the queue. */
  lemma {:induction false} MailPilesUp(w: World, n: nat, mail: Mail) returns (s: State)
    requires ValidConfig(w.config) && Admissible(mail) && MetadataEncodes(mail.from, mail.to)
    ensures Piled(w, s, n, mail)
  {
    if n == 0 {
      EmptyReachable(w);
      s := Empty();
    } else {
      var before := MailPilesUp(w, n - 1, mail);
      s := PilesOneMore(w, before, n - 1, mail);
    }
  }

  /** A pending row that could be delivered, with ten that cannot in front of it. */
  predicate BehindTen(s: State, id: Id) {
    && id in s.rows && s.rows[id].status == Pending && Writable(s.rows[id].from, s.rows[id].to)
    && |Stuck(s, s.rows[id])| >= 10
  }

  lemma PiledIsAhead(c: Config, now: int, a: Id, b: Id, stuck: Mail, plain: Mail)
    requires a < b
    ensures var x, y := RowAt(c, now, a, stuck), RowAt(c, now, b, plain);
            x.status == Pending && x.from == stuck.from && x.to == stuck.to && Ahead(x, y)
  {
  }

  lemma EachIsStuck(c: Config, s: State, t: State, id: Id, n: nat, stuck: Mail, plain: Mail)
    requires id < n && !Writable(stuck.from, stuck.to)
    requires PiledRows(c, s.rows, s.h.mail.Keys, s.now, n, stuck)
    requires t.rows == s.rows[n := RowAt(c, s.now, n, plain)]
    ensures id in Stuck(t, t.rows[n])
  {
    PiledIsAhead(c, s.now, id, n, stuck, plain);
    assert t.rows[id] == RowAt(c, s.now, id, stuck);
  }

  lemma BehindPile(c: Config, s: State, t: State, stuck: Mail, plain: Mail)
    requires PiledRows(c, s.rows, s.h.mail.Keys, s.now, 10, stuck) && !Writable(stuck.from, stuck.to)
    requires t.rows == s.rows[10 := RowAt(c, s.now, 10, plain)] && Writable(plain.from, plain.to)
    ensures BehindTen(t, 10)
  {
    var ids := FirstIds(10);
    forall id | id in ids
      ensures id in Stuck(t, t.rows[10])
    {
      EachIsStuck(c, s, t, id, 10, stuck, plain);
    }
    SetSize(ids, Stuck(t, t.rows[10]));
  }

  lemma PlainMail()
    ensures Rfc822.Prepend([], Rfc822.EnvelopeHeaders(Rfc822.Letters(1), Rfc822.Letters(1))).Some?
    ensures var mail := MailFrom(Rfc822.Letters(1));
            Admissible(mail) && MetadataEncodes(mail.from, mail.to) && Writable(mail.from, mail.to)
  {
    LettersEncode(1);
    ShortSenderStores(Rfc822.Letters(1));
  }

  /** An ordinary message behind ten stuck ones does come about (`ProtocolStarvation.StarvedByTen`). */
  lemma TenCanBeInFront(w: World)
    requires ValidConfig(w.config)
    ensures exists s, id :: Reachable(w, s) && s.pass == Idle && BehindTen(s, id)
  {
    LateAstralMail();
    PlainMail();
    var stuck, plain := MailFrom(LateAstral()), MailFrom(Rfc822.Letters(1));
    var s := MailPilesUp(w, 10, stuck);
    var t := Arrives(w, s, 10, plain);
    BehindPile(w.config, s, t, stuck, plain);
  }

  // ----- mail that is delivered -------------------------------------------------------------

  lemma WritableEncodes(from: Units, to: Units)
    requires Writable(from, to)
    ensures MetadataEncodes(from, to)
  {
    PartEncodable(from);
    PartEncodable(to);
    Percent.AsciiValueDomain(MetadataPart(from));
    Percent.AsciiValueDomain(MetadataPart(to));
  }

  lemma PartEncodable(address: Units)
    requires Percent.Encodable(address)
    ensures Percent.Encodable(MetadataPart(address))
  {
    assert forall u | u in MetadataPart(address) :: u in address;
  }

  /** A message alone in the queue, due, with the alarm about to fire. */
  ghost predicate Ripe(w: World, s: State, mail: Mail)
    requires ValidConfig(w.config)
  {
    && Reachable(w, s) && s.pass == Idle && s.alarm.Some? && s.alarm.value <= s.now
    && s.rows == map[0 := RowAt(w.config, 0, 0, mail)] && Due(s.rows[0], s.now)
    && 0 in s.h.mail && s.h.mail[0] == mail
    && KeyOf(w.config, 0) in s.bucket && s.bucket[KeyOf(w.config, 0)] == mail.stored
  }

  lemma Ripens(w: World, mail: Mail) returns (t: State)
    requires ValidConfig(w.config) && Admissible(mail) && Writable(mail.from, mail.to)
    ensures Ripe(w, t, mail)
  {
    WritableEncodes(mail.from, mail.to);
    EmptyReachable(w);
    var queued := Arrives(w, Empty(), 0, mail);
    t := Waits(w, queued, w.config.deliveryDelayMs);
    LeadsReachable(w, queued, t);
    LeadsKeepsPromises(w, queued, t);
  }

  lemma RipeBatch(w: World, s: State, mail: Mail)
    requires ValidConfig(w.config) && Ripe(w, s, mail)
    ensures IsDueBatch(s.rows, s.now, ALARM_BATCH, [s.rows[0]])
  {
  }

  /** One exchange that Odoo answers with a 200. */
  function TakenAt(now: int): seq<Q.Exchange> {
    [Q.Responds(now, Some(200), "", None)]
  }

  lemma OneExchanged(c: Config, rows: Table, objects: map<Key, Octets>, row: Row, now: int)
    requires ValidConfig(c) && row.id in rows && rows[row.id] == row && row.status == Pending && row.r2Key in objects
    ensures var after := Q.AllExchanged(c, rows, objects, [row], TakenAt(now));
            row.id in after && after[row.id].status == Status.Delivered
  {
    assert [row][..0] == [];
    assert Q.AllExchanged(c, rows, objects, [row], TakenAt(now)) == Q.Exchanged(c, rows, objects, row, TakenAt(now)[0]);
  }

  lemma RipeIsTaken(w: World, s: State, mail: Mail) returns (t: State)
    requires ValidConfig(w.config) && Ripe(w, s, mail) && Writable(mail.from, mail.to)
    ensures Leads(w, s, t) && 0 in t.rows && t.rows[0].status == Status.Delivered
  {
    RipeBatch(w, s, mail);
    var row := s.rows[0];
    assert AllPlausible(s.bucket, [row], TakenAt(s.now), s.now);
    t := DeliveryRuns(w, s, Some(w.config), [row], TakenAt(s.now));
    OneExchanged(w.config, s.rows, s.bucket, row, s.now);
  }

  /** Some run delivers this mail. */
  ghost predicate CanBeDelivered(w: World, mail: Mail)
    requires ValidConfig(w.config)
  {
    exists s, id :: Reachable(w, s) && id in s.h.delivered && id in s.h.mail && s.h.mail[id] == mail
  }

  lemma WritableIs(mail: Mail)
    ensures Writable(mail.from, mail.to) <==> Clean(mail.from, |mail.from|) && Clean(mail.to, |mail.to|)
  {
    EncodableIsClean(mail.from);
    EncodableIsClean(mail.to);
  }

  lemma EncodableIsClean(address: Units)
    ensures Percent.Encodable(address) <==> Clean(address, |address|)
  {
    Percent.AsciiValueDomain(address);
    assert forall i | 0 <= i < |address| :: address[i] in address;
  }

  /** A message that can be stored is delivered in some run exactly when neither address has a surrogate in it. */
  lemma DeliveredIff(w: World, mail: Mail)
    requires ValidConfig(w.config) && Admissible(mail)
    ensures CanBeDelivered(w, mail) <==> Clean(mail.from, |mail.from|) && Clean(mail.to, |mail.to|)
  {
    WritableIs(mail);
    if s, id :| Reachable(w, s) && id in s.h.delivered && id in s.h.mail && s.h.mail[id] == mail {
      if !Writable(mail.from, mail.to) {
        AstralMailIsNeverDelivered(w, s, id);
      }
    }
    if Writable(mail.from, mail.to) {
      var ripe := Ripens(w, mail);
      var t := RipeIsTaken(w, ripe, mail);
      LeadsReachable(w, ripe, t);
      LeadsKeepsPromises(w, ripe, t);
      DeliveredRowIsDelivered(w, t, 0);
    }
  }

  // ----- mail that is posted twice ----------------------------------------------------------

  lemma CutOff(w: World, s: State) returns (t: State)
    requires ValidConfig(w.config) && s.pass != Idle
    ensures Still(w, s, t) && t.now == s.now && t.odoo == s.odoo && t.pass == Idle && t.alarm == Some(s.now)
  {
    t := OneStep(w, s, Evict(s.now));
  }

  /** The attempt up to its POST. */
  lemma RipeIsPosted(w: World, s: State, mail: Mail) returns (t: State)
    requires ValidConfig(w.config) && Ripe(w, s, mail) && Writable(mail.from, mail.to)
    ensures Leads(w, s, t) && t.rows == s.rows && t.bucket == s.bucket && t.now == s.now && t.odoo == s.odoo
    ensures t.pass != Idle && (exists r :: r in t.requests && t.requests[r].id == 0)
  {
    RipeBatch(w, s, mail);
    var fired := Fires(w, s, [s.rows[0]], false);
    var read := Reads(w, fired);
    LeadsJoin(w, s, fired, read);
    var req := FreshNumber(read.requests.Keys);
    t := Posts(w, read, req);
    LeadsJoin(w, s, read, t);
  }

  /** A pass that pushes the message, Odoo taking it, and is cut off before it hears so. */
  lemma RipeIsPushed(w: World, s: State, mail: Mail) returns (t: State)
    requires ValidConfig(w.config) && Ripe(w, s, mail) && Writable(mail.from, mail.to)
    requires w.mid(mail.stored).None?
    ensures Ripe(w, t, mail) && t.odoo.log == s.odoo.log + [mail.stored]
  {
    var posted := RipeIsPosted(w, s, mail);
    LeadsReachable(w, s, posted);
    LeadsKeepsPromises(w, s, posted);
    var req :| req in posted.requests && posted.requests[req].id == 0;
    var served := Serves(w, posted, req);
    LeadsJoin(w, s, posted, served);
    t := CutOff(w, served);
    LeadsJoin(w, s, served, t);
    LeadsReachable(w, s, t);
    LeadsKeepsPromises(w, s, t);
  }

  /** Some run has Odoo post this mail's octets twice. */
  ghost predicate CanBePostedTwice(w: World, mail: Mail)
    requires ValidConfig(w.config)
  {
    exists s :: Reachable(w, s) && Twice(s.odoo.log, mail.stored)
  }

  predicate Twice(log: seq<Octets>, m: Octets) {
    exists i, j :: 0 <= i < j < |log| && log[i] == m && log[j] == m
  }

  lemma PushedTwice(w: World, mail: Mail) returns (t: State)
    requires ValidConfig(w.config) && Admissible(mail) && Writable(mail.from, mail.to)
    requires w.mid(mail.stored).None?
    ensures Reachable(w, t) && Twice(t.odoo.log, mail.stored)
  {
    var ripe := Ripens(w, mail);
    var first := RipeIsPushed(w, ripe, mail);
    t := RipeIsPushed(w, first, mail);
    LogEndsTwice(ripe.odoo.log, mail.stored, t.odoo.log);
  }

  lemma LogEndsTwice(log: seq<Octets>, m: Octets, log': seq<Octets>)
    requires log' == log + [m] + [m]
    ensures Twice(log', m)
  {
    assert log'[|log|] == m && log'[|log| + 1] == m;
  }

  lemma PostedTwiceHasNoId(w: World, s: State, m: Octets)
    requires ValidConfig(w.config) && Reachable(w, s) && Twice(s.odoo.log, m)
    ensures w.mid(m).None?
  {
    var i: nat, j: nat :| i < j < |s.odoo.log| && s.odoo.log[i] == m && s.odoo.log[j] == m;
    PostedOnceAndOnlyFromQueue(w, s, i, j);
  }

  /**
   * Whether a retried push is harmless. A message that can be delivered is posted twice in some run, by
   * a push retried after Odoo had taken it, exactly when Odoo reads no Message-Id in it.
   */
  lemma PostedTwiceIff(w: World, mail: Mail)
    requires ValidConfig(w.config) && Admissible(mail) && Writable(mail.from, mail.to)
    ensures CanBePostedTwice(w, mail) <==> w.mid(mail.stored).None?
  {
    if s :| Reachable(w, s) && Twice(s.odoo.log, mail.stored) {
      PostedTwiceHasNoId(w, s, mail.stored);
    }
    if w.mid(mail.stored).None? {
      var t := PushedTwice(w, mail);
    }
  }
}
