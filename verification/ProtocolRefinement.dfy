/**
 * The class and the step relation agree: a pass of `InboxQueue.Queue.Alarm` with nothing in between, and
 * a `Remove`, are runs of `Protocol`.
 */
module ProtocolRefinement {
  import opened Wrappers
  import opened InboxRows
  import opened Protocol
  import opened ProtocolTheorems
  import opened ProtocolStarvation
  import Backoff
  import OdooController
  import Percent
  import ProtocolWire
  import Q = InboxQueue

  /** A run has come to `t`, the table and the bucket being as they were, and the pass no less healthy. */
  ghost predicate Still(w: World, s: State, t: State)
    requires ValidConfig(w.config)
  {
    Leads(w, s, t) && t.rows == s.rows && t.bucket == s.bucket && t.healthy == s.healthy
  }

  lemma OneStep(w: World, s: State, step: Step) returns (t: State)
    requires ValidConfig(w.config) && Enabled(w, s, step)
    ensures t == Next(w, s, step) && Leads(w, s, t)
  {
    LeadsNowhere(w, s);
    LeadsOn(w, s, s, step);
    t := Next(w, s, step);
  }

  // ----- the steps of one exchange ----------------------------------------------------------

  lemma Waits(w: World, s: State, until: int) returns (t: State)
    requires ValidConfig(w.config) && s.now <= until
    ensures Still(w, s, t) && t.now == until && t.pass == s.pass && t.alarm == s.alarm && t.odoo == s.odoo
  {
    t := OneStep(w, s, Tick(until));
  }

  lemma Reads(w: World, s: State) returns (t: State)
    requires ValidConfig(w.config) && AtStage(s) && s.pass.stage == Fetching
    ensures Still(w, s, t) && t.now == s.now && t.odoo == s.odoo
    ensures var key := Current(s).r2Key;
            t.pass == s.pass.(stage := if key in s.bucket then Reading(s.bucket[key]) else Missing)
  {
    t := OneStep(w, s, GetObject);
  }

  lemma Posts(w: World, s: State, req: nat) returns (t: State)
    requires ValidConfig(w.config) && AtStage(s) && s.pass.stage.Reading? && req !in s.requests
    requires Writable(Current(s).from, Current(s).to)
    ensures Still(w, s, t) && t.now == s.now && t.odoo == s.odoo && t.pass == s.pass.(stage := Posted(req))
    ensures req in t.requests && t.requests[req].id == Current(s).id
  {
    Percent.AsciiValueDomain(Current(s).from);
    Percent.AsciiValueDomain(Current(s).to);
    t := OneStep(w, s, Post(req));
  }

  /** The stored message a request carries. */
  function Carried(s: State, req: nat): Octets
    requires req in s.requests && s.requests[req].id in s.h.mail
  {
    s.h.mail[s.requests[req].id].stored
  }

  /** Odoo can always take a request of the Worker's; it answers with a 200, and posts what is new to it. */
  lemma ServedWith200(w: World, s: State, req: nat)
    requires ValidConfig(w.config) && Reachable(w, s) && req in s.requests
    ensures s.requests[req].id in s.h.mail
    ensures var served := Service(w, s, OdooHandles(req, true, true, OdooController.Routed(1)));
            && served.answer.Some? && served.answer.value.status == 200
            && (w.mid(Carried(s, req)).None? ==> served.db.log == s.odoo.log + [Carried(s, req)])
  {
    ReachableInv(w, s);
    ProtocolWire.RequestArrivesIntact(s, s.requests[req]);
  }

  lemma Serves(w: World, s: State, req: nat) returns (t: State)
    requires ValidConfig(w.config) && Reachable(w, s) && req in s.requests
    ensures Still(w, s, t) && t.now == s.now && t.pass == s.pass && (req, 200) in t.answers
    ensures s.requests[req].id in s.h.mail
    ensures w.mid(Carried(s, req)).None? ==> t.odoo.log == s.odoo.log + [Carried(s, req)]
  {
    ServedWith200(w, s, req);
    t := OneStep(w, s, OdooHandles(req, true, true, OdooController.Routed(1)));
  }

  lemma Answers(w: World, s: State, status: Option<int>) returns (t: State)
    requires ValidConfig(w.config) && AtStage(s) && s.pass.stage.Posted?
    requires status.Some? && Backoff.ClassifyStatus(status.value) == Backoff.Delivered ==>
               (s.pass.stage.req, status.value) in s.answers
    ensures Still(w, s, t) && t.now == s.now && t.pass == s.pass.(stage := Answered(status))
  {
    t := OneStep(w, s, Response(status));
  }

  lemma Ends(w: World, s: State, text: string, thread: Option<int>) returns (t: State)
    requires ValidConfig(w.config) && Settling(s)
    ensures Leads(w, s, t) && t.bucket == s.bucket && t.healthy == s.healthy && t.now == s.now
    ensures t.pass == Advance(s.pass)
    ensures t.rows == SettleRow(w.config, s.rows, Current(s).id, Current(s).attempts + 1,
                                StageEnding(s.pass.stage, text, thread), s.now)
  {
    t := OneStep(w, s, Settle(text, thread));
  }

  lemma GivesUp(w: World, s: State) returns (t: State)
    requires ValidConfig(w.config) && AtStage(s)
    ensures Still(w, s, t) && t.now == s.now && t.pass == Advance(s.pass)
  {
    t := OneStep(w, s, DeliverThrows);
  }

  lemma StillJoin(w: World, s: State, u: State, t: State)
    requires ValidConfig(w.config) && Still(w, s, u) && Still(w, u, t)
    ensures Still(w, s, t)
  {
    LeadsJoin(w, s, u, t);
  }

  // ----- one exchange -----------------------------------------------------------------------

  /** An exchange the network and Odoo can come to, for a row whose attempt starts at `now`. */
  predicate Plausible(objects: map<Key, Octets>, row: Row, x: Q.Exchange, now: int) {
    match x
    case Throws => true
    case Responds(at, status, _, _) =>
      && now <= at
      && (row.r2Key in objects ==>
            && Writable(row.from, row.to)
            && (status.Some? && Backoff.ClassifyStatus(status.value) == Backoff.Delivered ==> status == Some(200)))
  }

  function Ended(x: Q.Exchange, now: int): int {
    match x
    case Throws => now
    case Responds(at, _, _, _) => at
  }

  lemma FreshNumber(used: set<nat>) returns (n: nat)
    ensures forall k | k in used :: k < n
  {
    if used == {} {
      n := 0;
    } else {
      var k :| k in used;
      var m := FreshNumber(used - {k});
      n := if k < m then m else k + 1;
      assert forall j | j in used :: j == k || j in used - {k};
    }
  }

  /** From the object at hand to a response at hand. */
  lemma Responded(w: World, s: State, status: Option<int>) returns (t: State)
    requires ValidConfig(w.config) && Reachable(w, s) && AtStage(s) && s.pass.stage.Reading?
    requires Writable(Current(s).from, Current(s).to)
    requires status.Some? && Backoff.ClassifyStatus(status.value) == Backoff.Delivered ==> status == Some(200)
    ensures Still(w, s, t) && t.now == s.now && t.pass == s.pass.(stage := Answered(status))
  {
    var req := FreshNumber(s.requests.Keys);
    var posted := Posts(w, s, req);
    LeadsReachable(w, s, posted);
    var served := Serves(w, posted, req);
    StillJoin(w, s, posted, served);
    t := Answers(w, served, status);
    StillJoin(w, s, served, t);
  }

  /** From the row's turn to something to settle. */
  lemma Attempted(w: World, s: State, status: Option<int>) returns (t: State)
    requires ValidConfig(w.config) && Reachable(w, s) && AtStage(s) && s.pass.stage == Fetching
    requires Current(s).r2Key in s.bucket ==>
               && Writable(Current(s).from, Current(s).to)
               && (status.Some? && Backoff.ClassifyStatus(status.value) == Backoff.Delivered ==> status == Some(200))
    ensures Still(w, s, t) && t.now == s.now
    ensures t.pass == s.pass.(stage := if Current(s).r2Key in s.bucket then Answered(status) else Missing)
  {
    var read := Reads(w, s);
    if Current(s).r2Key in s.bucket {
      LeadsReachable(w, s, read);
      t := Responded(w, read, status);
      StillJoin(w, s, read, t);
    } else {
      t := read;
    }
  }

  lemma Ready(w: World, s: State, status: Option<int>, at: int) returns (t: State)
    requires ValidConfig(w.config) && Reachable(w, s) && AtStage(s) && s.pass.stage == Fetching && s.now <= at
    requires Current(s).r2Key in s.bucket ==>
               && Writable(Current(s).from, Current(s).to)
               && (status.Some? && Backoff.ClassifyStatus(status.value) == Backoff.Delivered ==> status == Some(200))
    ensures Still(w, s, t) && t.now == at
    ensures t.pass == s.pass.(stage := if Current(s).r2Key in s.bucket then Answered(status) else Missing)
  {
    var attempted := Attempted(w, s, status);
    t := Waits(w, attempted, at);
    StillJoin(w, s, attempted, t);
  }

  /** What the attempt is settled with. */
  function EndingFor(objects: map<Key, Octets>, row: Row, status: Option<int>, text: string, thread: Option<int>)
    : Ending
  {
    if row.r2Key in objects then EndingOf(status, text, thread) else MISSING_ENDING
  }

  /** The attempt on `row` is settled, and the pass has moved on. */
  ghost predicate Concluded(w: World, s: State, t: State, row: Row, ending: Ending, at: int)
    requires ValidConfig(w.config)
  {
    && Leads(w, s, t) && t.bucket == s.bucket && t.healthy == s.healthy && t.now == at
    && s.pass.Delivering? && t.pass == Advance(s.pass)
    && t.rows == SettleRow(w.config, s.rows, row.id, row.attempts + 1, ending, at)
  }

  lemma EndsWith(w: World, s: State, row: Row, status: Option<int>, text: string, thread: Option<int>)
      returns (t: State)
    requires ValidConfig(w.config) && AtStage(s) && row == Current(s)
    requires s.pass.stage == if row.r2Key in s.bucket then Answered(status) else Missing
    ensures Concluded(w, s, t, row, EndingFor(s.bucket, row, status, text, thread), s.now)
  {
    t := Ends(w, s, text, thread);
  }

  lemma ConcludedFrom(w: World, s: State, u: State, t: State, row: Row, ending: Ending, at: int)
    requires ValidConfig(w.config) && Still(w, s, u) && Concluded(w, u, t, row, ending, at)
    requires s.pass.Delivering? && u.pass == s.pass.(stage := u.pass.stage)
    ensures Concluded(w, s, t, row, ending, at)
  {
    LeadsJoin(w, s, u, t);
  }

  lemma RespondsRuns(w: World, s: State, at: int, status: Option<int>, text: string, thread: Option<int>)
      returns (t: State)
    requires ValidConfig(w.config) && Reachable(w, s) && AtStage(s) && s.pass.stage == Fetching && s.now <= at
    requires Current(s).r2Key in s.bucket ==>
               && Writable(Current(s).from, Current(s).to)
               && (status.Some? && Backoff.ClassifyStatus(status.value) == Backoff.Delivered ==> status == Some(200))
    ensures Concluded(w, s, t, Current(s), EndingFor(s.bucket, Current(s), status, text, thread), at)
  {
    var ready := Ready(w, s, status, at);
    t := EndsWith(w, ready, Current(s), status, text, thread);
    ConcludedFrom(w, s, ready, t, Current(s), EndingFor(s.bucket, Current(s), status, text, thread), at);
  }

  /** An exchange of the class is a run of the protocol. */
  lemma ExchangeRuns(w: World, s: State, x: Q.Exchange) returns (t: State)
    requires ValidConfig(w.config) && Reachable(w, s) && AtStage(s) && s.pass.stage == Fetching
    requires Plausible(s.bucket, Current(s), x, s.now)
    ensures Leads(w, s, t) && t.bucket == s.bucket && t.healthy == s.healthy
    ensures t.now == Ended(x, s.now) && t.pass == Advance(s.pass)
    ensures t.rows == Q.Exchanged(w.config, s.rows, s.bucket, Current(s), x)
  {
    match x {
      case Throws => t := GivesUp(w, s);
      case Responds(at, status, text, thread) => t := RespondsRuns(w, s, at, status, text, thread);
    }
  }

  // ----- the batch --------------------------------------------------------------------------

  /** When the n-th exchange is over. */
  function After(now: int, xs: seq<Q.Exchange>, n: nat): int
    requires n <= |xs|
  {
    if n == 0 then now else Ended(xs[n - 1], After(now, xs, n - 1))
  }

  predicate AllPlausible(objects: map<Key, Octets>, due: seq<Row>, xs: seq<Q.Exchange>, now: int)
    requires |due| <= |xs|
  {
    forall i | 0 <= i < |due| :: Plausible(objects, due[i], xs[i], After(now, xs, i))
  }

  /** Where the pass is after n rows of its batch. */
  function PassAfter(due: seq<Row>, n: nat): Pass {
    if n < |due| then Delivering(due, n, Fetching) else Sweeping
  }

  lemma AllExchangedNext(c: Config, rows: Table, objects: map<Key, Octets>, due: seq<Row>, xs: seq<Q.Exchange>, n: nat)
    requires ValidConfig(c) && n < |due| <= |xs|
    ensures Q.AllExchanged(c, rows, objects, due[..n + 1], xs) ==
            Q.Exchanged(c, Q.AllExchanged(c, rows, objects, due[..n], xs), objects, due[n], xs[n])
  {
    assert due[..n + 1][..n] == due[..n];
  }

  /** The state of the pass after n rows of its batch. */
  ghost predicate BatchDone(w: World, s: State, due: seq<Row>, xs: seq<Q.Exchange>, n: nat, t: State)
    requires ValidConfig(w.config) && n <= |due| <= |xs|
  {
    && Leads(w, s, t) && t.bucket == s.bucket && t.healthy == s.healthy
    && t.now == After(s.now, xs, n) && t.pass == PassAfter(due, n)
    && t.rows == Q.AllExchanged(w.config, s.rows, s.bucket, due[..n], xs)
  }

  lemma BatchRunsOn(w: World, s: State, due: seq<Row>, xs: seq<Q.Exchange>, n: nat, before: State) returns (t: State)
    requires ValidConfig(w.config) && Reachable(w, s) && n < |due| <= |xs| && BatchDone(w, s, due, xs, n, before)
    requires AllPlausible(s.bucket, due, xs, s.now)
    ensures BatchDone(w, s, due, xs, n + 1, t)
  {
    assert Plausible(s.bucket, due[n], xs[n], After(s.now, xs, n));
    LeadsReachable(w, s, before);
    t := ExchangeRuns(w, before, xs[n]);
    LeadsJoin(w, s, before, t);
    AllExchangedNext(w.config, s.rows, s.bucket, due, xs, n);
  }

  lemma NothingDone(w: World, s: State, due: seq<Row>, xs: seq<Q.Exchange>)
    requires ValidConfig(w.config) && |due| <= |xs| && s.pass == PassAfter(due, 0)
    ensures BatchDone(w, s, due, xs, 0, s)
  {
    LeadsNowhere(w, s);
    assert due[..0] == [];
  }

  lemma BatchRuns(w: World, s: State, due: seq<Row>, xs: seq<Q.Exchange>) returns (t: State)
    requires ValidConfig(w.config) && Reachable(w, s) && |due| <= |xs| && AllPlausible(s.bucket, due, xs, s.now)
    requires s.pass == PassAfter(due, 0)
    ensures BatchDone(w, s, due, xs, |due|, t)
  {
    NothingDone(w, s, due, xs);
    t := s;
    for n := 0 to |due|
      invariant BatchDone(w, s, due, xs, n, t)
    {
      t := BatchRunsOn(w, s, due, xs, n, t);
    }
  }

  lemma Fires(w: World, s: State, due: seq<Row>, fault: bool) returns (t: State)
    requires ValidConfig(w.config) && s.pass == Idle && s.alarm.Some? && s.alarm.value <= s.now
    requires IsDueBatch(s.rows, s.now, ALARM_BATCH, due)
    ensures Leads(w, s, t) && t.rows == s.rows && t.bucket == s.bucket && t.now == s.now && t.odoo == s.odoo
    ensures t.healthy == (due == [] || !fault) && t.pass == if fault then Sweeping else PassAfter(due, 0)
  {
    t := OneStep(w, s, AlarmFires(due, fault));
  }

  /** The table after the delivery phase. */
  function Delivered(config: Option<Config>, rows: Table, objects: map<Key, Octets>, due: seq<Row>,
                     xs: seq<Q.Exchange>): Table
    requires (config.Some? ==> ValidConfig(config.value)) && |due| <= |xs|
  {
    if config.Some? then Q.AllExchanged(config.value, rows, objects, due, xs) else rows
  }

  lemma DeliveryRuns(w: World, s: State, config: Option<Config>, due: seq<Row>, xs: seq<Q.Exchange>) returns (t: State)
    requires ValidConfig(w.config) && Reachable(w, s) && (config.Some? ==> config.value == w.config)
    requires s.pass == Idle && s.alarm.Some? && s.alarm.value <= s.now
    requires IsDueBatch(s.rows, s.now, ALARM_BATCH, due) && |due| <= |xs| && AllPlausible(s.bucket, due, xs, s.now)
    ensures Leads(w, s, t) && t.bucket == s.bucket && t.pass == Sweeping
    ensures t.healthy == (due == [] || config.Some?)
    ensures t.now == if config.Some? then After(s.now, xs, |due|) else s.now
    ensures t.rows == Delivered(config, s.rows, s.bucket, due, xs)
  {
    var fired := Fires(w, s, due, config.None?);
    if config.None? {
      t := fired;
    } else {
      LeadsReachable(w, s, fired);
      t := BatchRuns(w, fired, due, xs);
      LeadsJoin(w, s, fired, t);
      assert due[..|due|] == due;
    }
  }

  // ----- purge and re-arm -------------------------------------------------------------------

  lemma PurgeSelects(w: World, s: State, doomed: seq<Doomed>) returns (t: State)
    requires ValidConfig(w.config) && s.pass == Sweeping && IsDoomedBatch(s.rows, s.now, PURGE_BATCH, doomed)
    ensures Still(w, s, t) && t.now == s.now && t.pass == if doomed == [] then Rearming else Purging(doomed)
  {
    t := OneStep(w, s, PurgeSelect(doomed, false));
  }

  lemma PurgeErases(w: World, s: State, gone: set<Key>, threw: bool) returns (t: State)
    requires ValidConfig(w.config) && s.pass.Purging?
    requires gone <= DoomedKeys(s.pass.doomed) && (threw || gone == DoomedKeys(s.pass.doomed))
    ensures Leads(w, s, t) && t.rows == s.rows && t.bucket == s.bucket - gone && t.now == s.now
    ensures t.healthy == (s.healthy && !threw) && t.pass == if threw then Rearming else Purged(s.pass.doomed)
  {
    t := OneStep(w, s, PurgeErase(gone, threw));
  }

  lemma PurgesRows(w: World, s: State) returns (t: State)
    requires ValidConfig(w.config) && s.pass.Purged?
    ensures Leads(w, s, t) && t.rows == PurgeRows(s.rows, s.pass.doomed) && t.bucket == s.bucket
    ensures t.now == s.now && t.healthy == s.healthy && t.pass == Rearming
  {
    t := OneStep(w, s, PurgeRowsStep);
  }

  lemma PurgeRuns(w: World, s: State, doomed: seq<Doomed>, took: set<Key>, fails: bool) returns (t: State)
    requires ValidConfig(w.config) && s.pass == Sweeping && IsDoomedBatch(s.rows, s.now, PURGE_BATCH, doomed)
    ensures var purged := doomed == [] || !fails;
            && Leads(w, s, t) && t.now == s.now && t.pass == Rearming && t.healthy == (s.healthy && purged)
            && t.rows == (if purged then PurgeRows(s.rows, doomed) else s.rows)
            && t.bucket == s.bucket - (if purged then DoomedKeys(doomed) else took * DoomedKeys(doomed))
  {
    var selected := PurgeSelects(w, s, doomed);
    if doomed == [] {
      t := selected;
      assert PurgeRows(s.rows, doomed) == s.rows;
      assert s.bucket - DoomedKeys(doomed) == s.bucket;
    } else {
      var gone := if fails then took * DoomedKeys(doomed) else DoomedKeys(doomed);
      var erased := PurgeErases(w, selected, gone, fails);
      LeadsJoin(w, s, selected, erased);
      if fails {
        t := erased;
      } else {
        t := PurgesRows(w, erased);
        LeadsJoin(w, s, erased, t);
      }
    }
  }

  lemma Rearms(w: World, s: State, alarm: Option<int>) returns (t: State)
    requires ValidConfig(w.config) && s.pass == Rearming
    requires if s.healthy then IsEarliest(s.rows, alarm) else alarm == Some(s.now + ALARM_RETRY_MS)
    ensures Leads(w, s, t) && t.rows == s.rows && t.bucket == s.bucket && t.pass == Idle && t.alarm == alarm
  {
    var next := if s.healthy then alarm else Earliest(s.rows);
    t := OneStep(w, s, Rearm(next));
  }

  /** Every table has an earliest wake-up, or none. */
  ghost function Earliest(rows: Table): (m: Option<int>)
    ensures IsEarliest(rows, m)
  {
    if forall id | id in rows :: Wake(rows[id]).None? then None
    else
      var id :| id in rows && Wake(rows[id]).Some?;
      var rest := Earliest(rows - {id});
      EarliestOf(rows, id, rest);
      if rest.Some? && rest.value < Wake(rows[id]).value then rest else Wake(rows[id])
  }

  lemma EarliestOf(rows: Table, id: Id, rest: Option<int>)
    requires id in rows && Wake(rows[id]).Some? && IsEarliest(rows - {id}, rest)
    ensures IsEarliest(rows, if rest.Some? && rest.value < Wake(rows[id]).value then rest else Wake(rows[id]))
  {
    var m := if rest.Some? && rest.value < Wake(rows[id]).value then rest else Wake(rows[id]);
    if rest.Some? {
      var first :| first in rows - {id} && Wake((rows - {id})[first]) == rest;
      assert first in rows && Wake(rows[first]) == rest;
    }
    forall other | other in rows && Wake(rows[other]).Some?
      ensures m.value <= Wake(rows[other]).value
    {
      assert other == id || other in rows - {id};
    }
  }

  // ----- the whole pass ---------------------------------------------------------------------

  /** The three times a pass reads its clock, in order and after what came before. */
  predicate Timely(config: Option<Config>, due: seq<Row>, xs: seq<Q.Exchange>, times: (int, int, int))
    requires |due| <= |xs|
  {
    (if config.Some? then After(times.0, xs, |due|) else times.0) <= times.1 <= times.2
  }

  /** The second half of the pass, from the end of the deliveries. */
  lemma SweepRuns(w: World, s: State, times: (int, int, int), doomed: seq<Doomed>, took: set<Key>, fails: bool,
                  alarm: Option<int>) returns (t: State)
    requires ValidConfig(w.config) && s.pass == Sweeping && s.now <= times.1 <= times.2
    requires IsDoomedBatch(s.rows, times.1, PURGE_BATCH, doomed)
    requires var purged := doomed == [] || !fails;
             if s.healthy && purged then IsEarliest(if purged then PurgeRows(s.rows, doomed) else s.rows, alarm)
             else alarm == Some(times.2 + ALARM_RETRY_MS)
    ensures var purged := doomed == [] || !fails;
            && Leads(w, s, t) && t.pass == Idle && t.alarm == alarm
            && t.rows == (if purged then PurgeRows(s.rows, doomed) else s.rows)
            && t.bucket == s.bucket - (if purged then DoomedKeys(doomed) else took * DoomedKeys(doomed))
  {
    var swept := Waits(w, s, times.1);
    var purged := PurgeRuns(w, swept, doomed, took, fails);
    LeadsJoin(w, s, swept, purged);
    var late := Waits(w, purged, times.2);
    LeadsJoin(w, s, purged, late);
    t := Rearms(w, late, alarm);
    LeadsJoin(w, s, late, t);
  }

  /**
   * A pass of the class with nothing in between is a run of the protocol: whatever `Queue.Alarm` may
   * leave behind, for exchanges the network and Odoo can come to, some run leaves too.
   */
  lemma AlarmRuns(w: World, s: State, config: Option<Config>, times: (int, int, int), xs: seq<Q.Exchange>,
                  took: set<Key>, fails: bool, due: seq<Row>, doomed: seq<Doomed>,
                  rows': Table, objects': map<Key, Octets>, alarm': Option<int>)
    requires ValidConfig(w.config) && Reachable(w, s) && (config.Some? ==> config.value == w.config)
    requires s.pass == Idle && s.alarm.Some? && s.alarm.value <= s.now == times.0
    requires IsDueBatch(s.rows, times.0, ALARM_BATCH, due) && |due| <= |xs|
    requires AllPlausible(s.bucket, due, xs, times.0) && Timely(config, due, xs, times)
    requires Q.PassDone(config, s.rows, s.bucket, times, xs, took, fails, due, doomed, rows', objects', alarm')
    ensures exists t :: Leads(w, s, t) && t.pass == Idle && t.rows == rows' && t.bucket == objects' && t.alarm == alarm'
  {
    var delivered := DeliveryRuns(w, s, config, due, xs);
    var t := SweepRuns(w, delivered, times, doomed, took, fails, alarm');
    LeadsJoin(w, s, delivered, t);
  }

  // ----- removal ----------------------------------------------------------------------------

  lemma RemoveStarts(w: World, s: State, call: nat, id: Id) returns (t: State)
    requires ValidConfig(w.config) && id in s.rows && call !in s.removes
    ensures Still(w, s, t) && call in t.removes && t.removes[call] == Removal(id, s.rows[id].r2Key, false)
  {
    t := OneStep(w, s, RemoveStart(call, id));
  }

  lemma RemoveErases(w: World, s: State, call: nat, took: bool, fails: bool) returns (t: State)
    requires ValidConfig(w.config) && call in s.removes && !s.removes[call].erased && (fails || took)
    ensures Leads(w, s, t) && t.rows == s.rows
    ensures t.bucket == s.bucket - if took then {s.removes[call].key} else {}
    ensures !fails ==> call in t.removes && t.removes[call] == s.removes[call].(erased := true)
  {
    t := OneStep(w, s, RemoveErase(call, took, fails));
    assert s.bucket - {} == s.bucket;
  }

  /** So is a `Remove`, failing or not. */
  lemma RemoveRuns(w: World, s: State, id: Id, took: bool, fails: bool) returns (t: State)
    requires ValidConfig(w.config) && id in s.rows && (fails || took)
    ensures Leads(w, s, t) && t.rows == (if fails then s.rows else Without(s.rows, id))
    ensures t.bucket == s.bucket - if took then {s.rows[id].r2Key} else {}
  {
    var call := FreshNumber(s.removes.Keys);
    var started := RemoveStarts(w, s, call, id);
    t := RemoveErases(w, started, call, took, fails);
    LeadsJoin(w, s, started, t);
    if !fails {
      var erased := t;
      t := OneStep(w, erased, RemoveRow(call));
      LeadsJoin(w, s, erased, t);
    }
  }
}
