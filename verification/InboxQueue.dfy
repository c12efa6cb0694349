/** The Durable Object and its email handler (worker/src/inbox-do.ts, worker/src/handlers/email.ts). */
module InboxQueue {
  import opened Text
  import opened Wrappers
  import opened InboxRows
  import opened InboxColumns
  import Backoff
  import Rfc822
  import Ulid

  // ----- the SELECTs' common part -----------------------------------------------------------

  ghost predicate TotalOrder(ids: set<Id>, before: (Id, Id) -> bool) {
    && (forall a, b | a in ids && b in ids && a != b :: before(a, b) || before(b, a))
    && (forall a, b, c | a in ids && b in ids && c in ids && before(a, b) && before(b, c) :: before(a, c))
  }

  /** `ORDER BY ... LIMIT`: the first `limit` of `ids`, in order. */
  ghost predicate FirstOf(ids: set<Id>, before: (Id, Id) -> bool, limit: nat, out: seq<Id>) {
    && |out| <= limit
    && (forall i | 0 <= i < |out| :: out[i] in ids)
    && (forall i, j | 0 <= i < j < |out| :: out[i] != out[j] && before(out[i], out[j]))
    && (forall id | id in ids && id !in out :: |out| == limit && forall i | 0 <= i < |out| :: before(out[i], id))
  }

  method First(ids: set<Id>, before: (Id, Id) -> bool) returns (best: Id)
    requires ids != {} && TotalOrder(ids, before)
    ensures best in ids && forall id | id in ids && id != best :: before(best, id)
  {
    best :| best in ids;
    var left := ids - {best};
    while left != {}
      invariant left < ids && best in ids && best !in left
      invariant forall id | id in ids && id !in left && id != best :: before(best, id)
      decreases left
    {
      var id :| id in left;
      left := left - {id};
      if before(id, best) {
        best := id;
      }
    }
  }

  method TakeFirst(ids: set<Id>, before: (Id, Id) -> bool, limit: nat) returns (out: seq<Id>)
    requires TotalOrder(ids, before)
    ensures FirstOf(ids, before, limit, out)
  {
    out := [];
    var left := ids;
    while left != {} && |out| < limit
      invariant left <= ids && |out| <= limit
      invariant forall i | 0 <= i < |out| :: out[i] in ids && out[i] !in left
      invariant forall id | id in ids :: id in left || id in out
      invariant forall i, j | 0 <= i < j < |out| :: out[i] != out[j] && before(out[i], out[j])
      invariant forall i, id | 0 <= i < |out| && id in left :: before(out[i], id)
      decreases left
    {
      var id := First(left, before);
      out := out + [id];
      left := left - {id};
    }
  }

  // ----- R2 ---------------------------------------------------------------------------------

  /** The bucket binding. A call may fail, with or without having taken effect. */
  class Bucket {
    var objects: map<Key, Octets>

    constructor ()
      ensures objects == map[]
    {
      objects := map[];
    }

    method Put(key: Key, body: Octets, took: bool, fails: bool) returns (ok: bool)
      requires fails || took
      modifies this
      ensures ok == !fails
      ensures objects == if took then old(objects)[key := body] else old(objects)
    {
      if took {
        objects := objects[key := body];
      }
      ok := !fails;
    }

    method Get(key: Key) returns (body: Option<Octets>)
      ensures body == if key in objects then Some(objects[key]) else None
    {
      body := if key in objects then Some(objects[key]) else None;
    }

    method Delete(keys: set<Key>, took: set<Key>, fails: bool) returns (ok: bool)
      requires took <= keys && (fails || took == keys)
      modifies this
      ensures ok == !fails
      ensures objects == old(objects) - took
    {
      objects := objects - took;
      ok := !fails;
    }
  }

  // ----- the queue --------------------------------------------------------------------------

  datatype RetryResult = Requeued | NotFound | AlreadyPending

  /** How one attempt of a pass goes: an exception, or a response (or none) at a moment. */
  datatype Exchange = Throws | Responds(at: int, status: Option<int>, text: string, thread: Option<int>)

  /** The rows `list` shows, newest first. */
  ghost predicate IsListing(rows: Table, status: Option<Status>, cap: nat, out: seq<Row>) {
    && |out| <= cap
    && (forall i | 0 <= i < |out| ::
          out[i].id in rows && rows[out[i].id] == out[i] && (status.Some? ==> out[i].status == status.value))
    && (forall i, j | 0 <= i < j < |out| :: out[i].id > out[j].id)
    && (forall id | id in rows && (status.Some? ==> rows[id].status == status.value) && rows[id] !in out ::
          |out| == cap && forall i | 0 <= i < |out| :: out[i].id > id)
  }

  /** The rows filed under `picked`. */
  function RowsOf(rows: Table, picked: seq<Id>): (r: seq<Row>)
    requires forall i | 0 <= i < |picked| :: picked[i] in rows
    ensures |r| == |picked| && forall i | 0 <= i < |picked| :: r[i] == rows[picked[i]]
  {
    seq(|picked|, i requires 0 <= i < |picked| => rows[picked[i]])
  }

  lemma PickedShown(rows: Table, picked: seq<Id>, id: Id)
    requires forall i | 0 <= i < |picked| :: picked[i] in rows
    requires id in picked
    ensures rows[id] in RowsOf(rows, picked)
  {
    var i :| 0 <= i < |picked| && picked[i] == id;
    assert RowsOf(rows, picked)[i] == rows[id];
  }

  lemma PickedAreListed(rows: Table, status: Option<Status>, cap: nat, ids: set<Id>, picked: seq<Id>)
    requires Keyed(rows)
    requires ids == set id | id in rows && (status.Some? ==> rows[id].status == status.value)
    requires FirstOf(ids, (a: Id, b: Id) => a > b, cap, picked)
    ensures IsListing(rows, status, cap, RowsOf(rows, picked))
  {
    var out := RowsOf(rows, picked);
    forall id | id in ids && rows[id] !in out
      ensures id !in picked
    {
      if id in picked {
        PickedShown(rows, picked, id);
      }
    }
  }

  lemma PickedAreDue(rows: Table, now: int, limit: nat, ids: set<Id>, before: (Id, Id) -> bool, picked: seq<Id>)
    requires Keyed(rows)
    requires ids == set id | id in rows && Due(rows[id], now)
    requires forall a, b | a in ids && b in ids :: before(a, b) == Ahead(rows[a], rows[b])
    requires FirstOf(ids, before, limit, picked)
    ensures IsDueBatch(rows, now, limit, RowsOf(rows, picked))
  {
    var due := RowsOf(rows, picked);
    forall id | id in ids && rows[id] !in due
      ensures id !in picked
    {
      if id in picked {
        PickedShown(rows, picked, id);
      }
    }
  }

  function DoomedAt(rows: Table, picked: seq<Id>): (r: seq<Doomed>)
    requires forall i | 0 <= i < |picked| :: picked[i] in rows && rows[picked[i]].purgeAt.Some?
    ensures |r| == |picked|
    ensures forall i | 0 <= i < |picked| ::
              r[i] == Doomed(picked[i], rows[picked[i]].r2Key, rows[picked[i]].purgeAt.value)
  {
    seq(|picked|, i requires 0 <= i < |picked| =>
      Doomed(picked[i], rows[picked[i]].r2Key, rows[picked[i]].purgeAt.value))
  }

  predicate PurgesBefore(a: Row, b: Row) {
    && a.purgeAt.Some? && b.purgeAt.Some?
    && (a.purgeAt.value < b.purgeAt.value || (a.purgeAt.value == b.purgeAt.value && a.id < b.id))
  }

  lemma PickedAreDoomed(rows: Table, now: int, limit: nat, ids: set<Id>, before: (Id, Id) -> bool, picked: seq<Id>)
    requires Keyed(rows)
    requires ids == set id | id in rows && Expired(rows[id], now)
    requires forall a, b | a in ids && b in ids :: before(a, b) == PurgesBefore(rows[a], rows[b])
    requires FirstOf(ids, before, limit, picked)
    ensures forall i | 0 <= i < |picked| :: picked[i] in rows && rows[picked[i]].purgeAt.Some?
    ensures IsDoomedBatch(rows, now, limit, DoomedAt(rows, picked))
  {
    var doomed := DoomedAt(rows, picked);
    forall id | id in ids && (forall i | 0 <= i < |doomed| :: doomed[i].id != id)
      ensures |doomed| == limit && forall i | 0 <= i < |doomed| :: doomed[i].purgeAt <= rows[id].purgeAt.value
    {
      assert forall i | 0 <= i < |picked| :: doomed[i].id == picked[i];
      assert id !in picked;
      assert forall i | 0 <= i < |picked| :: before(picked[i], id);
    }
  }

  // ----- a pass with nothing in between -----------------------------------------------------

  function Exchanged(c: Config, rows: Table, objects: map<Key, Octets>, row: Row, x: Exchange): Table
    requires c.backoffSeconds != []
  {
    match x
    case Throws => rows
    case Responds(at, status, text, thread) =>
      SettleRow(c, rows, row.id, row.attempts + 1,
                if row.r2Key in objects then EndingOf(status, text, thread) else MISSING_ENDING, at)
  }

  /** The table after every row of the batch has had its exchange. */
  function AllExchanged(c: Config, rows: Table, objects: map<Key, Octets>, due: seq<Row>, xs: seq<Exchange>): Table
    requires c.backoffSeconds != [] && |due| <= |xs|
  {
    if due == [] then rows
    else
      var n := |due| - 1;
      Exchanged(c, AllExchanged(c, rows, objects, due[..n], xs), objects, due[n], xs[n])
  }

  /** Each row of the batch is settled by its own exchange and no other; the rest of the table stands. */
  lemma {:induction false} AllExchangedAt(c: Config, rows: Table, objects: map<Key, Octets>, due: seq<Row>,
                                       xs: seq<Exchange>, id: Id)
    requires c.backoffSeconds != [] && |due| <= |xs|
    requires forall i, j | 0 <= i < j < |due| :: due[i].id != due[j].id
    ensures id in AllExchanged(c, rows, objects, due, xs) <==> id in rows
    ensures id in rows && (forall i | 0 <= i < |due| :: due[i].id != id) ==>
              AllExchanged(c, rows, objects, due, xs)[id] == rows[id]
    ensures forall i | 0 <= i < |due| && due[i].id == id && id in rows ::
              && id in Exchanged(c, rows, objects, due[i], xs[i])
              && AllExchanged(c, rows, objects, due, xs)[id] == Exchanged(c, rows, objects, due[i], xs[i])[id]
  {
    if due == [] {
    } else {
      var n := |due| - 1;
      AllExchangedAt(c, rows, objects, due[..n], xs, id);
      assert forall i | 0 <= i < n :: due[..n][i] == due[i];
    }
  }

  /** What one pass of the alarm comes to: the batch it took, what it purged, and what it leaves. */
  ghost predicate PassDone(config: Option<Config>, rows: Table, objects: map<Key, Octets>, times: (int, int, int),
                           xs: seq<Exchange>, took: set<Key>, fails: bool, due: seq<Row>, doomed: seq<Doomed>,
                           rows': Table, objects': map<Key, Octets>, alarm': Option<int>)
    requires (config.Some? ==> ValidConfig(config.value)) && |due| <= |xs|
  {
    var delivered := if config.Some? then AllExchanged(config.value, rows, objects, due, xs) else rows;
    var purged := doomed == [] || !fails;
    && IsDoomedBatch(delivered, times.1, 100, doomed)
    && rows' == (if purged then PurgeRows(delivered, doomed) else delivered)
    && objects' == objects - (if purged then DoomedKeys(doomed) else took * DoomedKeys(doomed))
    && (if purged && (due == [] || config.Some?) then IsEarliest(rows', alarm')
        else alarm' == Some(times.2 + 60_000))
  }

  /** What an exchange makes of the row it is for. */
  ghost predicate AttemptMade(c: Config, there: bool, row: Row, attempt: nat, x: Exchange, row': Row)
    requires c.backoffSeconds != []
  {
    match x
    case Throws => row' == row
    case Responds(at, status, text, thread) =>
      Attempted(c, row, attempt, EndsWith(there, status, text, thread), at, row')
  }

  /**
   * A pass row by row: each row of the batch has had its own attempt and no other row has changed; on a
   * broken configuration none has. What is no longer there was picked by the purge.
   */
  ghost predicate PassColumns(config: Option<Config>, rows: Table, objects: map<Key, Octets>, xs: seq<Exchange>,
                              due: seq<Row>, doomed: seq<Doomed>, rows': Table)
    requires (config.Some? ==> ValidConfig(config.value)) && |due| <= |xs|
  {
    && rows'.Keys <= rows.Keys
    && (forall id | id in rows && id !in rows' :: exists i :: 0 <= i < |doomed| && doomed[i].id == id)
    && (forall id | id in rows' && (config.None? || forall i | 0 <= i < |due| :: due[i].id != id) ::
          rows'[id] == rows[id])
    && forall i | 0 <= i < |due| && due[i].id in rows' && config.Some? ::
         AttemptMade(config.value, due[i].r2Key in objects, rows[due[i].id], due[i].attempts + 1, xs[i],
                     rows'[due[i].id])
  }

  lemma ExchangeColumns(c: Config, rows: Table, objects: map<Key, Octets>, row: Row, x: Exchange)
    requires c.backoffSeconds != [] && row.id in rows
    ensures row.id in Exchanged(c, rows, objects, row, x)
    ensures AttemptMade(c, row.r2Key in objects, rows[row.id], row.attempts + 1, x,
                        Exchanged(c, rows, objects, row, x)[row.id])
  {
    if x.Responds? {
      EndingIs(x.status, x.text, x.thread);
      SettleColumns(c, rows, row.id, row.attempts + 1, EndsWith(row.r2Key in objects, x.status, x.text, x.thread),
                    x.at);
    }
  }

  lemma PassIs(config: Option<Config>, rows: Table, objects: map<Key, Octets>, xs: seq<Exchange>, due: seq<Row>,
               doomed: seq<Doomed>, delivered: Table, rows': Table, now: int)
    requires (config.Some? ==> ValidConfig(config.value)) && |due| <= |xs| && Keyed(rows)
    requires IsDueBatch(rows, now, 10, due)
    requires delivered == if config.Some? then AllExchanged(config.value, rows, objects, due, xs) else rows
    requires rows' == PurgeRows(delivered, doomed) || rows' == delivered
    ensures PassColumns(config, rows, objects, xs, due, doomed, rows')
  {
    if config.Some? {
      forall id | id in delivered || id in rows
        ensures id in delivered && id in rows
        ensures (forall i | 0 <= i < |due| :: due[i].id != id) ==> delivered[id] == rows[id]
      {
        AllExchangedAt(config.value, rows, objects, due, xs, id);
      }
      forall i | 0 <= i < |due|
        ensures due[i].id in delivered && due[i].id in rows
        ensures AttemptMade(config.value, due[i].r2Key in objects, rows[due[i].id], due[i].attempts + 1, xs[i],
                            delivered[due[i].id])
      {
        AllExchangedAt(config.value, rows, objects, due, xs, due[i].id);
        ExchangeColumns(config.value, rows, objects, due[i], xs[i]);
      }
    }
  }

  class Queue {
    var rows: Table
    var alarmAt: Option<int>

    /** The primary key: every row is filed under its own id. */
    ghost predicate Valid()
      reads this
    {
      Keyed(rows)
    }

    constructor ()
      ensures Valid() && rows == map[] && alarmAt == None
    {
      rows, alarmAt := map[], None;
    }

    method ArmNoLaterThan(at: int)
      modifies this`alarmAt
      ensures alarmAt == NoLater(old(alarmAt), at)
    {
      if alarmAt.None? || at < alarmAt.value {
        alarmAt := Some(at);
      }
    }

    method Enqueue(input: EnqueueInput, now: int, config: Option<Config>) returns (inserted: bool)
      requires Valid()
      modifies this
      ensures Valid()
      ensures inserted <==> input.id !in old(rows)
      ensures rows == InsertOrIgnore(old(rows), input, now + Delay(config))
      ensures Inserted(old(rows), input, config, now, rows)
      ensures alarmAt == if inserted then NoLater(old(alarmAt), now + Delay(config)) else old(alarmAt)
    {
      var nextAttemptAt := now + Delay(config);
      InsertColumns(rows, input, config, now);
      inserted := input.id !in rows;
      if !inserted {
        return;
      }
      rows := rows[input.id := NewRow(input, nextAttemptAt)];
      ArmNoLaterThan(nextAttemptAt);
    }

    method Get(id: Id) returns (row: Option<Row>)
      ensures row == if id in rows then Some(rows[id]) else None
    {
      row := if id in rows then Some(rows[id]) else None;
    }

    /** `list`: ids sort as their numbers (`Ulid.IdOrder`), so a greater id is a newer one. */
    method List(status: Option<Status>, limit: int) returns (out: seq<Row>)
      requires Valid()
      ensures IsListing(rows, status, if limit < 1 then 1 else if limit > 1000 then 1000 else limit, out)
    {
      var cap: nat := Backoff.Min(Backoff.Max(limit, 1), MAX_LIST);
      var ids := set id | id in rows && (status.Some? ==> rows[id].status == status.value);
      var picked := TakeFirst(ids, (a: Id, b: Id) => a > b, cap);
      PickedAreListed(rows, status, cap, ids, picked);
      out := RowsOf(rows, picked);
    }

    method Retry(id: Id, now: int) returns (r: RetryResult)
      requires Valid()
      modifies this
      ensures Valid()
      ensures rows == RetryRow(old(rows), id, now)
      ensures RequeuedWhere(old(rows), (row: Row) => row.id == id && row.status != Pending, now, rows)
      ensures r == if id !in old(rows) then NotFound
                   else if old(rows)[id].status == Pending then AlreadyPending else RetryResult.Requeued
      ensures alarmAt == if r == RetryResult.Requeued then NoLater(old(alarmAt), now) else old(alarmAt)
    {
      RetryColumns(rows, id, now);
      if id in rows && rows[id].status != Pending {
        rows := rows[id := InboxRows.Requeued(rows[id], now)];
        ArmNoLaterThan(now);
        return RetryResult.Requeued;
      }
      var row := Get(id);
      r := if row == None then NotFound else AlreadyPending;
    }

    /** `retryAll`; None is the RangeError. */
    method RetryAll(status: Status, now: int) returns (count: Option<nat>)
      requires Valid()
      modifies this
      ensures Valid()
      ensures count.None? <==> status != Dead && status != Rejected
      ensures count.None? ==> rows == old(rows) && alarmAt == old(alarmAt)
      ensures count.Some? ==>
                && rows == RetryRows(old(rows), status, now)
                && RequeuedWhere(old(rows), (row: Row) => row.status == status, now, rows)
                && count.value == |set id | id in old(rows) && old(rows)[id].status == status|
                && alarmAt == if count.value > 0 then NoLater(old(alarmAt), now) else old(alarmAt)
    {
      if status != Dead && status != Rejected {
        return None;
      }
      var hit := set id | id in rows && rows[id].status == status;
      RetryAllColumns(rows, status, now);
      rows := RetryRows(rows, status, now);
      if |hit| > 0 {
        ArmNoLaterThan(now);
      }
      count := Some(|hit|);
    }

    /** `remove` with nothing in between; None is a bucket failure, which leaves the row. */
    method Remove(id: Id, bucket: Bucket, took: bool, fails: bool) returns (r: Option<bool>)
      requires Valid() && (fails || took)
      modifies this, bucket
      ensures Valid() && alarmAt == old(alarmAt)
      ensures id !in old(rows) ==> r == Some(false) && rows == old(rows) && bucket.objects == old(bucket.objects)
      ensures id in old(rows) ==>
                && r == (if fails then None else Some(true))
                && rows == (if fails then old(rows) else old(rows) - {id})
                && bucket.objects == old(bucket.objects) - if took then {old(rows)[id].r2Key} else {}
    {
      if id !in rows {
        return Some(false);
      }
      var key := rows[id].r2Key;
      var ok := bucket.Delete({key}, if took then {key} else {}, fails);
      if !ok {
        return None;
      }
      rows := Without(rows, id);
      r := Some(true);
    }

    method SelectDue(now: int, limit: nat) returns (due: seq<Row>)
      requires Valid()
      ensures IsDueBatch(rows, now, limit, due) && TakesReady(rows, now, limit, due)
    {
      var table := rows;
      var ids := set id | id in table && Due(table[id], now);
      var before := (a: Id, b: Id) => a in table && b in table && Ahead(table[a], table[b]);
      var picked := TakeFirst(ids, before, limit);
      PickedAreDue(table, now, limit, ids, before, picked);
      due := RowsOf(table, picked);
      DueBatchIs(table, now, limit, due);
    }

    method SelectDoomed(now: int, limit: nat) returns (doomed: seq<Doomed>)
      requires Valid()
      ensures IsDoomedBatch(rows, now, limit, doomed) && TakesStale(rows, now, limit, doomed)
    {
      var table := rows;
      var ids := set id | id in table && Expired(table[id], now);
      var before := (a: Id, b: Id) => a in table && b in table && PurgesBefore(table[a], table[b]);
      var picked := TakeFirst(ids, before, limit);
      PickedAreDoomed(table, now, limit, ids, before, picked);
      doomed := DoomedAt(table, picked);
      DoomedBatchIs(table, now, limit, doomed);
    }

    /** `settle`: whether the row was still pending, and so changed. */
    method Settle(c: Config, row: Row, e: Ending, now: int) returns (applied: bool)
      requires Valid() && ValidConfig(c)
      modifies this`rows
      ensures Valid()
      ensures rows == SettleRow(c, old(rows), row.id, row.attempts + 1, e, now)
      ensures SettledTable(c, old(rows), row.id, row.attempts + 1, e, now, rows)
      ensures applied <==> row.id in old(rows) && old(rows)[row.id].status == Pending
    {
      var attempt := row.attempts + 1;
      SettleColumns(c, rows, row.id, attempt, e, now);
      var outcome := if e.verdict == Backoff.Retry && attempt >= c.maxAttempts then Backoff.Dead else e.verdict;
      var nextAttemptAt :=
        if outcome == Backoff.Retry then Some(now + Backoff.BackoffMs(c.backoffSeconds, attempt).value) else None;
      var deliveredAt := if outcome == Backoff.Delivered then Some(now) else None;
      var purgeAt := if outcome == Backoff.Delivered then Some(now + c.retentionMs) else None;
      applied := row.id in rows && rows[row.id].status == Pending;
      if applied {
        rows := rows[row.id := rows[row.id].(
          status := StatusOf(outcome), attempts := attempt, nextAttemptAt := nextAttemptAt,
          lastAttemptAt := Some(now), lastStatus := e.status, lastError := Cut(e.error),
          threadId := e.thread, deliveredAt := deliveredAt, purgeAt := purgeAt)];
      }
    }

    /** `deliver` for one row, up to its settle. */
    method Deliver(c: Config, row: Row, bucket: Bucket, x: Exchange)
      requires Valid() && ValidConfig(c)
      modifies this`rows
      ensures Valid()
      ensures rows == Exchanged(c, old(rows), bucket.objects, row, x)
      ensures x.Throws? ==> rows == old(rows)
      ensures x.Responds? ==>
                var e := EndsWith(row.r2Key in bucket.objects, x.status, x.text, x.thread);
                SettledTable(c, old(rows), row.id, row.attempts + 1, e, x.at, rows)
    {
      match x {
        case Throws =>
        case Responds(at, status, text, thread) =>
          var body := bucket.Get(row.r2Key);
          var e := if body == None then MISSING_ENDING else EndingOf(status, text, thread);
          EndingIs(status, text, thread);
          var _ := Settle(c, row, e, at);
      }
    }

    /** `processDue`; false where the configuration error is thrown. */
    method ProcessDue(config: Option<Config>, now: int, limit: nat, bucket: Bucket, xs: seq<Exchange>)
        returns (ok: bool, ghost due: seq<Row>)
      requires Valid() && limit <= |xs| && (config.Some? ==> ValidConfig(config.value))
      modifies this`rows
      ensures Valid()
      ensures IsDueBatch(old(rows), now, limit, due)
      ensures ok <==> due == [] || config.Some?
      ensures rows == if config.Some? then AllExchanged(config.value, old(rows), bucket.objects, due, xs) else old(rows)
    {
      var batch := SelectDue(now, limit);
      due := batch;
      if batch == [] || config == None {
        return batch == [], due;
      }
      for i := 0 to |batch|
        invariant Valid()
        invariant rows == AllExchanged(config.value, old(rows), bucket.objects, batch[..i], xs)
      {
        assert batch[..i + 1][..i] == batch[..i];
        Deliver(config.value, batch[i], bucket, xs[i]);
      }
      assert batch[..|batch|] == batch;
      ok := true;
    }

    /** `purgeExpired`; false where the bucket's failure is thrown. */
    method PurgeExpired(now: int, bucket: Bucket, took: set<Key>, fails: bool)
        returns (ok: bool, ghost doomed: seq<Doomed>)
      requires Valid()
      modifies this`rows, bucket
      ensures Valid()
      ensures IsDoomedBatch(old(rows), now, 100, doomed) && TakesStale(old(rows), now, 100, doomed)
      ensures ok <==> doomed == [] || !fails
      ensures rows == if ok then PurgeRows(old(rows), doomed) else old(rows)
      ensures ok ==> PurgedTable(old(rows), doomed, rows)
      ensures bucket.objects == old(bucket.objects) - if ok then DoomedKeys(doomed) else took * DoomedKeys(doomed)
    {
      var expired := SelectDoomed(now, PURGE_BATCH);
      doomed := expired;
      if expired == [] {
        assert PurgeRows(rows, doomed) == rows;
        assert bucket.objects - DoomedKeys([]) == bucket.objects;
        PurgedColumns(rows, doomed);
        return true, doomed;
      }
      var keys := DoomedKeys(expired);
      ok := bucket.Delete(keys, if fails then took * keys else keys, fails);
      if !ok {
        return;
      }
      assert PurgeRows(rows, expired[..0]) == rows;
      for i := 0 to |expired|
        invariant Valid() && rows == PurgeRows(old(rows), expired[..i])
        invariant bucket.objects == old(bucket.objects) - keys
      {
        var id := expired[i].id;
        NamedNext(expired, i);
        if id in rows && rows[id].purgeAt.Some? {
          rows := rows - {id};
        }
        assert rows == PurgeRows(old(rows), expired[..i + 1]);
      }
      assert expired[..|expired|] == expired;
      PurgedColumns(old(rows), doomed);
    }

    /** `rearm`. */
    method Rearm()
      modifies this`alarmAt
      ensures IsEarliest(rows, alarmAt) && EarliestAsked(rows, alarmAt)
    {
      var next: Option<int> := None;
      var left := rows.Keys;
      while left != {}
        invariant left <= rows.Keys
        invariant forall id | id in rows && id !in left && Wake(rows[id]).Some? ::
                    next.Some? && next.value <= Wake(rows[id]).value
        invariant next.Some? ==> exists id :: id in rows && Wake(rows[id]) == next
        decreases left
      {
        var id :| id in left;
        left := left - {id};
        var wake := Wake(rows[id]);
        if wake.Some? && (next.None? || wake.value < next.value) {
          next := wake;
        }
      }
      alarmAt := next;
      EarliestIs(rows, alarmAt);
    }

    /**
     * `alarm`, its phases isolated from each other: whatever fails, the pass ends with the alarm armed
     * for the earliest work left, or a minute out.
     */
    method Alarm(config: Option<Config>, times: (int, int, int), bucket: Bucket, xs: seq<Exchange>,
                 took: set<Key>, fails: bool)
        returns (ghost due: seq<Row>, ghost doomed: seq<Doomed>)
      requires Valid() && 10 <= |xs| && (config.Some? ==> ValidConfig(config.value))
      modifies this, bucket
      ensures Valid()
      ensures IsDueBatch(old(rows), times.0, 10, due)
      ensures PassDone(config, old(rows), old(bucket.objects), times, xs, took, fails, due, doomed,
                       rows, bucket.objects, alarmAt)
      ensures PassColumns(config, old(rows), old(bucket.objects), xs, due, doomed, rows)
    {
      var processed, purged;
      processed, due := ProcessDue(config, times.0, ALARM_BATCH, bucket, xs);
      ghost var delivered := rows;
      purged, doomed := PurgeExpired(times.1, bucket, took, fails);
      PassIs(config, old(rows), old(bucket.objects), xs, due, doomed, delivered, rows, times.0);
      if processed && purged {
        Rearm();
      } else {
        alarmAt := Some(times.2 + ALARM_RETRY_MS);
      }
    }
  }

  lemma NamedNext(doomed: seq<Doomed>, i: nat)
    requires i < |doomed|
    ensures forall id :: Named(doomed[..i + 1], id) <==> Named(doomed[..i], id) || id == doomed[i].id
  {
    var next := doomed[..i + 1];
    forall id
      ensures Named(next, id) <==> Named(doomed[..i], id) || id == doomed[i].id
    {
      if Named(doomed[..i], id) {
        var k :| 0 <= k < i && doomed[..i][k].id == id;
        assert next[k].id == id;
      }
      assert next[i] == doomed[i];
    }
  }

  // ----- the email handler ------------------------------------------------------------------

  /** A delivered message: envelope, its own Message-ID, raw octets. */
  datatype Incoming = Incoming(from: Units, to: Units, messageId: Option<string>, raw: Octets)

  /** Refused for good, stored and queued, or thrown back for the sending side to try again. */
  datatype Handled = Refused | Stored(id: Id) | Threw

  /** What can go wrong around one call: the bucket's write, and the call to the queue. */
  datatype Weather = Weather(putTook: bool, putFails: bool, callArrives: bool, replyArrives: bool)

  predicate Acceptable(m: Incoming) {
    Rfc822.HeaderSafe(Rfc822.DELIVERED_TO, m.to) && Rfc822.HeaderSafe(Rfc822.RETURN_PATH, m.from)
  }

  /** No control character in either address, at most 984 octets of recipient and 985 of sender. */
  lemma AcceptableIff(m: Incoming)
    ensures Acceptable(m) <==>
            && (forall u | u in m.from || u in m.to :: u >= 0x20 && u != 0x7F)
            && |Encode(m.to)| <= 984 && |Encode(m.from)| <= 985
  {
    Rfc822.DeliveredIs([]);
    Rfc822.ReturnIs([]);
    Rfc822.HeaderSafeIff(Rfc822.DELIVERED_TO, m.to);
    Rfc822.HeaderSafeIff(Rfc822.RETURN_PATH, m.from);
  }

  /** The queue input for a message given this id. */
  function InputFor(m: Incoming, prefix: string, id: Id, stored: Octets, now: int): EnqueueInput {
    EnqueueInput(id, Key(prefix, id), m.from, m.to, m.messageId, |stored|, now)
  }

  lemma InsertedKeys(rows: Table, input: EnqueueInput, at: int)
    ensures InsertOrIgnore(rows, input, at).Keys == rows.Keys + {input.id}
  {
  }

  /**
   * `handleEmail`. It returns normally only with the message refused and nothing written, or with the
   * stored octets in the bucket, a row for them, and the alarm armed. However it ends, a row is never
   * there before its object.
   */
  method HandleEmail(m: Incoming, prefix: string, config: Option<Config>, now: int, random: Octets,
                     queue: Queue, bucket: Bucket, weather: Weather)
      returns (r: Handled)
    requires queue.Valid() && |random| == Ulid.ULID_RANDOM_BYTES
    requires weather.putFails || weather.putTook
    modifies queue, bucket
    ensures queue.Valid()
    ensures r.Refused? <==> !Acceptable(m)
    ensures r.Refused? ==> queue.rows == old(queue.rows) && bucket.objects == old(bucket.objects)
    ensures r.Stored? <==>
              && Acceptable(m) && 0 <= now <= 0xFFFF_FFFF_FFFF && Clean(m.from, 256) && Clean(m.to, 256)
              && Rfc822.Prepend(m.raw, Rfc822.EnvelopeHeaders(m.from, m.to)).Some?
              && !weather.putFails && weather.callArrives && weather.replyArrives
    ensures r.Stored? ==>
              var stored := Rfc822.Prepend(m.raw, Rfc822.EnvelopeHeaders(m.from, m.to)).value;
              var input := EnqueueInput(r.id, Key(prefix, r.id), m.from, m.to, m.messageId, |stored|, now);
              && r.id == Ulid.IdValue(now, random)
              && bucket.objects == old(bucket.objects)[input.r2Key := stored]
              && queue.rows == InsertOrIgnore(old(queue.rows), input, now + Delay(config))
              && Inserted(old(queue.rows), input, config, now, queue.rows)
              && (r.id !in old(queue.rows) ==>
                    queue.alarmAt.Some? && queue.alarmAt.value <= queue.rows[r.id].nextAttemptAt.value)
    ensures queue.rows != old(queue.rows) ==>
              exists id :: queue.rows.Keys == old(queue.rows).Keys + {id} && Key(prefix, id) in bucket.objects
  {
    var toSafe := Rfc822.AssertHeaderSafe(Rfc822.DELIVERED_TO, m.to);
    var fromSafe := Rfc822.AssertHeaderSafe(Rfc822.RETURN_PATH, m.from);
    if !toSafe || !fromSafe {
      return Refused;
    }
    var text := Ulid.NewId(now, random);
    if text == None {
      return Threw;
    }
    var id := Ulid.IdValue(now, random);
    var stored := Rfc822.PrependHeaders(m.raw, Rfc822.EnvelopeHeaders(m.from, m.to));
    if stored == None {
      return Threw;
    }
    MetadataIs(m.from, m.to);
    if !MetadataEncodes(m.from, m.to) {
      return Threw;
    }
    var input := InputFor(m, prefix, id, stored.value, now);
    var put := bucket.Put(input.r2Key, stored.value, weather.putTook, weather.putFails);
    if !put || !weather.callArrives {
      return Threw;
    }
    var _ := queue.Enqueue(input, now, config);
    InsertedKeys(old(queue.rows), input, now + Delay(config));
    if !weather.replyArrives {
      return Threw;
    }
    r := Stored(id);
  }
}
