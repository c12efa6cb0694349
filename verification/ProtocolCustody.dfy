/** No message is lost, no object is orphaned, and purges hit what they were aimed at. */
module ProtocolCustody {
  import opened Wrappers
  import opened InboxRows
  import opened Protocol
  import opened ProtocolMoves
  import opened ProtocolBooks

  predicate HasObject(w: World, s: State, id: Id) {
    KeyOf(w.config, id) in s.bucket
  }

  /** The two things that may take a queued message's object away. */
  predicate LetGo(s: State, id: Id) {
    id in s.h.delivered || id in s.h.erased
  }

  /** Every message ever queued still has its object unless it was delivered or erased by a removal. */
  predicate ObjectsKept(w: World, s: State) {
    && (forall id | id in s.h.queued :: HasObject(w, s, id) || LetGo(s, id))
    && (forall id | id in s.emails && s.emails[id] == Queueing :: HasObject(w, s, id))
  }

  /** Every message ever queued still has its row unless it was delivered or erased by a removal. */
  predicate RowsKept(s: State) {
    forall id | id in s.h.queued :: id in s.rows || LetGo(s, id)
  }

  /** An object without a row belongs to a message no row was ever inserted for. */
  predicate NoOrphans(w: World, s: State) {
    forall id | id in s.h.queued && id !in s.rows :: !HasObject(w, s, id)
  }

  /** A removal that has erased its object leaves it erased. */
  predicate ErasedStay(w: World, s: State) {
    forall id | id in s.h.erased :: !HasObject(w, s, id)
  }

  /** What `deliver` found at its object. */
  predicate StageTrue(w: World, s: State) {
    AtStage(s) ==>
      && (s.pass.stage.Missing? ==> LetGo(s, Current(s).id))
      && (s.pass.stage.Reading? ==> Current(s).id in s.h.mail && s.pass.stage.body == s.h.mail[Current(s).id].stored)
  }

  /** A purge mark means the message was delivered. */
  predicate MarksTrue(s: State) {
    forall id | id in s.rows && s.rows[id].purgeAt.Some? :: id in s.h.delivered && s.rows[id].status == Delivered
  }

  predicate DoomTrue(s: State, d: Doomed) {
    && d.id in s.h.delivered && d.purgeAt <= s.now
    && (d.id in s.rows && s.rows[d.id].purgeAt.Some? ==> s.rows[d.id].purgeAt == Some(d.purgeAt))
  }

  /** A row picked for purging was delivered; if it is still marked, it is with the mark it was picked for. */
  predicate PurgeTrue(w: World, s: State) {
    && (forall i | 0 <= i < |DoomedOf(s.pass)| :: DoomTrue(s, DoomedOf(s.pass)[i]))
    && (s.pass.Purged? ==> forall i | 0 <= i < |s.pass.doomed| :: !HasObject(w, s, s.pass.doomed[i].id))
  }

  predicate Custody(w: World, s: State) {
    && ObjectsKept(w, s) && RowsKept(s) && NoOrphans(w, s) && ErasedStay(w, s)
    && StageTrue(w, s) && MarksTrue(s) && PurgeTrue(w, s)
  }

  // ----- each part is kept ------------------------------------------------------------------

  /** Objects leave the bucket only by a removal of their row or by the purge of a delivered one. */
  lemma ObjectGone(w: World, s: State, step: Step, s': State, id: Id)
    requires RemovesFiled(w, s) && DoomedFiled(w, s) && PurgeTrue(w, s)
    requires BucketMoves(w, s, step, s') && RemovalsMove(s, step, s') && DeliveredMoves(s, step, s')
    requires HasObject(w, s, id)
    ensures HasObject(w, s', id) || LetGo(s', id)
  {
    if step.PurgeErase? && KeyOf(w.config, id) in step.gone {
      assert KeyOf(w.config, id) in DoomedKeys(s.pass.doomed);
      var i :| 0 <= i < |s.pass.doomed| && s.pass.doomed[i].key == KeyOf(w.config, id);
      assert DoomTrue(s, DoomedOf(s.pass)[i]);
    }
  }

  lemma ObjectsKeptKept(w: World, s: State, step: Step, s': State)
    requires IdsFiled(s) && RemovesFiled(w, s) && DoomedFiled(w, s) && PurgeTrue(w, s) && ObjectsKept(w, s)
    requires HistoryFiled(s)
    requires EmailsMove(s, step, s') && BucketMoves(w, s, step, s') && QueuedMoves(s, step, s')
    requires RemovalsMove(s, step, s') && DeliveredMoves(s, step, s')
    ensures ObjectsKept(w, s')
  {
    forall id | id in s'.h.queued
      ensures HasObject(w, s', id) || LetGo(s', id)
    {
      if HasObject(w, s, id) {
        ObjectGone(w, s, step, s', id);
      }
    }
    forall id | id in s'.emails && s'.emails[id] == Queueing
      ensures HasObject(w, s', id)
    {
      if id in s.emails && s.emails[id] == Queueing {
        ObjectGone(w, s, step, s', id);
        assert id !in s.h.queued;
      }
    }
  }

  lemma RowsKeptKept(w: World, s: State, step: Step, s': State)
    requires HistoryFiled(s) && RemovesFiled(w, s) && RowsKept(s) && MarksTrue(s)
    requires RowsMove(w, s, step, s') && QueuedMoves(s, step, s') && RemovalsMove(s, step, s')
    requires DeliveredMoves(s, step, s')
    requires step.EmailEnqueue? ==> step.id in s'.rows
    ensures RowsKept(s')
  {
    forall id | id in s'.h.queued
      ensures id in s'.rows || LetGo(s', id)
    {
      assert RowMoves(w, s, step, s', id);
    }
  }

  lemma NoOrphansKept(w: World, s: State, step: Step, s': State)
    requires IdsFiled(s) && RemovesFiled(w, s) && NoOrphans(w, s) && ErasedStay(w, s) && PurgeTrue(w, s)
    requires RowsMove(w, s, step, s') && QueuedMoves(s, step, s') && BucketMoves(w, s, step, s')
    requires step.EmailEnqueue? ==> step.id in s'.rows
    ensures NoOrphans(w, s')
  {
    forall id | id in s'.h.queued && id !in s'.rows
      ensures !HasObject(w, s', id)
    {
      assert RowMoves(w, s, step, s', id);
    }
  }

  lemma ErasedStayKept(w: World, s: State, step: Step, s': State)
    requires IdsFiled(s) && HistoryFiled(s) && RemovesFiled(w, s) && ErasedStay(w, s)
    requires BucketMoves(w, s, step, s') && RemovalsMove(s, step, s')
    ensures ErasedStay(w, s')
  {
  }

  lemma StageTrueKept(w: World, s: State, step: Step, s': State)
    requires BatchFiled(w, s) && ObjectsFiled(w, s) && ObjectsKept(w, s) && StageTrue(w, s)
    requires MailMoves(s, step, s') && PassMoves(s, step, s')
    requires RemovalsMove(s, step, s') && DeliveredMoves(s, step, s')
    ensures StageTrue(w, s')
  {
    if step.GetObject? {
      assert Current(s) == BatchOf(s.pass)[s.pass.at];
    }
  }

  lemma MarkTrueKept(w: World, s: State, step: Step, s': State, id: Id)
    requires id in s.rows && s.rows[id].purgeAt.Some? ==> id in s.h.delivered && s.rows[id].status == Delivered
    requires RowMoves(w, s, step, s', id) && DeliveredMoves(s, step, s')
    ensures id in s'.rows && s'.rows[id].purgeAt.Some? ==> id in s'.h.delivered && s'.rows[id].status == Delivered
  {
  }

  lemma MarksTrueKept(w: World, s: State, step: Step, s': State)
    requires MarksTrue(s)
    requires RowsMove(w, s, step, s') && DeliveredMoves(s, step, s')
    ensures MarksTrue(s')
  {
    forall id | id in s'.rows && s'.rows[id].purgeAt.Some?
      ensures id in s'.h.delivered && s'.rows[id].status == Delivered
    {
      assert RowMoves(w, s, step, s', id);
      MarkTrueKept(w, s, step, s', id);
    }
  }

  lemma DoomTrueKept(w: World, s: State, step: Step, s': State, d: Doomed)
    requires DoomTrue(s, d)
    requires RowMoves(w, s, step, s', d.id) && DeliveredMoves(s, step, s') && ClockMoves(s, step, s')
    requires !step.Settle?
    ensures DoomTrue(s', d)
  {
  }

  lemma PurgeTrueKept(w: World, s: State, step: Step, s': State)
    requires IdsFiled(s) && DoomedFiled(w, s) && MarksTrue(s) && PurgeTrue(w, s)
    requires RowsMove(w, s, step, s') && DeliveredMoves(s, step, s') && ClockMoves(s, step, s')
    requires PassMoves(s, step, s') && BucketMoves(w, s, step, s') && DoomedTaken(s, step)
    ensures PurgeTrue(w, s')
  {
    if DoomedOf(s'.pass) != [] {
      forall i | 0 <= i < |DoomedOf(s'.pass)|
        ensures DoomTrue(s', DoomedOf(s'.pass)[i])
      {
        var d := DoomedOf(s'.pass)[i];
        assert RowMoves(w, s, step, s', d.id);
        if step.PurgeSelect? {
          assert d == step.doomed[i] && Expired(s.rows[d.id], s.now);
        } else {
          assert d == DoomedOf(s.pass)[i];
        }
        DoomTrueKept(w, s, step, s', d);
      }
    }
    if s'.pass.Purged? {
      forall i | 0 <= i < |s'.pass.doomed|
        ensures !HasObject(w, s', s'.pass.doomed[i].id)
      {
        assert s'.pass.doomed[i] == DoomedOf(s.pass)[i];
        if step.PurgeErase? {
          assert DoomedOf(s.pass)[i].key in DoomedKeys(s.pass.doomed);
        }
      }
    }
  }

  lemma EnqueueInserts(w: World, s: State, step: Step)
    requires ValidConfig(w.config) && Enabled(w, s, step)
    ensures step.EmailEnqueue? ==> step.id in Next(w, s, step).rows
  {
  }

  lemma CustodyKept(w: World, s: State, step: Step)
    requires ValidConfig(w.config) && Enabled(w, s, step) && Books(w, s) && Custody(w, s)
    ensures Custody(w, Next(w, s, step))
  {
    var s' := Next(w, s, step);
    TableFootprint(w, s, step);
    EmailFootprint(w, s, step);
    RemovalFootprint(w, s, step);
    BucketFootprint(w, s, step);
    PassFootprint(w, s, step);
    EndsFootprint(w, s, step);
    SettleFootprint(w, s, step);
    SelectionsTaken(w, s, step);
    EnqueueInserts(w, s, step);
    ObjectsKeptKept(w, s, step, s');
    RowsKeptKept(w, s, step, s');
    NoOrphansKept(w, s, step, s');
    ErasedStayKept(w, s, step, s');
    StageTrueKept(w, s, step, s');
    MarksTrueKept(w, s, step, s');
    PurgeTrueKept(w, s, step, s');
  }
}
