/** Which id is where: the bookkeeping every other invariant stands on. */
module ProtocolBooks {
  import opened Wrappers
  import opened InboxRows
  import opened Protocol
  import opened ProtocolMoves

  /** An id has at most one live role: mail being taken in, or a row that was once inserted. */
  predicate IdsFiled(s: State) {
    && s.rows.Keys <= s.h.queued <= s.h.mail.Keys
    && s.emails.Keys + s.h.failed <= s.h.mail.Keys
    && s.emails.Keys !! s.h.queued
    && s.emails.Keys !! s.h.failed
    && s.h.failed !! s.h.accepted
    && s.h.accepted <= s.h.queued
    && s.h.mail.Keys <= s.emails.Keys + s.h.queued + s.h.failed
  }

  predicate HistoryFiled(s: State) {
    s.h.erased <= s.h.asked <= s.h.queued && s.h.delivered <= s.h.queued
  }

  /** A row still carries what its message came with. */
  predicate CarriesMail(c: Config, row: Row, id: Id, mail: Mail) {
    && row.id == id && row.r2Key == KeyOf(c, id)
    && row.from == mail.from && row.to == mail.to && row.messageId == mail.messageId
    && row.size == |mail.stored|
  }

  predicate RowsFiled(w: World, s: State) {
    && s.rows.Keys <= s.h.mail.Keys
    && forall id | id in s.rows :: CarriesMail(w.config, s.rows[id], id, s.h.mail[id])
  }

  predicate MailAdmissible(s: State) {
    forall id | id in s.h.mail :: Admissible(s.h.mail[id])
  }

  /** Every object in the bucket is some message's stored octets. */
  predicate ObjectsFiled(w: World, s: State) {
    forall k | k in s.bucket ::
      k.prefix == w.config.keyPrefix && k.ulid in s.h.mail && s.bucket[k] == s.h.mail[k.ulid].stored
  }

  predicate RemovesFiled(w: World, s: State) {
    forall call | call in s.removes ::
      && s.removes[call].id in s.h.asked && s.removes[call].key == KeyOf(w.config, s.removes[call].id)
      && (s.removes[call].erased ==> s.removes[call].id in s.h.erased)
  }

  predicate BatchFiled(w: World, s: State) {
    forall i | 0 <= i < |BatchOf(s.pass)| ::
      var row := BatchOf(s.pass)[i];
      row.id in s.h.queued && row.id in s.h.mail && CarriesMail(w.config, row, row.id, s.h.mail[row.id])
  }

  predicate DoomedFiled(w: World, s: State) {
    forall i | 0 <= i < |DoomedOf(s.pass)| ::
      DoomedOf(s.pass)[i].id in s.h.queued && DoomedOf(s.pass)[i].key == KeyOf(w.config, DoomedOf(s.pass)[i].id)
  }

  predicate Books(w: World, s: State) {
    && IdsFiled(s) && HistoryFiled(s) && RowsFiled(w, s) && MailAdmissible(s) && ObjectsFiled(w, s)
    && RemovesFiled(w, s) && BatchFiled(w, s) && DoomedFiled(w, s)
  }

  lemma IdsFiledKept(w: World, s: State, step: Step, s': State)
    requires IdsFiled(s)
    requires RowsMove(w, s, step, s') && MailMoves(s, step, s') && EmailsMove(s, step, s')
    requires QueuedMoves(s, step, s') && EndsMove(s, step, s')
    ensures IdsFiled(s')
  {
    forall id | id in s'.rows
      ensures id in s'.h.queued
    {
      assert RowMoves(w, s, step, s', id);
    }
  }

  lemma HistoryFiledKept(w: World, s: State, step: Step, s': State)
    requires IdsFiled(s) && HistoryFiled(s) && RemovesFiled(w, s) && BatchFiled(w, s)
    requires QueuedMoves(s, step, s') && RemovalsMove(s, step, s') && DeliveredMoves(s, step, s')
    ensures HistoryFiled(s')
  {
  }

  lemma RowCarriesMail(w: World, s: State, step: Step, s': State, id: Id)
    requires RowMoves(w, s, step, s', id)
    requires id in s.h.mail
    requires id in s.rows ==> CarriesMail(w.config, s.rows[id], id, s.h.mail[id])
    ensures id in s'.rows ==> CarriesMail(w.config, s'.rows[id], id, s.h.mail[id])
  {
  }

  lemma RowsFiledKept(w: World, s: State, step: Step, s': State)
    requires IdsFiled(s) && RowsFiled(w, s)
    requires RowsMove(w, s, step, s') && MailMoves(s, step, s')
    ensures RowsFiled(w, s')
  {
    forall id | id in s'.rows
      ensures id in s'.h.mail && CarriesMail(w.config, s'.rows[id], id, s'.h.mail[id])
    {
      assert RowMoves(w, s, step, s', id);
      assert id in s.h.mail;
      RowCarriesMail(w, s, step, s', id);
    }
  }

  lemma ObjectsFiledKept(w: World, s: State, step: Step, s': State)
    requires IdsFiled(s) && ObjectsFiled(w, s) && MailAdmissible(s)
    requires MailMoves(s, step, s') && BucketMoves(w, s, step, s')
    ensures ObjectsFiled(w, s') && MailAdmissible(s')
  {
  }

  lemma RemovesFiledKept(w: World, s: State, step: Step, s': State)
    requires RowsFiled(w, s) && RemovesFiled(w, s)
    requires RemovesMove(s, step, s') && RemovalsMove(s, step, s')
    requires step.RemoveErase? ==> step.call in s.removes && (step.took || step.threw)
    ensures RemovesFiled(w, s')
  {
  }

  /** A batch is taken from the table. */
  predicate BatchTaken(s: State, step: Step) {
    step.AlarmFires? ==> forall i | 0 <= i < |step.due| ::
      step.due[i].id in s.rows && s.rows[step.due[i].id] == step.due[i]
  }

  predicate DoomedTaken(s: State, step: Step) {
    step.PurgeSelect? ==> forall i | 0 <= i < |step.doomed| ::
      && step.doomed[i].id in s.rows && Expired(s.rows[step.doomed[i].id], s.now)
      && step.doomed[i].key == s.rows[step.doomed[i].id].r2Key
      && s.rows[step.doomed[i].id].purgeAt == Some(step.doomed[i].purgeAt)
  }

  lemma SelectionsTaken(w: World, s: State, step: Step)
    requires ValidConfig(w.config) && Enabled(w, s, step)
    ensures BatchTaken(s, step) && DoomedTaken(s, step)
  {
    if step.PurgeSelect? {
      forall i | 0 <= i < |step.doomed|
        ensures step.doomed[i].key == s.rows[step.doomed[i].id].r2Key
      {
      }
    }
  }

  lemma BatchFiledKept(w: World, s: State, step: Step, s': State)
    requires IdsFiled(s) && RowsFiled(w, s) && BatchFiled(w, s)
    requires MailMoves(s, step, s') && QueuedMoves(s, step, s') && PassMoves(s, step, s') && BatchTaken(s, step)
    ensures BatchFiled(w, s')
  {
    forall i | 0 <= i < |BatchOf(s'.pass)|
      ensures var row := BatchOf(s'.pass)[i];
              row.id in s'.h.queued && row.id in s'.h.mail && CarriesMail(w.config, row, row.id, s'.h.mail[row.id])
    {
      if !step.AlarmFires? {
        assert BatchOf(s'.pass) == BatchOf(s.pass);
      }
    }
  }

  lemma DoomedFiledKept(w: World, s: State, step: Step, s': State)
    requires IdsFiled(s) && RowsFiled(w, s) && DoomedFiled(w, s)
    requires QueuedMoves(s, step, s') && PassMoves(s, step, s') && DoomedTaken(s, step)
    ensures DoomedFiled(w, s')
  {
    if !step.PurgeSelect? {
      assert DoomedOf(s'.pass) == DoomedOf(s.pass) || DoomedOf(s'.pass) == [];
    }
  }

  lemma BooksKept(w: World, s: State, step: Step)
    requires ValidConfig(w.config) && Enabled(w, s, step) && Books(w, s)
    ensures Books(w, Next(w, s, step))
  {
    var s' := Next(w, s, step);
    TableFootprint(w, s, step);
    EmailFootprint(w, s, step);
    RemovalFootprint(w, s, step);
    BucketFootprint(w, s, step);
    PassFootprint(w, s, step);
    EndsFootprint(w, s, step);
    SettleFootprint(w, s, step);
    SelectionsTaken(w, s, step);
    IdsFiledKept(w, s, step, s');
    HistoryFiledKept(w, s, step, s');
    RowsFiledKept(w, s, step, s');
    ObjectsFiledKept(w, s, step, s');
    RemovesFiledKept(w, s, step, s');
    BatchFiledKept(w, s, step, s');
    DoomedFiledKept(w, s, step, s');
  }
}
