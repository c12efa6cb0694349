/**
 * Who starves. A row whose envelope `asciiValue` refuses is never charged and keeps its place, so ten of
 * them in front fill every batch; with fewer, every other row gets its turn.
 */
module ProtocolStarvation {
  import opened Wrappers
  import opened InboxRows
  import opened Protocol
  import opened ProtocolMoves
  import opened ProtocolAlarm
  import opened ProtocolBooks
  import opened ProtocolShape
  import opened ProtocolTheorems
  import opened ProtocolFairness
  import Percent

  /** Both addresses can be written as header values. */
  predicate Writable(from: Units, to: Units) {
    Percent.Encodable(from) && Percent.Encodable(to)
  }

  /** The rows in front of `r` that can never be delivered. */
  function Stuck(s: State, r: Row): set<Id> {
    set id | id in AheadOf(s, r) && !Writable(s.rows[id].from, s.rows[id].to)
  }

  // ----- fewer than ten ---------------------------------------------------------------------

  /** A pass in which every attempt on a row that can be written as a request ran to its end. */
  predicate Fair(t: State, thrown: set<Id>) {
    forall id | id in thrown :: id in t.h.mail && !Writable(t.h.mail[id].from, t.h.mail[id].to)
  }

  /** How many of the passes were fair. */
  function FairPasses(t: State, passes: seq<set<Id>>): nat {
    if passes == [] then 0
    else FairPasses(t, passes[..|passes| - 1]) + if Fair(t, passes[|passes| - 1]) then 1 else 0
  }

  /** A row carries its message's own addresses, now and later. */
  lemma AddressesStay(w: World, s0: State, steps: seq<Step>, id: Id)
    requires ValidConfig(w.config) && Reachable(w, s0) && id in s0.rows && Run(w, s0, steps).Some?
    ensures var t := Run(w, s0, steps).value;
            id in t.h.mail && t.h.mail[id].from == s0.rows[id].from && t.h.mail[id].to == s0.rows[id].to
  {
    ReachableGives(w, s0);
    RunKeepsPromises(w, s0, steps);
  }

  /** In a fair pass only stuck rows throw. */
  lemma FairThrowsAreStuck(w: World, s0: State, r: Row, steps: seq<Step>, thrown: set<Id>)
    requires ValidConfig(w.config) && Reachable(w, s0) && Run(w, s0, steps).Some?
    requires thrown <= AheadOf(s0, r) && Fair(Run(w, s0, steps).value, thrown)
    ensures thrown <= Stuck(s0, r) && |thrown| <= |Stuck(s0, r)|
  {
    forall id | id in thrown
      ensures id in Stuck(s0, r)
    {
      AddressesStay(w, s0, steps, id);
    }
    SetSize(thrown, Stuck(s0, r));
  }

  lemma DivisionBound(k: nat, share: nat)
    requires share > 0
    ensures k < share * (k / share + 1)
  {
    assert share * (k / share + 1) == share * (k / share) + share;
  }

  lemma MulCancels(share: nat, a: nat, b: nat)
    requires share * a < share * b
    ensures a < b
  {
  }

  lemma TooFewPasses(k: nat, share: nat, n: nat)
    requires share > 0 && share * n <= k
    ensures n < k / share + 1
  {
    DivisionBound(k, share);
    MulCancels(share, n, k / share + 1);
  }

  /** With `left` of k still there after `taken`, at least a share a pass, the passes are few. */
  lemma WithinShares(left: nat, taken: nat, k: nat, share: nat, n: nat)
    requires share > 0 && left + taken <= k && taken >= share * n
    ensures left + share * n <= k && n < k / share + 1
  {
    TooFewPasses(k, share, n);
  }

  /** A fair pass that left a writable row alone has taken ten rows less the stuck ones. */
  lemma FairShare(w: World, s0: State, id: Id, steps: seq<Step>, thrown: set<Id>)
    requires ValidConfig(w.config) && Reachable(w, s0) && Run(w, s0, steps).Some?
    requires id in s0.rows && Writable(s0.rows[id].from, s0.rows[id].to)
    requires |Stuck(s0, s0.rows[id])| < 10
    requires id in thrown || thrown <= AheadOf(s0, s0.rows[id])
    ensures Fair(Run(w, s0, steps).value, thrown) ==> Share(thrown, id) >= 10 - |Stuck(s0, s0.rows[id])|
  {
    AddressesStay(w, s0, steps, id);
    if Fair(Run(w, s0, steps).value, thrown) {
      FairThrowsAreStuck(w, s0, s0.rows[id], steps, thrown);
    }
  }

  /** Each of the passes has given at least so much, if it was fair. */
  predicate EachShares(t: State, passes: seq<set<Id>>, id: Id, share: nat) {
    forall i | 0 <= i < |passes| :: Fair(t, passes[i]) ==> Share(passes[i], id) >= share
  }

  /** So the shares of any passes come to that much for each fair one among them. */
  lemma {:induction false} SharesOfFair(t: State, passes: seq<set<Id>>, id: Id, share: nat)
    requires EachShares(t, passes, id, share)
    ensures Shares(passes, id) >= share * FairPasses(t, passes)
  {
    if passes == [] {
    } else {
      var front, last := passes[..|passes| - 1], passes[|passes| - 1];
      SharesOfFair(t, front, id, share);
      assert Fair(t, last) ==> Share(last, id) >= share;
      assert share * (FairPasses(t, front) + 1) == share * FairPasses(t, front) + share;
    }
  }

  lemma FairShares(w: World, s0: State, id: Id, steps: seq<Step>, t: State, passes: seq<set<Id>>)
    requires ValidConfig(w.config) && Reachable(w, s0) && Run(w, s0, steps) == Some(t)
    requires id in s0.rows && Writable(s0.rows[id].from, s0.rows[id].to)
    requires |Stuck(s0, s0.rows[id])| < 10
    requires Confined(passes, id, AheadOf(s0, s0.rows[id]))
    ensures EachShares(t, passes, id, 10 - |Stuck(s0, s0.rows[id])|)
  {
    forall i | 0 <= i < |passes|
      ensures Fair(t, passes[i]) ==> Share(passes[i], id) >= 10 - |Stuck(s0, s0.rows[id])|
    {
      FairShare(w, s0, id, steps, passes[i]);
    }
  }

  /** What the passes have left of k rows, and how many passes that can have been. */
  predicate Served(left: nat, k: nat, share: nat, passes: nat)
    requires share > 0
  {
    left + share * passes <= k && passes < k / share + 1
  }

  lemma FairlyServed(w: World, s0: State, id: Id, steps: seq<Step>, t: State, m: nat)
    requires ValidConfig(w.config) && Reachable(w, s0) && Run(w, s0, steps) == Some(t)
    requires id in s0.rows && Writable(s0.rows[id].from, s0.rows[id].to)
    requires m == |Stuck(s0, s0.rows[id])| < 10
    requires |s0.h.passes| <= |t.h.passes|
    requires Confined(Since(s0, t), id, AheadOf(s0, s0.rows[id]))
    requires |AheadOf(t, s0.rows[id])| + Shares(Since(s0, t), id) <= |AheadOf(s0, s0.rows[id])|
    ensures Served(|AheadOf(t, s0.rows[id])|, |AheadOf(s0, s0.rows[id])|, 10 - m, FairPasses(t, Since(s0, t)))
  {
    FairShares(w, s0, id, steps, t, Since(s0, t));
    SharesOfFair(t, Since(s0, t), id, 10 - m);
    WithinShares(|AheadOf(t, s0.rows[id])|, Shares(Since(s0, t), id), |AheadOf(s0, s0.rows[id])|, 10 - m,
                 FairPasses(t, Since(s0, t)));
  }

  /**
   * No starvation while fewer than ten stuck rows are in front. Over any run, every pass in which the
   * attempts on all other rows run to their end takes ten rows less the stuck ones from in front of an
   * overdue row that can itself be written, and the other passes give none back. So with k in front, m
   * of them stuck, it has been attempted, or removed by an operator, by the time there have been
   * k / (10 - m) + 1 such passes: it can be waiting only after fewer.
   */
  lemma NoStarvation(w: World, s0: State, id: Id, steps: seq<Step>)
    requires ValidConfig(w.config) && Reachable(w, s0) && s0.pass == Idle
    requires id in s0.rows && Overdue(s0, s0.rows[id])
    requires Writable(s0.rows[id].from, s0.rows[id].to) && |Stuck(s0, s0.rows[id])| < 10
    requires Run(w, s0, steps).Some?
    ensures
      var t, r := Run(w, s0, steps).value, s0.rows[id];
      && |s0.h.passes| <= |t.h.passes|
      && (|| (Left(t, r) && !Untouched(t, r))
          || Served(|AheadOf(t, r)|, |AheadOf(s0, r)|, 10 - |Stuck(s0, r)|, FairPasses(t, Since(s0, t))))
  {
    EveryPassTakesItsShare(w, s0, id, steps);
    var t, r := Run(w, s0, steps).value, s0.rows[id];
    if Untouched(t, r) {
      FairlyServed(w, s0, id, steps, t, |Stuck(s0, r)|);
    }
  }

  /** How many of the passes saw no attempt throw. */
  function CleanPasses(passes: seq<set<Id>>): nat {
    if passes == [] then 0
    else CleanPasses(passes[..|passes| - 1]) + if passes[|passes| - 1] == {} then 1 else 0
  }

  lemma {:induction false} CleanTakeTen(passes: seq<set<Id>>, id: Id)
    ensures Shares(passes, id) >= 10 * CleanPasses(passes)
  {
    if passes == [] {
    } else {
      CleanTakeTen(passes[..|passes| - 1], id);
    }
  }

  /**
   * Every clean pass, whatever is in front, takes ten: with k rows in front an overdue row has been
   * attempted or removed within k / 10 + 1 passes in which no attempt throws.
   */
  lemma CleanPassesTakeTen(w: World, s0: State, id: Id, steps: seq<Step>)
    requires ValidConfig(w.config) && Reachable(w, s0) && s0.pass == Idle
    requires id in s0.rows && Overdue(s0, s0.rows[id])
    requires Run(w, s0, steps).Some?
    ensures
      var t, r := Run(w, s0, steps).value, s0.rows[id];
      && |s0.h.passes| <= |t.h.passes|
      && var passes := CleanPasses(Since(s0, t));
         && AheadOf(t, r) <= AheadOf(s0, r)
         && (Untouched(t, r) ==> |AheadOf(t, r)| + 10 * passes <= |AheadOf(s0, r)|)
         && (passes >= |AheadOf(s0, r)| / 10 + 1 ==> Left(t, r) && !Untouched(t, r))
  {
    EveryPassTakesItsShare(w, s0, id, steps);
    CleanTakeTen(Since(s0, Run(w, s0, steps).value), id);
  }

  // ----- ten or more ------------------------------------------------------------------------

  /** Stuck rows no removal has erased are still pending just as they were. */
  lemma StuckStay(w: World, s0: State, r: Row, steps: seq<Step>)
    requires ValidConfig(w.config) && Reachable(w, s0) && Run(w, s0, steps).Some?
    ensures
      var s := Run(w, s0, steps).value;
      forall b | b in Stuck(s0, r) - s.h.erased :: b in s.rows && s.rows[b] == s0.rows[b]
  {
    var s := Run(w, s0, steps).value;
    ReachableInv(w, s0);
    ReachableGives(w, s0);
    forall b | b in Stuck(s0, r) - s.h.erased
      ensures b in s.rows && s.rows[b] == s0.rows[b]
    {
      AstralMailStaysPending(w, s0, b, steps);
    }
  }

  /** Whoever is in front of a row of the batch is in the batch. */
  lemma FrontIsPicked(s: State, due: seq<Row>, r: Row, b: Id)
    requires IsDueBatch(s.rows, s.now, ALARM_BATCH, due) && r in due
    requires b in s.rows && s.rows[b].id == b && s.rows[b].status == Pending && Ahead(s.rows[b], r)
    ensures b in Ids(due)
  {
    var i :| 0 <= i < |due| && due[i] == r;
    assert Due(s.rows[b], s.now);
    assert s.rows[b] in due || Ahead(due[i], s.rows[b]);
    var j :| 0 <= j < |due| && due[j] == s.rows[b];
    assert due[j].id == b;
  }

  lemma DueRow(s: State, due: seq<Row>, r: Row)
    requires IsDueBatch(s.rows, s.now, ALARM_BATCH, due) && r.id in s.rows && s.rows[r.id] == r
    requires r.id in Ids(due)
    ensures r in due
  {
  }

  /** A batch cannot hold eleven. */
  lemma ElevenDoNotFit(s: State, due: seq<Row>, front: set<Id>, id: Id)
    requires IsDueBatch(s.rows, s.now, ALARM_BATCH, due)
    requires |front| >= 10 && id !in front && front <= Ids(due)
    ensures id !in Ids(due)
  {
    if id in Ids(due) {
      DueIsDistinct(s, due);
      IdsCount(due);
      DisjointSize(front, {id});
      SetSize(front + {id}, Ids(due));
    }
  }

  /** A batch has no room for a row behind ten others. */
  lemma NoRoom(s: State, due: seq<Row>, front: set<Id>, r: Row)
    requires IsDueBatch(s.rows, s.now, ALARM_BATCH, due) && Keyed(s.rows)
    requires |front| >= 10 && r.id in s.rows && s.rows[r.id] == r
    requires forall b | b in front :: b in s.rows && s.rows[b].status == Pending && Ahead(s.rows[b], r)
    ensures r.id !in Ids(due)
  {
    if r.id in Ids(due) {
      DueRow(s, due, r);
      forall b | b in front
        ensures b in Ids(due)
      {
        FrontIsPicked(s, due, r, b);
      }
      ElevenDoNotFit(s, due, front, r.id);
    }
  }

  lemma DueIsDistinct(s: State, due: seq<Row>)
    requires IsDueBatch(s.rows, s.now, ALARM_BATCH, due)
    ensures DistinctIds(due)
  {
    forall i, j | 0 <= i < j < |due|
      ensures due[i].id != due[j].id
    {
      assert Ahead(due[i], due[j]);
    }
  }

  /** `r` is in no batch, and stands as it did unless it was removed; it has not been delivered since. */
  predicate PassedOver(s0: State, s: State, r: Row) {
    && r.id in s.h.queued
    && r.id !in Ids(BatchOf(s.pass))
    && (r.id in s.rows ==> s.rows[r.id] == r)
    && (r.id in s.h.delivered ==> r.id in s0.h.delivered)
  }

  lemma PassedOverKept(w: World, s0: State, s: State, step: Step, s': State, r: Row)
    requires ValidConfig(w.config) && IdsFiled(s) && RowMoves(w, s, step, s', r.id)
    requires PassMoves(s, step, s') && QueuedMoves(s, step, s') && DeliveredMoves(s, step, s')
    requires r.status == Pending && r.purgeAt.None?
    requires step.AlarmFires? ==> r.id !in Ids(step.due)
    requires PassedOver(s0, s, r)
    ensures PassedOver(s0, s', r)
  {
    if AtStage(s) {
      assert Current(s).id in Ids(BatchOf(s.pass));
    }
  }

  lemma FiringPassesOver(w: World, s0: State, r: Row, front: seq<Step>, due: seq<Row>, fault: bool)
    requires ValidConfig(w.config) && Reachable(w, s0) && Run(w, s0, front).Some?
    requires var s := Run(w, s0, front).value;
             && Enabled(w, s, AlarmFires(due, fault)) && PassedOver(s0, s, r)
             && |Stuck(s0, r) - s.h.erased| >= 10
    ensures r.id !in Ids(due)
  {
    var s := Run(w, s0, front).value;
    LaterReachable(w, s0, front);
    ReachableGives(w, s);
    StuckStay(w, s0, r, front);
    if r.id in s.rows {
      NoRoom(s, due, Stuck(s0, r) - s.h.erased, r);
    } else {
      assert forall i | 0 <= i < |due| :: due[i].id in s.rows;
    }
  }

  lemma {:induction false} PassedOverAlongRun(w: World, s0: State, r: Row, steps: seq<Step>)
    requires ValidConfig(w.config) && Reachable(w, s0) && s0.pass == Idle
    requires Untouched(s0, r) && r.status == Pending && r.purgeAt.None?
    requires Run(w, s0, steps).Some? && |Stuck(s0, r) - Run(w, s0, steps).value.h.erased| >= 10
    ensures PassedOver(s0, Run(w, s0, steps).value, r)
  {
    if steps == [] {
      ReachableGives(w, s0);
    } else {
      var front, step := steps[..|steps| - 1], steps[|steps| - 1];
      var s := Run(w, s0, front).value;
      StepKeepsPromises(w, s, step);
      SetSize(Stuck(s0, r) - Next(w, s, step).h.erased, Stuck(s0, r) - s.h.erased);
      PassedOverAlongRun(w, s0, r, front);
      PassedOverStep(w, s0, r, front, step);
    }
  }

  lemma PassedOverStep(w: World, s0: State, r: Row, front: seq<Step>, step: Step)
    requires ValidConfig(w.config) && Reachable(w, s0) && Run(w, s0, front).Some?
    requires r.status == Pending && r.purgeAt.None?
    requires var s := Run(w, s0, front).value;
             && Enabled(w, s, step) && PassedOver(s0, s, r) && |Stuck(s0, r) - s.h.erased| >= 10
    ensures PassedOver(s0, Next(w, Run(w, s0, front).value, step), r)
  {
    var s := Run(w, s0, front).value;
    LaterReachable(w, s0, front);
    ReachableGives(w, s);
    RowChange(w, s, step, r.id);
    PassFootprint(w, s, step);
    EndsFootprint(w, s, step);
    SettleFootprint(w, s, step);
    if step.AlarmFires? {
      FiringPassesOver(w, s0, r, front, step.due, step.fault);
    }
    PassedOverKept(w, s0, s, step, Next(w, s, step), r);
  }

  /**
   * Starvation. With ten stuck rows in front, a pending row is never attempted: however often the alarm
   * fires and whatever the network and Odoo do, it is in no batch, stands as it did unless an operator
   * removed it, and is not delivered, for as long as at least ten of the stuck rows have not been erased
   * by removals.
   */
  lemma StarvedByTen(w: World, s0: State, id: Id, steps: seq<Step>)
    requires ValidConfig(w.config) && Reachable(w, s0) && s0.pass == Idle
    requires id in s0.rows && s0.rows[id].status == Pending
    requires Run(w, s0, steps).Some?
    ensures
      var t, r := Run(w, s0, steps).value, s0.rows[id];
      |Stuck(s0, r) - t.h.erased| >= 10 ==>
        && id !in Ids(BatchOf(t.pass))
        && (id in t.rows ==> t.rows[id] == r)
        && (id in t.h.delivered ==> id in s0.h.delivered)
  {
    var t, r := Run(w, s0, steps).value, s0.rows[id];
    ReachableGives(w, s0);
    assert RowShape(w.config, r, s0.now);
    if |Stuck(s0, r) - t.h.erased| >= 10 {
      PassedOverAlongRun(w, s0, r, steps);
    }
  }

  // ----- the alarm --------------------------------------------------------------------------

  /**
   * Once due, a single stuck row makes the alarm spin: until a removal erases it, every pass that does
   * not fail ends with the alarm set for a moment already past.
   */
  lemma StuckRowSpins(w: World, s0: State, id: Id, steps: seq<Step>, next: Option<int>)
    requires ValidConfig(w.config) && Reachable(w, s0) && id in s0.rows && Due(s0.rows[id], s0.now)
    requires !Writable(s0.rows[id].from, s0.rows[id].to)
    requires Run(w, s0, steps).Some?
    requires var t := Run(w, s0, steps).value; Enabled(w, t, Rearm(next)) && t.healthy && id !in t.h.erased
    ensures var t' := Next(w, Run(w, s0, steps).value, Rearm(next));
            t'.alarm.Some? && t'.alarm.value <= t'.now
  {
    var t := Run(w, s0, steps).value;
    DueRowStays(w, s0, id, steps);
    assert Calls(t.rows[id], t.now);
    ComesStraightBackIff(w, t, next);
  }

  lemma DueRowStays(w: World, s0: State, id: Id, steps: seq<Step>)
    requires ValidConfig(w.config) && Reachable(w, s0) && id in s0.rows && Due(s0.rows[id], s0.now)
    requires !Writable(s0.rows[id].from, s0.rows[id].to)
    requires Run(w, s0, steps).Some? && id !in Run(w, s0, steps).value.h.erased
    ensures var t := Run(w, s0, steps).value; id in t.rows && Due(t.rows[id], t.now)
  {
    ReachableInv(w, s0);
    ReachableGives(w, s0);
    AstralMailStaysPending(w, s0, id, steps);
    RunKeepsPromises(w, s0, steps);
  }
}
