/** Which confirmed invoices a reconcile pass notifies again. */
module RescueExactness {
  import opened Basics
  import opened Model
  import opened Steps
  import opened Invariant
  import opened LedgerSteps
  import opened Runs
  import Announcements
  import HookSteps

  /** Confirmed invoices with neither a pending nor a delivered confirmation. */
  ghost function Stuck(db: Db): set<nat> {
    set i | 0 <= i < |db.invoices| && db.invoices[i].status == Confirmed && !InFlightOrTold(db.deliveries, i) :: i
  }

  /** Those among the first k of an order. */
  ghost function StuckAmong(db: Db, order: seq<nat>, k: nat): set<nat> {
    set j | 0 <= j < k && j < |order| && !InFlightOrTold(db.deliveries, order[j]) :: order[j]
  }

  /** The first k rescues have told nobody but invoices among the first k. */
  ghost predicate RescuedOnly(db: Db, deliveries: seq<Delivery>, order: seq<nat>, k: nat) {
    && db.deliveries <= deliveries
    && (forall r :: |db.deliveries| <= r < |deliveries| ==>
          && deliveries[r].kind == InvoiceConfirmed && deliveries[r].status == DeliveryPending
          && deliveries[r].invoice in order[..Min(k, |order|)])
  }

  lemma SameVerdict(db: Db, deliveries: seq<Delivery>, order: seq<nat>, k: nat, i: nat)
    requires RescuedOnly(db, deliveries, order, k) && i !in order[..Min(k, |order|)]
    ensures InFlightOrTold(deliveries, i) <==> InFlightOrTold(db.deliveries, i)
  {
    if InFlightOrTold(db.deliveries, i) {
      var r :| 0 <= r < |db.deliveries| && db.deliveries[r].invoice == i && db.deliveries[r].kind == InvoiceConfirmed
               && db.deliveries[r].status in {DeliveryPending, DeliveryDelivered};
      assert deliveries[r] == db.deliveries[r];
    }
    if InFlightOrTold(deliveries, i) {
      var r :| 0 <= r < |deliveries| && deliveries[r].invoice == i && deliveries[r].kind == InvoiceConfirmed
               && deliveries[r].status in {DeliveryPending, DeliveryDelivered};
      assert r < |db.deliveries|;
    }
  }

  lemma StuckGrows(db: Db, order: seq<nat>, k: nat)
    requires Distinct(order) && k < |order|
    ensures |StuckAmong(db, order, k + 1)| ==
            |StuckAmong(db, order, k)| + (if InFlightOrTold(db.deliveries, order[k]) then 0 else 1)
  {
    var more := if InFlightOrTold(db.deliveries, order[k]) then {} else {order[k]};
    assert StuckAmong(db, order, k + 1) == StuckAmong(db, order, k) + more;
    assert order[k] !in StuckAmong(db, order, k);
  }

  lemma NobodyRescued(db: Db, order: seq<nat>)
    ensures RescuedOnly(db, db.deliveries, order, 0) && |StuckAmong(db, order, 0)| == 0
  {
    assert StuckAmong(db, order, 0) == {};
  }

  lemma HeadCounts(deliveries: seq<Delivery>, d: Delivery, i: nat)
    requires d.kind == InvoiceConfirmed && d.status == DeliveryPending
    ensures InFlightOrTold(deliveries, i) ==> InFlightOrTold(deliveries + [d], i)
    ensures InFlightOrTold(deliveries + [d], d.invoice)
  {
    var after := deliveries + [d];
    assert after[|deliveries|] == d;
    if InFlightOrTold(deliveries, i) {
      var r :| 0 <= r < |deliveries| && deliveries[r].invoice == i && deliveries[r].kind == InvoiceConfirmed
               && deliveries[r].status in {DeliveryPending, DeliveryDelivered};
      assert after[r] == deliveries[r];
    }
  }

  lemma OneMoreRescue(db: Db, at: Swept, order: seq<nat>, k: nat)
    requires Inv(at.db) && ListsStatus(order, db.invoices, Confirmed) && k < |order|
    requires at.db == db.(deliveries := at.db.deliveries)
    requires RescuedOnly(db, at.db.deliveries, order, k)
    requires at.count == Max(0, Min(db.cfg.rescueCap, |StuckAmong(db, order, k)|))
    requires at.count < db.cfg.rescueCap ==> forall j :: 0 <= j < k ==> InFlightOrTold(at.db.deliveries, order[j])
    ensures var r := RescueOne(at, order[k]);
            && RescuedOnly(db, r.db.deliveries, order, k + 1)
            && r.count == Max(0, Min(db.cfg.rescueCap, |StuckAmong(db, order, k + 1)|))
            && (r.count < db.cfg.rescueCap ==> forall j :: 0 <= j < k + 1 ==> InFlightOrTold(r.db.deliveries, order[j]))
  {
    hide Inv, InFlightOrTold;
    var i := order[k];
    assert i !in order[..k];
    assert order[..k + 1] == order[..k] + [i];
    SameVerdict(db, at.db.deliveries, order, k, i);
    StuckGrows(db, order, k);
    var r := RescueOne(at, i);
    if r != at {
      InvoiceFacts(at.db, i);
      var d := FirstAttempt(at.db, i, InvoiceConfirmed, at.db.merchants[at.db.invoices[i].merchant].webhookSecret);
      assert r.db.deliveries == at.db.deliveries + [d];
      forall x
        ensures InFlightOrTold(at.db.deliveries, x) ==> InFlightOrTold(r.db.deliveries, x)
        ensures InFlightOrTold(r.db.deliveries, i)
      {
        HeadCounts(at.db.deliveries, d, x);
      }
    }
  }

  /** After the first k invoices: as many rescues as there were stuck invoices
      among them, up to the cap; every one of them is in flight if the cap was
      not reached. */
  lemma {:induction false} RescueCount(db: Db, order: seq<nat>, k: nat)
    requires Inv(db) && ListsStatus(order, db.invoices, Confirmed) && k <= |order|
    ensures var r := Rescue(db, order, k);
            && RescuedOnly(db, r.db.deliveries, order, k)
            && r.count == Max(0, Min(db.cfg.rescueCap, |StuckAmong(db, order, k)|))
            && (r.count < db.cfg.rescueCap ==> forall j :: 0 <= j < k ==> InFlightOrTold(r.db.deliveries, order[j]))
  {
    hide Inv, InFlightOrTold, RescuedOnly, StuckAmong;
    if k == 0 {
      NobodyRescued(db, order);
    } else {
      RescueCount(db, order, k - 1);
      RescueKeeps(db, order, k - 1);
      OneMoreRescue(db, Rescue(db, order, k - 1), order, k - 1);
    }
  }

  lemma OthersAsBefore(deliveries: seq<Delivery>, d: Delivery, i: nat)
    ensures i != d.invoice && InFlightOrTold(deliveries + [d], i) ==> InFlightOrTold(deliveries, i)
  {
    var after := deliveries + [d];
    if i != d.invoice && InFlightOrTold(after, i) {
      var r :| 0 <= r < |after| && after[r].invoice == i && after[r].kind == InvoiceConfirmed
               && after[r].status in {DeliveryPending, DeliveryDelivered};
      assert deliveries[r] == after[r];
    }
  }

  /** One rescue takes its invoice out of the stuck ones, and no other. */
  lemma OneFewerStuck(at: Swept, i: nat)
    requires Inv(at.db) && i < |at.db.invoices| && at.db.invoices[i].status == Confirmed
    ensures |Stuck(RescueOne(at, i).db)| == |Stuck(at.db)| - (RescueOne(at, i).count - at.count)
  {
    hide Inv, InFlightOrTold;
    var r := RescueOne(at, i);
    if r != at {
      InvoiceFacts(at.db, i);
      var d := FirstAttempt(at.db, i, InvoiceConfirmed, at.db.merchants[at.db.invoices[i].merchant].webhookSecret);
      forall x
        ensures InFlightOrTold(r.db.deliveries, x) <==> InFlightOrTold(at.db.deliveries, x) || x == i
      {
        HeadCounts(at.db.deliveries, d, x);
        OthersAsBefore(at.db.deliveries, d, x);
      }
      assert Stuck(r.db) == Stuck(at.db) - {i};
    }
  }

  lemma {:induction false} StuckFalls(db: Db, order: seq<nat>, k: nat)
    requires Inv(db) && ListsStatus(order, db.invoices, Confirmed) && k <= |order|
    ensures |Stuck(Rescue(db, order, k).db)| == |Stuck(db)| - Rescue(db, order, k).count
  {
    hide Inv, Stuck, RescueOne;
    if k != 0 {
      StuckFalls(db, order, k - 1);
      RescueKeeps(db, order, k - 1);
      OneFewerStuck(Rescue(db, order, k - 1), order[k - 1]);
    }
  }

  lemma AllAreListed(db: Db, order: seq<nat>)
    requires ListsStatus(order, db.invoices, Confirmed)
    ensures StuckAmong(db, order, |order|) == Stuck(db)
  {
    hide InFlightOrTold;
    forall i | i in Stuck(db)
      ensures i in StuckAmong(db, order, |order|)
    {
      assert i in order;
      var j :| 0 <= j < |order| && order[j] == i;
    }
  }

  lemma NoneIsLeft(after: Db, order: seq<nat>)
    requires ListsStatus(order, after.invoices, Confirmed)
    requires forall j :: 0 <= j < |order| ==> InFlightOrTold(after.deliveries, order[j])
    ensures Stuck(after) == {}
  {
    hide InFlightOrTold;
    forall i | 0 <= i < |after.invoices| && after.invoices[i].status == Confirmed
      ensures InFlightOrTold(after.deliveries, i)
    {
      assert i in order;
      var j :| 0 <= j < |order| && order[j] == i;
    }
  }

  /** A pass rescues min(cap, number of stuck invoices) of them, whatever order
      the query lists them in, and leaves as many fewer stuck. */
  lemma RescueExact(db: Db, order: seq<nat>)
    requires Inv(db) && ListsStatus(order, db.invoices, Confirmed)
    ensures var r := Rescue(db, order, |order|);
            && r.count == Max(0, Min(db.cfg.rescueCap, |Stuck(db)|))
            && |Stuck(r.db)| == |Stuck(db)| - r.count
            && (r.count < db.cfg.rescueCap ==> Stuck(r.db) == {})
  {
    hide Inv, InFlightOrTold, Stuck, StuckAmong, RescuedOnly;
    RescueCount(db, order, |order|);
    RescueKeeps(db, order, |order|);
    StuckFalls(db, order, |order|);
    AllAreListed(db, order);
    if Rescue(db, order, |order|).count < db.cfg.rescueCap {
      NoneIsLeft(Rescue(db, order, |order|).db, order);
    }
  }

  ghost predicate ConfirmationPending(deliveries: seq<Delivery>, i: nat) {
    exists r :: 0 <= r < |deliveries| && deliveries[r].invoice == i && deliveries[r].kind == InvoiceConfirmed
                && deliveries[r].status == DeliveryPending
  }

  /** Passes in a row, each with its own listing of the confirmed invoices. */
  ghost predicate RescueRun(db: Db, orders: seq<seq<nat>>)
    decreases |orders|
  {
    orders == [] ||
    (ListsStatus(orders[0], db.invoices, Confirmed)
     && RescueRun(Rescue(db, orders[0], |orders[0]|).db, orders[1..]))
  }

  ghost function AfterRescues(db: Db, orders: seq<seq<nat>>): Db
    requires RescueRun(db, orders)
    decreases |orders|
  {
    if orders == [] then db else AfterRescues(Rescue(db, orders[0], |orders[0]|).db, orders[1..])
  }

  /** However small the cap, n stuck invoices are all announced after n / cap
      passes in a row, rounded up. */
  lemma {:induction false} BacklogIsCleared(db: Db, orders: seq<seq<nat>>)
    requires Inv(db) && RescueRun(db, orders) && 0 < db.cfg.rescueCap
    requires |Stuck(db)| <= |orders| * db.cfg.rescueCap
    ensures Stuck(AfterRescues(db, orders)) == {}
    decreases |orders|
  {
    hide Inv, Stuck, Rescue;
    if orders != [] {
      RescueExact(db, orders[0]);
      RescueKeeps(db, orders[0], |orders[0]|);
      Distribute(db.cfg.rescueCap, |orders| - 1, 1);
      BacklogIsCleared(Rescue(db, orders[0], |orders[0]|).db, orders[1..]);
    }
  }

  lemma InFlightOrToldSplit(deliveries: seq<Delivery>, i: nat)
    ensures InFlightOrTold(deliveries, i) <==> ConfirmationPending(deliveries, i) || Notified(deliveries, i)
  {
    if InFlightOrTold(deliveries, i) {
      var r :| 0 <= r < |deliveries| && deliveries[r].invoice == i && deliveries[r].kind == InvoiceConfirmed
               && deliveries[r].status in {DeliveryPending, DeliveryDelivered};
      assert deliveries[r].status == DeliveryDelivered ==> ConfirmationDelivered(deliveries[r], i);
    }
    if Notified(deliveries, i) {
      var r :| 0 <= r < |deliveries| && ConfirmationDelivered(deliveries[r], i);
    }
  }

  /** A rescue adds only pending rows. */
  lemma NotifiedOnlyBefore(db: Db, deliveries: seq<Delivery>, order: seq<nat>, k: nat, i: nat)
    requires RescuedOnly(db, deliveries, order, k)
    ensures Notified(deliveries, i) <==> Notified(db.deliveries, i)
    ensures ConfirmationPending(db.deliveries, i) ==> ConfirmationPending(deliveries, i)
  {
    if Notified(deliveries, i) {
      var r :| 0 <= r < |deliveries| && ConfirmationDelivered(deliveries[r], i);
      assert deliveries[r] == db.deliveries[r];
    }
    if Notified(db.deliveries, i) {
      var r :| 0 <= r < |db.deliveries| && ConfirmationDelivered(db.deliveries[r], i);
      assert deliveries[r] == db.deliveries[r];
    }
    if ConfirmationPending(db.deliveries, i) {
      var r :| 0 <= r < |db.deliveries| && db.deliveries[r].invoice == i && db.deliveries[r].kind == InvoiceConfirmed
               && db.deliveries[r].status == DeliveryPending;
      assert deliveries[r] == db.deliveries[r];
    }
  }

  lemma StillNotified(before: seq<Delivery>, after: seq<Delivery>, i: nat)
    requires before <= after && Notified(before, i)
    ensures InFlightOrTold(after, i)
  {
    var r :| 0 <= r < |before| && ConfirmationDelivered(before[r], i);
    assert after[r] == before[r];
  }

  /** An invoice with a delivered confirmation gets no row at all. */
  lemma {:induction false} NotifiedGetsNone(db: Db, order: seq<nat>, i: nat, k: nat)
    requires Inv(db) && ListsStatus(order, db.invoices, Confirmed) && k <= |order|
    requires Notified(db.deliveries, i)
    ensures var after := Rescue(db, order, k).db.deliveries;
            && db.deliveries <= after
            && forall r :: |db.deliveries| <= r < |after| ==> after[r].invoice != i
  {
    hide Inv, InFlightOrTold, Notified;
    if k != 0 {
      NotifiedGetsNone(db, order, i, k - 1);
      RescueKeeps(db, order, k - 1);
      var at := Rescue(db, order, k - 1);
      StillNotified(db.deliveries, at.db.deliveries, i);
    }
  }

  lemma NoneMeansNotPending(before: seq<Delivery>, after: seq<Delivery>, i: nat)
    requires before <= after && forall r :: |before| <= r < |after| ==> after[r].invoice != i
    ensures ConfirmationPending(after, i) ==> ConfirmationPending(before, i)
  {
    if ConfirmationPending(after, i) {
      var r :| 0 <= r < |after| && after[r].invoice == i && after[r].kind == InvoiceConfirmed
               && after[r].status == DeliveryPending;
      assert before[r] == after[r];
    }
  }

  /** Exactly when the promise holds that a confirmed invoice is announced: after a
      pass that stayed under its cap it has a pending confirmation if and only if
      it had one before, or had no delivered one. */
  lemma RescuePromiseIff(db: Db, order: seq<nat>, i: nat)
    requires Inv(db) && ListsStatus(order, db.invoices, Confirmed)
    requires i < |db.invoices| && db.invoices[i].status == Confirmed
    requires Rescue(db, order, |order|).count < db.cfg.rescueCap
    ensures ConfirmationPending(Rescue(db, order, |order|).db.deliveries, i) <==>
            ConfirmationPending(db.deliveries, i) || !Notified(db.deliveries, i)
  {
    hide Inv, InFlightOrTold, Notified, ConfirmationPending, RescuedOnly;
    RescueExact(db, order);
    RescueKeeps(db, order, |order|);
    RescueCount(db, order, |order|);
    var after := Rescue(db, order, |order|).db;
    assert i !in Stuck(after);
    InFlightOrToldSplit(after.deliveries, i);
    NotifiedOnlyBefore(db, after.deliveries, order, |order|, i);
    if Notified(db.deliveries, i) {
      NotifiedGetsNone(db, order, i, |order|);
      NoneMeansNotPending(db.deliveries, after.deliveries, i);
    }
  }

  lemma NotYetTold(db: Db, i: nat)
    requires Inv(db) && i < |db.invoices| && db.invoices[i].status == Confirmed
    requires InvoiceReorgged !in Heads(db.deliveries, i)
    ensures !Notified(db.deliveries, i)
  {
  }

  /** A confirmed invoice that was never rolled back has no delivered
      confirmation; so after a pass that stayed under its cap it has a pending
      one. */
  lemma NeverRolledBackIsRescued(db: Db, order: seq<nat>, i: nat)
    requires Reachable(db) && ListsStatus(order, db.invoices, Confirmed)
    requires i < |db.invoices| && db.invoices[i].status == Confirmed
    requires InvoiceReorgged !in Heads(db.deliveries, i)
    requires Rescue(db, order, |order|).count < db.cfg.rescueCap
    ensures !Notified(db.deliveries, i)
    ensures ConfirmationPending(Rescue(db, order, |order|).db.deliveries, i)
  {
    hide Reachable, Inv;
    ReachableInv(db);
    NotYetTold(db, i);
    RescuePromiseIff(db, order, i);
  }

  /** After a rollback the guarantee is gone: as long as an old confirmation
      counts as delivered, a pass never notifies the invoice again, however its
      later confirmations fared. */
  lemma OldDeliverySuppressesRescue(db: Db, order: seq<nat>, i: nat, k: nat)
    requires Inv(db) && ListsStatus(order, db.invoices, Confirmed) && k <= |order|
    requires i < |db.invoices| && Notified(db.deliveries, i)
    ensures Heads(Rescue(db, order, k).db.deliveries, i) == Heads(db.deliveries, i)
  {
    hide Inv, InFlightOrTold, Heads, Notified;
    if k != 0 {
      OldDeliverySuppressesRescue(db, order, i, k - 1);
      RescueKeeps(db, order, k - 1);
      var at := Rescue(db, order, k - 1);
      StillNotified(db.deliveries, at.db.deliveries, i);
      if RescueOne(at, order[k - 1]) != at {
        InvoiceFacts(at.db, order[k - 1]);
        var d := FirstAttempt(at.db, order[k - 1], InvoiceConfirmed,
                              at.db.merchants[at.db.invoices[order[k - 1]].merchant].webhookSecret);
        HookSteps.HeadsSnoc(at.db.deliveries, d, i);
      }
    }
  }

  ghost predicate StaysConfirmed(db: Db, actions: seq<Action>, i: nat)
    requires LegalRun(db, actions)
    decreases |actions|
  {
    && i < |db.invoices| && db.invoices[i].status == Confirmed
    && (actions == [] || StaysConfirmed(Apply(db, actions[0]), actions[1..], i))
  }

  lemma NotifiedStays(a: Db, b: Db, i: nat)
    requires Later(a, b) && Notified(a.deliveries, i)
    ensures Notified(b.deliveries, i)
  {
    var r :| 0 <= r < |a.deliveries| && ConfirmationDelivered(a.deliveries[r], i);
    assert b.deliveries[r] == a.deliveries[r];
  }

  lemma SilencedStep(db: Db, a: Action, i: nat)
    requires Inv(db) && Enabled(db, a) && i < |db.invoices| && Notified(db.deliveries, i)
    requires i < |Apply(db, a).invoices| && db.invoices[i].status == Apply(db, a).invoices[i].status == Confirmed
    ensures Heads(Apply(db, a).deliveries, i) == Heads(db.deliveries, i) && Notified(Apply(db, a).deliveries, i)
  {
    hide Inv, Later, Heads, Notified, InFlightOrTold, Apply, Enabled;
    StepKeeps(db, a);
    NotifiedStays(db, Apply(db, a), i);
    StillNotified(db.deliveries, db.deliveries, i);
    Announcements.StepTells(db, a, i);
  }

  /** Over whole runs: from a state in which a delivered confirmation exists, the
      invoice gets no first attempt of any kind for as long as it stays confirmed,
      through every pass and every other step. */
  lemma {:induction false} SilencedWhileConfirmed(db: Db, actions: seq<Action>, i: nat)
    requires Inv(db) && LegalRun(db, actions) && StaysConfirmed(db, actions, i)
    requires Notified(db.deliveries, i)
    ensures Heads(Exec(db, actions).deliveries, i) == Heads(db.deliveries, i)
    decreases |actions|
  {
    hide Inv, Later, Heads, Notified, Apply, Enabled;
    if actions != [] {
      StepKeeps(db, actions[0]);
      SilencedStep(db, actions[0], i);
      SilencedWhileConfirmed(Apply(db, actions[0]), actions[1..], i);
    }
  }
}
