/** The ledger read as a whole: how many payments stand behind an invoice, and
    where every credited amount is. */
module Conservation {
  import opened Basics
  import opened Model
  import opened Invariant
  import opened LedgerSteps
  import opened Runs

  // ------------------------------------------------- counting payments

  ghost function LivePayments(db: Db, i: nat): set<nat> {
    set p | 0 <= p < |db.payments| && Live(db.payments[p]) && db.payments[p].invoice == i :: p
  }

  ghost function PaymentsOf(db: Db, e: nat): set<nat> {
    set p | 0 <= p < |db.payments| && db.payments[p].event == e :: p
  }

  lemma AtMostOne(s: set<nat>)
    requires forall a, b :: a in s && b in s ==> a == b
    ensures |s| <= 1
  {
    if s != {} {
      var a :| a in s;
      assert s == {a};
    }
  }

  lemma LivePaymentCount(db: Db, i: nat)
    requires Inv(db) && i < |db.invoices|
    ensures |LivePayments(db, i)| <= 1
    ensures HasLivePayment(db.payments, i) <==> |LivePayments(db, i)| == 1
  {
    var s := LivePayments(db, i);
    AtMostOne(s);
    if HasLivePayment(db.payments, i) {
      var p :| 0 <= p < |db.payments| && db.payments[p].invoice == i && Live(db.payments[p]);
      assert p in s;
    }
    if s != {} {
      var p :| p in s;
      assert db.payments[p].invoice == i;
    }
  }

  lemma ConfirmingHasPayment(db: Db, i: nat)
    requires Inv(db) && i < |db.invoices| && db.invoices[i].status in {Confirming, Confirmed}
    ensures HasLivePayment(db.payments, i)
  {
  }

  /** Every invoice of every reachable state: its status is one of five, and the
      status says how many payments stand behind it, how much is credited and
      which blocks are recorded. */
  lemma ReachableInvoice(db: Db, i: nat)
    requires Reachable(db) && i < |db.invoices|
    ensures var inv := db.invoices[i];
            var live := LivePayments(db, i);
            && (inv.status in {AwaitingPayment, Expired} ==>
                  |live| == 0 && inv.paid == 0 && inv.detectedBlock.None? && inv.confirmedBlock.None?)
            && (inv.status == Confirming ==> |live| == 1 && inv.confirmedBlock.None?)
            && (inv.status == Confirmed ==> |live| == 1)
            && (inv.status == Settled ==> |live| <= 1)
            && inv.status !in {Created, Detected}
            && (Paid(inv.status) ==> inv.paid == inv.amount && inv.detectedBlock.Some?)
            && (inv.status in {Confirmed, Settled} ==>
                  inv.confirmedBlock == Some(inv.detectedBlock.value + db.cfg.confirmationThreshold - 1))
            && (forall p :: p in live ==> inv.detectedBlock == Some(db.payments[p].block))
  {
    hide Reachable, Inv;
    ReachableInv(db);
    LivePaymentCount(db, i);
    InvoiceFacts(db, i);
    forall p | p in LivePayments(db, i)
      ensures PaymentOk(db.invoices, db.events, db.payments[p])
    {
      PaymentFacts(db, p);
    }
    if db.invoices[i].status in {Confirming, Confirmed} {
      ConfirmingHasPayment(db, i);
    }
    if |LivePayments(db, i)| != 0 {
      var p :| p in LivePayments(db, i);
      assert Paid(db.invoices[i].status);
    }
  }

  /** Payments and applied events correspond one to one: an event has exactly one
      payment if it is processed or orphaned and none otherwise, and the payment
      is marked orphaned exactly when the event is. */
  lemma OnePaymentPerAppliedEvent(db: Db, e: nat)
    requires Reachable(db) && e < |db.events|
    ensures |PaymentsOf(db, e)| == if db.events[e].status in {EventProcessed, EventOrphaned} then 1 else 0
    ensures forall p :: p in PaymentsOf(db, e) ==> (Live(db.payments[p]) <==> db.events[e].status == EventProcessed)
  {
    hide Reachable;
    ReachableInv(db);
    var s := PaymentsOf(db, e);
    AtMostOne(s);
    forall p | p in s
      ensures PaymentOk(db.invoices, db.events, db.payments[p])
    {
      PaymentFacts(db, p);
    }
    if db.events[e].status in {EventProcessed, EventOrphaned} {
      var p :| 0 <= p < |db.payments| && db.payments[p].event == e;
      assert p in s;
    }
  }

  // -------------------------------------------------------------- sums

  function LiveAmount(p: Payment): int {
    if Live(p) then p.amount else 0
  }

  function LiveTotal(payments: seq<Payment>): int {
    if payments == [] then 0
    else LiveTotal(payments[..|payments| - 1]) + LiveAmount(payments[|payments| - 1])
  }

  /** The live amounts of the payments whose group is k. */
  function GroupSum(payments: seq<Payment>, group: Payment -> nat, k: nat): int {
    if payments == [] then 0
    else
      var last := payments[|payments| - 1];
      GroupSum(payments[..|payments| - 1], group, k) + (if group(last) == k then LiveAmount(last) else 0)
  }

  function AllGroups(payments: seq<Payment>, group: Payment -> nat, n: nat): int {
    if n == 0 then 0 else AllGroups(payments, group, n - 1) + GroupSum(payments, group, n - 1)
  }

  lemma {:induction false} EmptyGroups(group: Payment -> nat, n: nat)
    ensures AllGroups([], group, n) == 0
  {
    if n != 0 {
      EmptyGroups(group, n - 1);
    }
  }

  lemma {:induction false} OneMoreInGroups(payments: seq<Payment>, p: Payment, group: Payment -> nat, n: nat)
    ensures AllGroups(payments + [p], group, n) ==
            AllGroups(payments, group, n) + (if group(p) < n then LiveAmount(p) else 0)
  {
    if n != 0 {
      OneMoreInGroups(payments, p, group, n - 1);
      assert (payments + [p])[..|payments|] == payments;
    }
  }

  /** Adding up by group loses nothing. */
  lemma {:induction false} GroupsPartition(payments: seq<Payment>, group: Payment -> nat, n: nat)
    requires forall p :: 0 <= p < |payments| ==> group(payments[p]) < n
    ensures AllGroups(payments, group, n) == LiveTotal(payments)
  {
    if payments == [] {
      EmptyGroups(group, n);
    } else {
      var before, last := payments[..|payments| - 1], payments[|payments| - 1];
      assert payments == before + [last];
      GroupsPartition(before, group, n);
      OneMoreInGroups(before, last, group, n);
    }
  }

  ghost predicate InGroup(payments: seq<Payment>, group: Payment -> nat, k: nat) {
    exists p :: 0 <= p < |payments| && Live(payments[p]) && group(payments[p]) == k
  }

  /** A group with at most one live payment sums to that payment's amount. */
  lemma {:induction false} GroupOfOne(payments: seq<Payment>, group: Payment -> nat, k: nat, amount: int)
    requires forall a, b :: 0 <= a < b < |payments| && Live(payments[a]) && Live(payments[b])
                            && group(payments[a]) == k ==>
               group(payments[b]) != k
    requires forall p :: 0 <= p < |payments| && Live(payments[p]) && group(payments[p]) == k ==>
              payments[p].amount == amount
    ensures GroupSum(payments, group, k) == if InGroup(payments, group, k) then amount else 0
  {
    if payments != [] {
      var before, last := payments[..|payments| - 1], payments[|payments| - 1];
      GroupOfOne(before, group, k, amount);
      if InGroup(before, group, k) {
        var p :| 0 <= p < |before| && Live(before[p]) && group(before[p]) == k;
        assert payments[p] == before[p];
      }
      if Live(last) && group(last) == k {
        assert payments[|payments| - 1] == last;
      }
    }
  }

  // ------------------------------------------------------ conservation

  function TotalPaid(invoices: seq<Invoice>, n: nat): int
    requires n <= |invoices|
  {
    if n == 0 then 0 else TotalPaid(invoices, n - 1) + invoices[n - 1].paid
  }

  function TotalProcessed(events: seq<ChainEvent>, n: nat): int
    requires n <= |events|
  {
    if n == 0 then 0
    else TotalProcessed(events, n - 1)
         + (if events[n - 1].status == EventProcessed then events[n - 1].log.amount else 0)
  }

  /** Amounts that settled invoices keep although their payment left the chain. */
  ghost function SettledUnbacked(db: Db, n: nat): int
    requires n <= |db.invoices|
  {
    if n == 0 then 0
    else SettledUnbacked(db, n - 1)
         + (if db.invoices[n - 1].status == Settled && |LivePayments(db, n - 1)| == 0
            then db.invoices[n - 1].amount else 0)
  }

  lemma PaidByPayments(db: Db, i: nat)
    requires Inv(db) && i < |db.invoices|
    ensures db.invoices[i].paid == GroupSum(db.payments, (p: Payment) => p.invoice, i)
              + (if db.invoices[i].status == Settled && |LivePayments(db, i)| == 0 then db.invoices[i].amount else 0)
  {
    var group := (p: Payment) => p.invoice;
    forall p | 0 <= p < |db.payments| && Live(db.payments[p]) && group(db.payments[p]) == i
      ensures db.payments[p].amount == db.invoices[i].amount && Paid(db.invoices[i].status)
    {
      PaymentFacts(db, p);
    }
    GroupOfOne(db.payments, group, i, db.invoices[i].amount);
    LivePaymentCount(db, i);
    InvoiceFacts(db, i);
    assert InGroup(db.payments, group, i) <==> HasLivePayment(db.payments, i);
  }

  lemma {:induction false} PaidIsBacked(db: Db, n: nat)
    requires Inv(db) && n <= |db.invoices|
    ensures TotalPaid(db.invoices, n) == AllGroups(db.payments, (p: Payment) => p.invoice, n) + SettledUnbacked(db, n)
  {
    hide Inv;
    if n != 0 {
      PaidIsBacked(db, n - 1);
      PaidByPayments(db, n - 1);
    }
  }

  lemma ProcessedByPayments(db: Db, e: nat)
    requires Inv(db) && e < |db.events|
    ensures GroupSum(db.payments, (p: Payment) => p.event, e) ==
            if db.events[e].status == EventProcessed then db.events[e].log.amount else 0
  {
    var group := (p: Payment) => p.event;
    forall p | 0 <= p < |db.payments| && group(db.payments[p]) == e
      ensures db.payments[p].amount == db.events[e].log.amount
      ensures Live(db.payments[p]) <==> db.events[e].status == EventProcessed
    {
      PaymentFacts(db, p);
    }
    GroupOfOne(db.payments, group, e, db.events[e].log.amount);
    if db.events[e].status == EventProcessed {
      var p :| 0 <= p < |db.payments| && db.payments[p].event == e;
      assert Live(db.payments[p]) && group(db.payments[p]) == e;
    }
  }

  lemma {:induction false} ProcessedIsPaid(db: Db, n: nat)
    requires Inv(db) && n <= |db.events|
    ensures TotalProcessed(db.events, n) == AllGroups(db.payments, (p: Payment) => p.event, n)
  {
    hide Inv;
    if n != 0 {
      ProcessedIsPaid(db, n - 1);
      ProcessedByPayments(db, n - 1);
    }
  }

  /** Conservation: in every reachable state the amounts credited to invoices
      are the amounts of the processed events plus what settled invoices keep
      after their payment was orphaned. */
  lemma Conserved(db: Db)
    requires Reachable(db)
    ensures TotalPaid(db.invoices, |db.invoices|) ==
            TotalProcessed(db.events, |db.events|) + SettledUnbacked(db, |db.invoices|)
  {
    hide Reachable, Inv;
    ReachableInv(db);
    forall p | 0 <= p < |db.payments|
      ensures db.payments[p].invoice < |db.invoices| && db.payments[p].event < |db.events|
    {
      PaymentFacts(db, p);
    }
    PaidIsBacked(db, |db.invoices|);
    ProcessedIsPaid(db, |db.events|);
    GroupsPartition(db.payments, (p: Payment) => p.invoice, |db.invoices|);
    GroupsPartition(db.payments, (p: Payment) => p.event, |db.events|);
  }
}
