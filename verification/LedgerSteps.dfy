/** The six kinds of ledger step, over whole states: none of them raises from a
    state that satisfies the invariant (but for the one database guard of a
    rollback), each keeps the invariant, and each changes exactly the rows it
    says. */
module LedgerSteps {
  import opened Basics
  import opened Model
  import opened StateMachine
  import opened Steps
  import opened Invariant
  import MoneySteps
  import HookSteps

  /** The answer to "all invoices in this status", in some order. */
  ghost predicate ListsStatus(order: seq<nat>, invoices: seq<Invoice>, status: Status) {
    && Distinct(order) && Below(order, |invoices|)
    && (forall k :: 0 <= k < |order| ==> invoices[order[k]].status == status)
    && (forall r :: 0 <= r < |invoices| && invoices[r].status == status ==> r in order)
  }

  lemma InvoiceFacts(db: Db, i: nat)
    requires Inv(db) && i < |db.invoices|
    ensures InvoiceOk(db.cfg, i, db.invoices[i]) && db.invoices[i].merchant < |db.merchants|
  {
  }

  lemma DeliveryFacts(db: Db, r: nat)
    requires Inv(db) && r < |db.deliveries|
    ensures DeliveryOk(db.cfg, db.merchants, db.invoices, db.deliveries, r, db.deliveries[r])
  {
  }

  lemma PaymentFacts(db: Db, p: nat)
    requires Inv(db) && p < |db.payments|
    ensures PaymentOk(db.invoices, db.events, db.payments[p])
  {
  }

  /** Moving an invoice along an edge that its webhooks announce. */
  lemma Announce(db: Db, i: nat, inv: Invoice, kind: Kind)
    requires HookInv(db.cfg, db.merchants, db.invoices, db.deliveries) && i < |db.invoices|
    requires SameTerms(db.invoices[i], inv) && inv.status == Announced(kind)
    requires inv.paid == if kind == InvoiceConfirmed then inv.amount else 0
    requires NextTold(ToldBy(db.invoices[i].status), kind) == Some(ToldBy(inv.status))
    requires inv.status != Settled && db.invoices[i].status != Settled
    ensures var after := Enqueue(SetInvoice(db, i, inv), i, kind);
            && after == db.(invoices := db.invoices[i := inv], deliveries := after.deliveries)
            && db.deliveries <= after.deliveries
            && HookInv(db.cfg, db.merchants, after.invoices, after.deliveries)
  {
    var moved := SetInvoice(db, i, inv);
    var d := FirstAttempt(moved, i, kind, db.merchants[inv.merchant].webhookSecret);
    HookSteps.ToldChange(db.cfg, db.merchants, db.invoices, db.deliveries, i, inv, d);
  }

  // -------------------------------------------------------------- ingest

  lemma {:induction false} IngestKeeps(db: Db, batch: seq<Transfer>)
    requires Inv(db) && forall k :: 0 <= k < |batch| ==> ValidTransfer(batch[k])
    ensures Inv(db.(events := IngestAll(db.events, batch).events))
  {
    if batch != [] {
      var before := batch[..|batch| - 1];
      IngestKeeps(db, before);
      var at := IngestAll(db.events, before);
      if !Recorded(at.events, batch[|batch| - 1]) {
        MoneySteps.AddEvent(db.cfg, db.now, db.invoices, at.events, db.payments, batch[|batch| - 1]);
      }
    }
  }

  // -------------------------------------------------------------- create

  lemma InsertKeeps(db: Db, merchant: nat, key: Option<string>, amount: string)
    requires Inv(db) && merchant < |db.merchants|
    requires key.Some? && key.value != "" ==> FindByKey(db.invoices, merchant, key.value).None?
    ensures Inv(Insert(db, merchant, key, amount).0)
  {
    if Insert(db, merchant, key, amount).1.CreatedAs? {
      var inv := NewInvoice(db, merchant, key, Money.ParseAmount(amount).units);
      MoneySteps.AddInvoice(db.cfg, db.now, db.invoices, db.events, db.payments, inv);
      HookSteps.NewInvoiceIsUntold(db.cfg, db.merchants, db.invoices, db.deliveries, inv);
    }
  }

  lemma CreateKeeps(db: Db, authorized: bool, merchant: nat, key: Option<string>, amount: string)
    requires Inv(db)
    ensures Inv(CreateInvoice(db, authorized, merchant, key, amount).0)
  {
    if merchant < |db.merchants| && authorized
       && (key.Some? && key.value != "" ==> FindByKey(db.invoices, merchant, key.value).None?) {
      InsertKeeps(db, merchant, key, amount);
    }
  }

  // -------------------------------------------------------------- credit

  /** Applying an event raises nothing: no illegal transition, no second payment
      for its key. */
  lemma ProcessKeeps(db: Db, e: nat)
    requires Inv(db) && e < |db.events|
    ensures ProcessEvent(db, e).Ok? && Inv(ProcessEvent(db, e).value.db)
    ensures ProcessAndCommit(db, e) == ProcessEvent(db, e)
    ensures |ProcessEvent(db, e).value.db.events| == |db.events|
  {
    hide MoneyInv, HookInv;
    var ev := db.events[e];
    FindMatchIsLowest(db.invoices, ev, 0);
    if ev.status == EventPending {
      match FindMatch(db.invoices, ev)
      case None =>
        MoneySteps.SkipEvent(db.cfg, db.now, db.invoices, db.events, db.payments, e);
      case Some(i) =>
        MoneySteps.PaymentKeyIsFree(db.cfg, db.now, db.invoices, db.events, db.payments, e);
        MoneySteps.CreditInvoice(db.cfg, db.now, db.invoices, db.events, db.payments, e, i, PaymentFor(db, e, i));
        HookSteps.UntoldChange(db.cfg, db.merchants, db.invoices, db.deliveries, i,
                               MoneySteps.CreditedInvoice(db.invoices[i], ev.log));
    }
  }

  // --------------------------------------------------------------- sweep

  function ExpiredRow(inv: Invoice, now: int): Invoice {
    if IsOpen(inv) && inv.expiresAt <= now then inv.(status := Expired) else inv
  }

  function ConfirmedRow(cfg: Settings, inv: Invoice, latest: int): Invoice {
    if inv.status == Confirming && inv.detectedBlock.Some?
       && latest - inv.detectedBlock.value >= cfg.confirmationThreshold
    then inv.(status := Confirmed, confirmedBlock := Some(inv.detectedBlock.value + cfg.confirmationThreshold - 1))
    else inv
  }

  lemma ExpireOneKeeps(at: Swept, i: nat)
    requires Inv(at.db) && i < |at.db.invoices| && IsOpen(at.db.invoices[i])
    ensures var r := ExpireOne(at, i);
            && r.Ok? && Inv(r.value.db)
            && r.value.db == at.db.(invoices := at.db.invoices[i := ExpiredRow(at.db.invoices[i], at.db.now)],
                                    deliveries := r.value.db.deliveries)
            && at.db.deliveries <= r.value.db.deliveries
  {
    hide MoneyInv, HookInv;
    var db := at.db;
    var inv := db.invoices[i];
    InvoiceFacts(db, i);
    if inv.expiresAt <= db.now {
      var gone := ExpiredRow(inv, db.now);
      MoneySteps.ForwardInvoice(db.cfg, db.now, db.invoices, db.events, db.payments, i, gone);
      Announce(db, i, gone, InvoiceExpired);
    } else {
      assert db.invoices[i := inv] == db.invoices;
    }
  }

  /** After k rows of the expiry loop, exactly those among them that were due are
      EXPIRED and no other row has changed. */
  lemma {:induction false} ExpireKeeps(db: Db, order: seq<nat>, k: nat)
    requires Inv(db) && ListsStatus(order, db.invoices, AwaitingPayment) && k <= |order|
    ensures var r := Expire(db, order, k);
            && r.Ok? && Inv(r.value.db)
            && r.value.db == db.(invoices := r.value.db.invoices, deliveries := r.value.db.deliveries)
            && db.deliveries <= r.value.db.deliveries
            && (forall i :: 0 <= i < |db.invoices| ==>
                  r.value.db.invoices[i] ==
                  if i in order[..k] then ExpiredRow(db.invoices[i], db.now) else db.invoices[i])
  {
    hide Inv, ExpireOne, ExpiredRow;
    if k != 0 {
      ExpireKeeps(db, order, k - 1);
      var at := Expire(db, order, k - 1).value;
      var i := order[k - 1];
      assert i !in order[..k - 1];
      ExpireOneKeeps(at, i);
      assert order[..k] == order[..k - 1] + [i];
    }
  }

  lemma ConfirmOneKeeps(at: Swept, i: nat, latest: int)
    requires Inv(at.db) && i < |at.db.invoices| && at.db.invoices[i].status == Confirming
    ensures var r := ConfirmOne(at, i, latest);
            && r.Ok? && Inv(r.value.db)
            && r.value.db == at.db.(invoices := at.db.invoices[i := ConfirmedRow(at.db.cfg, at.db.invoices[i], latest)],
                                    deliveries := r.value.db.deliveries)
            && at.db.deliveries <= r.value.db.deliveries
  {
    hide MoneyInv, HookInv;
    var db := at.db;
    var inv := db.invoices[i];
    InvoiceFacts(db, i);
    var deep := ConfirmedRow(db.cfg, inv, latest);
    if deep != inv {
      MoneySteps.ForwardInvoice(db.cfg, db.now, db.invoices, db.events, db.payments, i, deep);
      Announce(db, i, deep, InvoiceConfirmed);
    } else {
      assert db.invoices[i := inv] == db.invoices;
    }
  }

  lemma {:induction false} ConfirmKeeps(db: Db, order: seq<nat>, latest: int, k: nat)
    requires Inv(db) && ListsStatus(order, db.invoices, Confirming) && k <= |order|
    ensures var r := Confirm(db, order, latest, k);
            && r.Ok? && Inv(r.value.db)
            && r.value.db == db.(invoices := r.value.db.invoices, deliveries := r.value.db.deliveries)
            && db.deliveries <= r.value.db.deliveries
            && (forall i :: 0 <= i < |db.invoices| ==>
                  r.value.db.invoices[i] ==
                  if i in order[..k] then ConfirmedRow(db.cfg, db.invoices[i], latest) else db.invoices[i])
  {
    hide Inv, ConfirmOne, ConfirmedRow;
    if k != 0 {
      ConfirmKeeps(db, order, latest, k - 1);
      var at := Confirm(db, order, latest, k - 1).value;
      var i := order[k - 1];
      assert i !in order[..k - 1];
      ConfirmOneKeeps(at, i, latest);
      assert order[..k] == order[..k - 1] + [i];
    }
  }

  function SweptRow(cfg: Settings, inv: Invoice, now: int, latest: Option<int>): Invoice {
    var first := ExpiredRow(inv, now);
    if latest.Some? then ConfirmedRow(cfg, first, latest.value) else first
  }

  /** A sweep never raises, and whatever order the rows come in it expires every
      open invoice that is due, confirms every one that is deep enough, and
      leaves all other rows alone. */
  lemma SweepExact(db: Db, awaiting: seq<nat>, confirming: seq<nat>, latest: Option<int>)
    requires Inv(db)
    requires ListsStatus(awaiting, db.invoices, AwaitingPayment) && ListsStatus(confirming, db.invoices, Confirming)
    ensures var r := Sweep(db, awaiting, confirming, latest);
            && r.Ok? && Inv(r.value)
            && r.value == db.(invoices := r.value.invoices, deliveries := r.value.deliveries)
            && db.deliveries <= r.value.deliveries
            && |r.value.invoices| == |db.invoices|
            && (forall i :: 0 <= i < |db.invoices| ==>
                  r.value.invoices[i] == SweptRow(db.cfg, db.invoices[i], db.now, latest))
  {
    hide Inv;
    ExpireKeeps(db, awaiting, |awaiting|);
    assert awaiting[..|awaiting|] == awaiting;
    var expired := Expire(db, awaiting, |awaiting|).value.db;
    if latest.Some? {
      forall i | 0 <= i < |db.invoices|
        ensures expired.invoices[i].status == Confirming <==> db.invoices[i].status == Confirming
      {
      }
      ConfirmKeeps(expired, confirming, latest.value, |confirming|);
      assert confirming[..|confirming|] == confirming;
    }
  }

  // ------------------------------------------------------------ dispatch

  function Failed(db: Db, r: nat): Db
    requires r < |db.deliveries|
  {
    SetDelivery(db, r, db.deliveries[r].(status := DeliveryFailed))
  }

  lemma NotRetriedYet(db: Db, r: nat)
    requires Inv(db) && r < |db.deliveries| && db.deliveries[r].status == DeliveryPending
    ensures forall q :: 0 <= q < |db.deliveries| ==> db.deliveries[q].prev != Some(r)
  {
    HookSteps.PendingIsLast(db.cfg, db.merchants, db.invoices, db.deliveries, r);
  }

  lemma FailedKeeps(db: Db, r: nat)
    requires Inv(db) && r < |db.deliveries| && IsDue(db.deliveries[r], db.now)
    ensures 1 <= db.deliveries[r].attempt
    ensures Inv(Failed(db, r))
    ensures var d := db.deliveries[r];
            var after := Failed(db, r).deliveries + [Retry(db.cfg, d, r, db.now)];
            d.attempt < db.cfg.webhookMaxAttempts ==> Inv(Failed(db, r).(deliveries := after))
  {
    hide MoneyInv, HookInv;
    var d := db.deliveries[r];
    var failed := Failed(db, r).deliveries;
    DeliveryFacts(db, r);
    HookSteps.CloseAttempt(db.cfg, db.merchants, db.invoices, db.deliveries, r, failed[r]);
    if d.attempt < db.cfg.webhookMaxAttempts {
      NotRetriedYet(db, r);
      HookSteps.RetryAttempt(db.cfg, db.merchants, db.invoices, failed, r, db.now);
      assert Retry(db.cfg, failed[r], r, db.now) == Retry(db.cfg, d, r, db.now);
    }
  }

  lemma SettlingKeeps(db: Db, r: nat, d: Delivery)
    requires Inv(db) && r < |db.deliveries| && IsDue(db.deliveries[r], db.now)
    requires d == db.deliveries[r].(status := DeliveryDelivered, deliveredAt := Some(db.now))
    requires d.kind == InvoiceConfirmed && d.invoice < |db.invoices| && db.invoices[d.invoice].status == Confirmed
    ensures Inv(Enqueue(SetInvoice(SetDelivery(db, r, d), d.invoice, db.invoices[d.invoice].(status := Settled)),
                        d.invoice, InvoiceSettled))
  {
    hide MoneyInv, HookInv;
    var i := d.invoice;
    InvoiceFacts(db, i);
    var inv := db.invoices[i].(status := Settled);
    var moved := SetInvoice(SetDelivery(db, r, d), i, inv);
    var head := FirstAttempt(moved, i, InvoiceSettled, db.merchants[inv.merchant].webhookSecret);
    HookSteps.SettlingDelivery(db.cfg, db.merchants, db.invoices, db.deliveries, r, d, inv, head);
    MoneySteps.ForwardInvoice(db.cfg, db.now, db.invoices, db.events, db.payments, i, inv);
  }

  lemma DeliveredKeeps(db: Db, r: nat)
    requires Inv(db) && r < |db.deliveries| && IsDue(db.deliveries[r], db.now)
    ensures Delivered(db, r).Ok? && Inv(Delivered(db, r).value)
  {
    hide MoneyInv, HookInv;
    var d := db.deliveries[r].(status := DeliveryDelivered, deliveredAt := Some(db.now));
    DeliveryFacts(db, r);
    if d.kind == InvoiceConfirmed && db.invoices[d.invoice].status == Confirmed {
      SettlingKeeps(db, r, d);
    } else {
      if d.kind == InvoiceConfirmed {
        HookSteps.DeliveredConfirmation(db.cfg, db.merchants, db.invoices, db.deliveries, r);
      }
      HookSteps.CloseAttempt(db.cfg, db.merchants, db.invoices, db.deliveries, r, d);
    }
  }

  lemma DispatchKeeps(db: Db, r: nat, http: Http)
    requires Inv(db) && r < |db.deliveries| && IsDue(db.deliveries[r], db.now)
    ensures 1 <= db.deliveries[r].attempt
    ensures Dispatch(db, r, http).Ok? && Inv(Dispatch(db, r, http).value)
  {
    hide MoneyInv, HookInv;
    var d := db.deliveries[r];
    DeliveryFacts(db, r);
    if d.merchant < |db.merchants| && db.merchants[d.merchant].webhookUrl != "" && !http.Blocked? && Succeeded(http) {
      DeliveredKeeps(db, r);
    } else {
      FailedKeeps(db, r);
    }
  }

  // ----------------------------------------------------------- reconcile

  lemma RescueOneKeeps(at: Swept, i: nat)
    requires Inv(at.db) && i < |at.db.invoices| && at.db.invoices[i].status == Confirmed
    ensures Inv(RescueOne(at, i).db)
    ensures RescueOne(at, i).db == at.db.(deliveries := RescueOne(at, i).db.deliveries)
    ensures at.db.deliveries <= RescueOne(at, i).db.deliveries
  {
    hide MoneyInv, HookInv;
    InvoiceFacts(at.db, i);
    Announce(at.db, i, at.db.invoices[i], InvoiceConfirmed);
    assert at.db.invoices[i := at.db.invoices[i]] == at.db.invoices;
    assert SetInvoice(at.db, i, at.db.invoices[i]) == at.db;
  }

  lemma {:induction false} RescueKeeps(db: Db, order: seq<nat>, k: nat)
    requires Inv(db) && ListsStatus(order, db.invoices, Confirmed) && k <= |order|
    ensures Inv(Rescue(db, order, k).db)
    ensures Rescue(db, order, k).db == db.(deliveries := Rescue(db, order, k).db.deliveries)
    ensures db.deliveries <= Rescue(db, order, k).db.deliveries
  {
    hide Inv;
    if k != 0 {
      RescueKeeps(db, order, k - 1);
      RescueOneKeeps(Rescue(db, order, k - 1), order[k - 1]);
    }
  }

  /** A rollback fails only on the unique index over open invoices. Otherwise it
      keeps the invariant: the payment and its event are orphaned, the invoice
      (unless it is settled) is open and unpaid again, and nothing else moves. */
  lemma ApplyReorgKeeps(db: Db, p: nat)
    requires Inv(db) && p < |db.payments| && Live(db.payments[p])
    ensures db.payments[p].event < |db.events| && db.payments[p].invoice < |db.invoices|
    ensures var i := db.payments[p].invoice;
            var inv := MoneySteps.OrphanedInvoice(db.invoices[i], db.payments[p].amount);
            var r := ApplyReorg(db, p);
            if OpenCollision(db.invoices[i := inv], i) then r == Err(OpenKeyTaken)
            else && r.Ok? && Inv(r.value)
                 && r.value == Orphan(db, p).(invoices := db.invoices[i := inv], deliveries := r.value.deliveries)
                 && db.deliveries <= r.value.deliveries
  {
    hide MoneyInv, HookInv;
    PaymentFacts(db, p);
    var i := db.payments[p].invoice;
    var was := db.invoices[i];
    InvoiceFacts(db, i);
    var inv := MoneySteps.OrphanedInvoice(was, db.payments[p].amount);
    RollBackReachesAwaiting(was.status);
    if was.status == Settled {
      assert db.invoices[i := inv] == db.invoices;
    }
    if !OpenCollision(db.invoices[i := inv], i) {
      MoneySteps.OrphanPayment(db.cfg, db.now, db.invoices, db.events, db.payments, p, inv);
      if was.status != Settled {
        var marked := Orphan(db, p);
        Announce(marked, i, inv, InvoiceReorgged);
      }
    }
  }
}
