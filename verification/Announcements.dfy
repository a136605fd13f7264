/** What each step tells the merchants: the first attempts it adds are exactly
    the news of the status changes it makes. */
module Announcements {
  import opened Basics
  import opened Model
  import opened Steps
  import opened Invariant
  import opened LedgerSteps
  import opened CrosscheckExactness
  import opened Runs
  import HookSteps
  import Money
  import StateMachine

  /** What a merchant is told when an invoice goes from one status to another. */
  function News(before: Status, after: Status): seq<Kind> {
    match (before, after)
    case (AwaitingPayment, Expired) => [InvoiceExpired]
    case (Confirming, Confirmed) => [InvoiceConfirmed]
    case (Confirmed, Settled) => [InvoiceSettled]
    case (Confirming, AwaitingPayment) => [InvoiceReorgged]
    case (Confirmed, AwaitingPayment) => [InvoiceReorgged]
    case _ => []
  }

  /** Between two states invoice x was told the news of its change of status, and
      nothing else. */
  ghost predicate TellsTheNews(db: Db, after: Db, x: nat) {
    && x < |db.invoices| && x < |after.invoices|
    && Heads(after.deliveries, x) ==
       Heads(db.deliveries, x) + News(db.invoices[x].status, after.invoices[x].status)
  }

  /** A confirmed invoice that no pending or delivered message announced was
      announced again, before any other news. */
  ghost predicate TellsAgain(db: Db, after: Db, x: nat) {
    && x < |db.invoices| && x < |after.invoices|
    && db.invoices[x].status == Confirmed && !InFlightOrTold(db.deliveries, x)
    && Heads(after.deliveries, x) ==
       Heads(db.deliveries, x) + [InvoiceConfirmed] + News(Confirmed, after.invoices[x].status)
  }

  lemma EnqueueTells(db: Db, i: nat, kind: Kind, x: nat)
    requires i < |db.invoices| && db.invoices[i].merchant < |db.merchants|
    ensures Heads(Enqueue(db, i, kind).deliveries, x) == Heads(db.deliveries, x) + (if x == i then [kind] else [])
  {
    hide Heads;
    HookSteps.HeadsSnoc(db.deliveries, FirstAttempt(db, i, kind, db.merchants[db.invoices[i].merchant].webhookSecret),
                        x);
  }

  // --------------------------------------------------------------- sweep

  lemma OneMoreRow(order: seq<nat>, k: nat, x: nat)
    requires Distinct(order) && k < |order|
    ensures order[k] !in order[..k]
    ensures x in order[..k + 1] <==> x in order[..k] || x == order[k]
  {
    assert order[..k + 1] == order[..k] + [order[k]];
  }

  lemma ExpireOneTells(at: Swept, i: nat, x: nat)
    requires Inv(at.db) && i < |at.db.invoices| && IsOpen(at.db.invoices[i])
    ensures ExpireOne(at, i).Ok?
    ensures var gone := ExpiredRow(at.db.invoices[i], at.db.now);
            Heads(ExpireOne(at, i).value.db.deliveries, x) ==
            Heads(at.db.deliveries, x) + (if x == i then News(AwaitingPayment, gone.status) else [])
  {
    hide Heads, MoneyInv, DeliveriesOk, ChainsLinear, TraceOk, NotifiedOk;
    var inv := at.db.invoices[i];
    EnqueueTells(SetInvoice(at.db, i, inv.(status := Expired)), i, InvoiceExpired, x);
  }

  /** The loop meets every row as it was before the pass. */
  lemma NotYetExpired(db: Db, order: seq<nat>, k: nat)
    requires Inv(db) && ListsStatus(order, db.invoices, AwaitingPayment) && k < |order|
    ensures var r := Expire(db, order, k);
            && r.Ok? && Inv(r.value.db) && r.value.db.now == db.now
            && order[k] < |r.value.db.invoices| && r.value.db.invoices[order[k]] == db.invoices[order[k]]
  {
    hide Inv, ExpiredRow, Expire;
    ExpireKeeps(db, order, k);
    OneMoreRow(order, k, 0);
  }

  lemma {:induction false} ExpireTells(db: Db, order: seq<nat>, k: nat, x: nat)
    requires Inv(db) && ListsStatus(order, db.invoices, AwaitingPayment) && k <= |order| && x < |db.invoices|
    ensures Expire(db, order, k).Ok?
    ensures Heads(Expire(db, order, k).value.db.deliveries, x) ==
            Heads(db.deliveries, x) +
            (if x in order[..k] then News(AwaitingPayment, ExpiredRow(db.invoices[x], db.now).status) else [])
  {
    hide Inv, ExpireOne, Heads, News, ExpiredRow;
    if k != 0 {
      ExpireTells(db, order, k - 1, x);
      NotYetExpired(db, order, k - 1);
      OneMoreRow(order, k - 1, x);
      ExpireOneTells(Expire(db, order, k - 1).value, order[k - 1], x);
    }
  }

  lemma ConfirmOneTells(at: Swept, i: nat, latest: int, x: nat)
    requires Inv(at.db) && i < |at.db.invoices| && at.db.invoices[i].status == Confirming
    ensures ConfirmOne(at, i, latest).Ok?
    ensures var deep := ConfirmedRow(at.db.cfg, at.db.invoices[i], latest);
            Heads(ConfirmOne(at, i, latest).value.db.deliveries, x) ==
            Heads(at.db.deliveries, x) + (if x == i then News(Confirming, deep.status) else [])
  {
    hide Heads, Inv;
    InvoiceFacts(at.db, i);
    var deep := ConfirmedRow(at.db.cfg, at.db.invoices[i], latest);
    EnqueueTells(SetInvoice(at.db, i, deep), i, InvoiceConfirmed, x);
  }

  lemma NotYetConfirmed(db: Db, order: seq<nat>, latest: int, k: nat)
    requires Inv(db) && ListsStatus(order, db.invoices, Confirming) && k < |order|
    ensures var r := Confirm(db, order, latest, k);
            && r.Ok? && Inv(r.value.db) && r.value.db.cfg == db.cfg
            && order[k] < |r.value.db.invoices| && r.value.db.invoices[order[k]] == db.invoices[order[k]]
  {
    hide Inv, ConfirmedRow, Confirm;
    ConfirmKeeps(db, order, latest, k);
    OneMoreRow(order, k, 0);
  }

  lemma {:induction false} ConfirmTells(db: Db, order: seq<nat>, latest: int, k: nat, x: nat)
    requires Inv(db) && ListsStatus(order, db.invoices, Confirming) && k <= |order| && x < |db.invoices|
    ensures Confirm(db, order, latest, k).Ok?
    ensures Heads(Confirm(db, order, latest, k).value.db.deliveries, x) ==
            Heads(db.deliveries, x) +
            (if x in order[..k] then News(Confirming, ConfirmedRow(db.cfg, db.invoices[x], latest).status) else [])
  {
    hide Inv, ConfirmOne, Heads, ConfirmedRow, News;
    if k != 0 {
      ConfirmTells(db, order, latest, k - 1, x);
      NotYetConfirmed(db, order, latest, k - 1);
      OneMoreRow(order, k - 1, x);
      ConfirmOneTells(Confirm(db, order, latest, k - 1).value, order[k - 1], latest, x);
    }
  }

  lemma SweepTells(db: Db, awaiting: seq<nat>, confirming: seq<nat>, latest: Option<int>, x: nat)
    requires Inv(db) && x < |db.invoices|
    requires ListsStatus(awaiting, db.invoices, AwaitingPayment) && ListsStatus(confirming, db.invoices, Confirming)
    ensures Sweep(db, awaiting, confirming, latest).Ok?
    ensures TellsTheNews(db, Sweep(db, awaiting, confirming, latest).value, x)
  {
    hide Inv, Heads, Expire, Confirm;
    SweepExact(db, awaiting, confirming, latest);
    ExpireKeeps(db, awaiting, |awaiting|);
    ExpireTells(db, awaiting, |awaiting|, x);
    assert awaiting[..|awaiting|] == awaiting;
    var expired := Expire(db, awaiting, |awaiting|).value.db;
    if latest.Some? {
      forall i | 0 <= i < |db.invoices|
        ensures expired.invoices[i].status == Confirming <==> db.invoices[i].status == Confirming
      {
      }
      ConfirmTells(expired, confirming, latest.value, |confirming|, x);
      assert confirming[..|confirming|] == confirming;
    }
  }

  // ------------------------------------------------------------ dispatch

  lemma RetryIsNoHead(cfg: Settings, deliveries: seq<Delivery>, d: Delivery, r: nat, now: int, x: nat)
    requires 1 <= d.attempt
    ensures Heads(deliveries + [Retry(cfg, d, r, now)], x) == Heads(deliveries, x)
  {
    HookSteps.HeadsSnoc(deliveries, Retry(cfg, d, r, now), x);
  }

  lemma DeliveredTells(db: Db, r: nat, x: nat)
    requires Inv(db) && r < |db.deliveries| && Delivered(db, r).Ok? && x < |db.invoices|
    ensures TellsTheNews(db, Delivered(db, r).value, x)
  {
    hide Inv, Heads, FirstAttempt;
    var d := db.deliveries[r];
    DeliveryFacts(db, r);
    InvoiceFacts(db, d.invoice);
    var sent := SetDelivery(db, r, d.(status := DeliveryDelivered, deliveredAt := Some(db.now)));
    HookSteps.HeadsSame(db.deliveries, sent.deliveries, x);
    var inv := db.invoices[d.invoice];
    EnqueueTells(SetInvoice(sent, d.invoice, inv.(status := Settled)), d.invoice, InvoiceSettled, x);
  }

  lemma DispatchTells(db: Db, r: nat, http: Http, x: nat)
    requires Inv(db) && r < |db.deliveries| && IsDue(db.deliveries[r], db.now) && x < |db.invoices|
    ensures 1 <= db.deliveries[r].attempt && Dispatch(db, r, http).Ok?
    ensures TellsTheNews(db, Dispatch(db, r, http).value, x)
  {
    hide Inv, Heads, Retry, FirstAttempt;
    DispatchKeeps(db, r, http);
    DeliveryFacts(db, r);
    var d := db.deliveries[r];
    InvoiceFacts(db, d.invoice);
    var closed := db.deliveries[r := d.(status := DeliveryFailed)];
    HookSteps.HeadsSame(db.deliveries, closed, x);
    RetryIsNoHead(db.cfg, closed, d, r, db.now, x);
    if Dispatch(db, r, http) == Delivered(db, r) {
      DeliveredTells(db, r, x);
    }
  }

  // ----------------------------------------------------------- reconcile

  lemma RescueOneTells(at: Swept, i: nat, x: nat)
    requires Inv(at.db) && i < |at.db.invoices|
    ensures Heads(RescueOne(at, i).db.deliveries, x) == Heads(at.db.deliveries, x) || x == i
    ensures InFlightOrTold(at.db.deliveries, i) ==> RescueOne(at, i) == at
    ensures RescueOne(at, i) != at ==>
              Heads(RescueOne(at, i).db.deliveries, i) == Heads(at.db.deliveries, i) + [InvoiceConfirmed]
  {
    hide Inv, Heads, InFlightOrTold;
    InvoiceFacts(at.db, i);
    EnqueueTells(at.db, i, InvoiceConfirmed, x);
    EnqueueTells(at.db, i, InvoiceConfirmed, i);
  }

  lemma StillInFlight(before: seq<Delivery>, after: seq<Delivery>, i: nat)
    requires before <= after && InFlightOrTold(before, i)
    ensures InFlightOrTold(after, i)
  {
    var r :| 0 <= r < |before| && before[r].invoice == i && before[r].kind == InvoiceConfirmed
             && before[r].status in {DeliveryPending, DeliveryDelivered};
    assert after[r] == before[r];
  }

  /** A rescue pass tells an invoice nothing, or once more that it is confirmed. */
  lemma {:induction false} RescueTells(db: Db, order: seq<nat>, k: nat, x: nat)
    requires Inv(db) && ListsStatus(order, db.invoices, Confirmed) && k <= |order|
    ensures var r := Rescue(db, order, k);
            && db.deliveries <= r.db.deliveries
            && (Heads(r.db.deliveries, x) == Heads(db.deliveries, x)
                || (x in order[..k] && !InFlightOrTold(db.deliveries, x)
                    && Heads(r.db.deliveries, x) == Heads(db.deliveries, x) + [InvoiceConfirmed]))
  {
    hide Inv, Heads, InFlightOrTold, RescueOne;
    if k != 0 {
      RescueTells(db, order, k - 1, x);
      RescueKeeps(db, order, k - 1);
      RescueKeeps(db, order, k);
      var at, i := Rescue(db, order, k - 1), order[k - 1];
      assert i !in order[..k - 1];
      assert order[..k] == order[..k - 1] + [i];
      RescueOneTells(at, i, x);
      if InFlightOrTold(db.deliveries, i) {
        StillInFlight(db.deliveries, at.db.deliveries, i);
      }
    }
  }

  lemma ApplyReorgTells(db: Db, p: nat, x: nat)
    requires Inv(db) && p < |db.payments| && Live(db.payments[p])
    ensures db.payments[p].event < |db.events| && db.payments[p].invoice < |db.invoices|
    ensures ApplyReorg(db, p).Ok? ==>
              var i := db.payments[p].invoice;
              Heads(ApplyReorg(db, p).value.deliveries, x) ==
              Heads(db.deliveries, x) + (if x == i && db.invoices[i].status != Settled then [InvoiceReorgged] else [])
  {
    hide Inv, Heads, FirstAttempt;
    PaymentFacts(db, p);
    var i := db.payments[p].invoice;
    InvoiceFacts(db, i);
    StateMachine.RollBackReachesAwaiting(db.invoices[i].status);
    EnqueueTells(SetInvoice(Orphan(db, p), i, Unpaid(db.invoices[i], AwaitingPayment, db.payments[p].amount)),
                 i, InvoiceReorgged, x);
  }

  lemma OncePerInvoice(db: Db, picked: seq<nat>, answers: seq<Answer>, latest: int, k: nat)
    requires Inv(db) && PicksNewest(picked, db.payments, |picked|) && k < |picked|
    ensures var i := db.payments[picked[k]].invoice;
            !CondemnedInvoice(db, picked, answers, latest, k, i)
  {
    CondemnedGrows(db, picked, answers, latest, k, picked[k]);
  }

  lemma CondemnedInvoiceGrows(db: Db, picked: seq<nat>, answers: seq<Answer>, latest: int, k: nat, x: nat)
    requires PicksNewest(picked, db.payments, |picked|) && k < |picked|
    ensures CondemnedInvoice(db, picked, answers, latest, k + 1, x) <==>
            || CondemnedInvoice(db, picked, answers, latest, k, x)
            || (Condemned(db, picked, answers, latest, k + 1, picked[k]) && x == db.payments[picked[k]].invoice)
  {
    forall p
      ensures Condemned(db, picked, answers, latest, k + 1, p) <==>
              || Condemned(db, picked, answers, latest, k, p)
              || (p == picked[k] && Condemned(db, picked, answers, latest, k + 1, p))
    {
      CondemnedGrows(db, picked, answers, latest, k, p);
    }
  }

  lemma NobodyCondemned(db: Db, picked: seq<nat>, answers: seq<Answer>, latest: int, x: nat)
    ensures !CondemnedInvoice(db, picked, answers, latest, 0, x)
  {
  }

  lemma CheckOneTells(db: Db, at: Checked, picked: seq<nat>, answers: seq<Answer>, latest: int, k: nat, x: nat)
    requires Inv(db) && PicksNewest(picked, db.payments, |picked|) && k < |picked| && x < |db.invoices|
    requires Inv(at.db) && Reorgged(db, at.db, picked, answers, latest, k) && picked[k] < |at.db.payments|
    requires CheckOne(at, picked[k], AnswerAt(answers, k), latest).Ok?
    requires Heads(at.db.deliveries, x) ==
             Heads(db.deliveries, x) +
             (if CondemnedInvoice(db, picked, answers, latest, k, x) && db.invoices[x].status != Settled
              then [InvoiceReorgged] else [])
    ensures Heads(CheckOne(at, picked[k], AnswerAt(answers, k), latest).value.db.deliveries, x) ==
            Heads(db.deliveries, x) +
            (if CondemnedInvoice(db, picked, answers, latest, k + 1, x) && db.invoices[x].status != Settled
             then [InvoiceReorgged] else [])
  {
    hide Inv, Heads, Reorgged, CondemnedInvoice, Condemned, ApplyReorg;
    CheckOneCase(db, at, picked, answers, latest, k);
    CondemnedInvoiceGrows(db, picked, answers, latest, k, x);
    OncePerInvoice(db, picked, answers, latest, k);
    if Condemned(db, picked, answers, latest, k + 1, picked[k]) {
      ApplyReorgTells(at.db, picked[k], x);
    }
  }

  /** A cross-check pass tells every invoice it reopens that its payment is gone,
      once, and nobody else anything. */
  lemma {:induction false} CrosscheckTells(db: Db, picked: seq<nat>, answers: seq<Answer>, latest: int, k: nat, x: nat)
    requires Inv(db) && PicksNewest(picked, db.payments, |picked|) && k <= |picked| && x < |db.invoices|
    requires Crosscheck(db, picked, answers, latest, k).Ok?
    ensures Heads(Crosscheck(db, picked, answers, latest, k).value.db.deliveries, x) ==
            Heads(db.deliveries, x) +
            (if CondemnedInvoice(db, picked, answers, latest, k, x) && db.invoices[x].status != Settled
             then [InvoiceReorgged] else [])
  {
    hide Inv, Heads, CheckOne, Reorgged, CondemnedInvoice, Condemned;
    if k == 0 {
      NobodyCondemned(db, picked, answers, latest, x);
    } else {
      CrosscheckTells(db, picked, answers, latest, k - 1, x);
      CrosscheckExact(db, picked, answers, latest, k - 1);
      CheckOneTells(db, Crosscheck(db, picked, answers, latest, k - 1).value, picked, answers, latest, k - 1, x);
    }
  }

  // ------------------------------------------------------------ the steps

  lemma Unchanged(db: Db, after: Db, x: nat)
    requires x < |db.invoices| && x < |after.invoices| && after.deliveries == db.deliveries
    requires after.invoices[x].status == db.invoices[x].status
    ensures TellsTheNews(db, after, x)
  {
  }

  lemma CreateTells(db: Db, authorized: bool, merchant: nat, key: Option<string>, amount: string, x: nat)
    requires x < |db.invoices|
    ensures TellsTheNews(db, CreateInvoice(db, authorized, merchant, key, amount).0, x)
  {
    hide TellsTheNews, Money.ParseAmount, OpenKeyFree, FindByKey;
    Unchanged(db, CreateInvoice(db, authorized, merchant, key, amount).0, x);
  }

  lemma IngestTells(db: Db, batch: seq<Transfer>, x: nat)
    requires x < |db.invoices|
    ensures TellsTheNews(db, Ingest(db, batch), x)
  {
    Unchanged(db, Ingest(db, batch), x);
  }

  lemma ProcessTells(db: Db, e: nat, x: nat)
    requires Inv(db) && e < |db.events| && x < |db.invoices|
    ensures ProcessAndCommit(db, e).Ok? && TellsTheNews(db, ProcessAndCommit(db, e).value.db, x)
  {
    hide Inv, Heads;
    ProcessKeeps(db, e);
    FindMatchIsLowest(db.invoices, db.events[e], 0);
  }

  lemma ReopenNews(inv: Invoice)
    requires Paid(inv.status)
    ensures News(inv.status, ReopenedRow(inv).status) == if inv.status == Settled then [] else [InvoiceReorgged]
  {
  }

  lemma NoNews(status: Status)
    ensures News(status, status) == []
  {
  }

  lemma CrosscheckNews(db: Db, picked: seq<nat>, answers: seq<Answer>, latest: int, k: nat, x: nat)
    requires Inv(db) && PicksNewest(picked, db.payments, |picked|) && k <= |picked| && x < |db.invoices|
    requires Crosscheck(db, picked, answers, latest, k).Ok?
    ensures TellsTheNews(db, Crosscheck(db, picked, answers, latest, k).value.db, x)
  {
    hide Inv, Heads, CondemnedInvoice, CondemnedEvent, Condemned, Crosscheck, ReopenedRow, News, WouldCollide;
    CrosscheckExact(db, picked, answers, latest, k);
    CrosscheckTells(db, picked, answers, latest, k, x);
    if CondemnedInvoice(db, picked, answers, latest, k, x) {
      CondemnedWasPaid(db, picked, answers, latest, k, x);
      ReopenNews(db.invoices[x]);
    } else {
      NoNews(db.invoices[x].status);
    }
  }

  lemma ReconcileTells(db: Db, confirmed: seq<nat>, picked: seq<nat>, answers: seq<Answer>, latest: Option<int>, x: nat)
    requires Inv(db) && ListsStatus(confirmed, db.invoices, Confirmed) && x < |db.invoices|
    requires PicksNewest(picked, db.payments, db.cfg.crosscheckBatch)
    requires Reconcile(db, confirmed, picked, answers, latest).Ok?
    ensures var after := Reconcile(db, confirmed, picked, answers, latest).value;
            TellsTheNews(db, after, x) || TellsAgain(db, after, x)
  {
    hide Inv, Heads, InFlightOrTold, Crosscheck, Rescue, Reorgged, WouldCollide, News;
    RescueKeeps(db, confirmed, |confirmed|);
    RescueTells(db, confirmed, |confirmed|, x);
    assert confirmed[..|confirmed|] == confirmed;
    NoNews(db.invoices[x].status);
    if latest.Some? {
      CrosscheckNews(Rescue(db, confirmed, |confirmed|).db, picked, answers, latest.value,
                     Answered(answers, |picked|), x);
    }
  }

  /** In every step an invoice gets as first attempts exactly the news of its
      change of status; the one exception is a reconcile pass, which may once more
      announce a confirmed invoice that no pending or delivered message announces. */
  lemma StepTells(db: Db, a: Action, x: nat)
    requires Inv(db) && Enabled(db, a) && x < |db.invoices|
    ensures TellsTheNews(db, Apply(db, a), x) || (a.ReconcilePass? && TellsAgain(db, Apply(db, a), x))
  {
    hide Inv, TellsTheNews, TellsAgain, Sweep, Reconcile, Dispatch, ProcessAndCommit, CreateInvoice, Ingest;
    match a
    case NewMerchant(_) => Unchanged(db, Apply(db, a), x);
    case Create(authorized, merchant, key, amount) =>
      CreateTells(db, authorized, merchant, key, amount, x);
    case IngestBatch(batch) => IngestTells(db, batch, x);
    case Process(e) => ProcessTells(db, e, x);
    case SweepPass(awaiting, confirming, latest) => SweepTells(db, awaiting, confirming, latest, x);
    case Attempt(r, http) => DispatchTells(db, r, http, x);
    case ReconcilePass(confirmed, picked, answers, latest) =>
      if Reconcile(db, confirmed, picked, answers, latest).Ok? {
        ReconcileTells(db, confirmed, picked, answers, latest, x);
      } else {
        Unchanged(db, db, x);
      }
    case Wait(_) => Unchanged(db, Apply(db, a), x);
  }
}
