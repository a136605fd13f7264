/** Payments that vanish and the messages that say so, counted against each
    other over every run. */
module LossReports {
  import opened Basics
  import opened Model
  import opened Steps
  import opened Invariant
  import opened LedgerSteps
  import opened CrosscheckExactness
  import opened Runs
  import opened Announcements
  import Conservation
  import HookSteps
  import Money

  ghost function Lost(payments: seq<Payment>, i: nat): set<nat> {
    set p | 0 <= p < |payments| && payments[p].invoice == i && !Live(payments[p]) :: p
  }

  /** A settled invoice whose payment vanished afterwards: the one loss that is
      never announced. */
  ghost predicate LostAfterSettling(db: Db, i: nat)
    requires i < |db.invoices|
  {
    db.invoices[i].status == Settled && !HasLivePayment(db.payments, i)
  }

  /** As many reorgged messages as lost payments, save one lost after settling. */
  ghost predicate LossTold(db: Db, i: nat) {
    && i < |db.invoices|
    && multiset(Heads(db.deliveries, i))[InvoiceReorgged] + (if LostAfterSettling(db, i) then 1 else 0)
       == |Lost(db.payments, i)|
  }

  ghost predicate LossesTold(db: Db) {
    forall i :: 0 <= i < |db.invoices| ==> LossTold(db, i)
  }

  // ------------------------------------------------ steps that lose nothing

  predicate Onward(before: Status, after: Status) {
    || before == after
    || (before == AwaitingPayment && after in {Expired, Confirming})
    || (before == Confirming && after == Confirmed)
    || (before == Confirmed && after == Settled)
  }

  /** Payments are kept or added live, and none is added to a settled invoice. */
  ghost predicate NothingLost(db: Db, after: Db, i: nat) {
    && i < |db.invoices| && i < |after.invoices|
    && Onward(db.invoices[i].status, after.invoices[i].status)
    && db.payments <= after.payments
    && (forall p :: |db.payments| <= p < |after.payments| ==>
          Live(after.payments[p]) && (after.payments[p].invoice == i ==> db.invoices[i].status != Settled))
  }

  lemma CreditLosesNothing(db: Db, e: nat, i: nat)
    requires Inv(db) && e < |db.events| && i < |db.invoices|
    ensures ProcessAndCommit(db, e).Ok? && NothingLost(db, ProcessAndCommit(db, e).value.db, i)
  {
    hide Inv;
    ProcessKeeps(db, e);
    FindMatchIsLowest(db.invoices, db.events[e], 0);
  }

  lemma DispatchLosesNothing(db: Db, r: nat, http: Http, i: nat)
    requires Inv(db) && r < |db.deliveries| && IsDue(db.deliveries[r], db.now) && i < |db.invoices|
    ensures 1 <= db.deliveries[r].attempt && Dispatch(db, r, http).Ok?
    ensures NothingLost(db, Dispatch(db, r, http).value, i)
  {
    hide Inv, Retry, FirstAttempt;
    DispatchKeeps(db, r, http);
  }

  lemma SweepLosesNothing(db: Db, awaiting: seq<nat>, confirming: seq<nat>, latest: Option<int>, i: nat)
    requires Inv(db) && i < |db.invoices|
    requires ListsStatus(awaiting, db.invoices, AwaitingPayment) && ListsStatus(confirming, db.invoices, Confirming)
    ensures Sweep(db, awaiting, confirming, latest).Ok?
    ensures NothingLost(db, Sweep(db, awaiting, confirming, latest).value, i)
  {
    hide Inv, Sweep;
    SweepExact(db, awaiting, confirming, latest);
  }

  lemma SameRowsLoseNothing(db: Db, after: Db, i: nat)
    requires i < |db.invoices| && i < |after.invoices|
    requires after.invoices[i].status == db.invoices[i].status && after.payments == db.payments
    ensures NothingLost(db, after, i)
  {
  }

  lemma CreateLosesNothing(db: Db, authorized: bool, merchant: nat, key: Option<string>, amount: string, i: nat)
    requires i < |db.invoices|
    ensures NothingLost(db, CreateInvoice(db, authorized, merchant, key, amount).0, i)
  {
    hide NothingLost, Money.ParseAmount, OpenKeyFree, FindByKey;
    SameRowsLoseNothing(db, CreateInvoice(db, authorized, merchant, key, amount).0, i);
  }

  lemma StepLosesNothing(db: Db, a: Action, i: nat)
    requires Inv(db) && Enabled(db, a) && !a.ReconcilePass? && i < |db.invoices|
    ensures NothingLost(db, Apply(db, a), i)
  {
    hide Inv, NothingLost, Sweep, Dispatch, ProcessAndCommit, CreateInvoice;
    match a
    case NewMerchant(_) => SameRowsLoseNothing(db, Apply(db, a), i);
    case Create(authorized, merchant, key, amount) =>
      CreateLosesNothing(db, authorized, merchant, key, amount, i);
    case IngestBatch(_) => SameRowsLoseNothing(db, Apply(db, a), i);
    case Process(e) => CreditLosesNothing(db, e, i);
    case SweepPass(awaiting, confirming, latest) => SweepLosesNothing(db, awaiting, confirming, latest, i);
    case Attempt(r, http) => DispatchLosesNothing(db, r, http, i);
    case Wait(_) => SameRowsLoseNothing(db, Apply(db, a), i);
  }

  lemma SameLive(before: seq<Payment>, after: seq<Payment>, i: nat)
    requires before <= after
    ensures HasLivePayment(before, i) ==> HasLivePayment(after, i)
    ensures (forall p :: |before| <= p < |after| ==> after[p].invoice != i) ==>
              (HasLivePayment(after, i) ==> HasLivePayment(before, i))
  {
    if HasLivePayment(before, i) {
      var p :| 0 <= p < |before| && before[p].invoice == i && Live(before[p]);
      assert after[p] == before[p];
    }
  }

  lemma NothingLostIsTold(db: Db, after: Db, i: nat)
    requires Inv(db) && LossTold(db, i) && NothingLost(db, after, i) && TellsTheNews(db, after, i)
    ensures LossTold(after, i)
  {
    hide Inv, Heads;
    var before, later := db.invoices[i].status, after.invoices[i].status;
    assert InvoiceReorgged !in News(before, later);
    assert Lost(after.payments, i) == Lost(db.payments, i);
    if later == Settled {
      if before != Settled {
        Conservation.ConfirmingHasPayment(db, i);
      }
      SameLive(db.payments, after.payments, i);
    }
  }

  // ------------------------------------------------------ reconcile passes

  lemma RescueKeepsLosses(db: Db, confirmed: seq<nat>, i: nat)
    requires Inv(db) && ListsStatus(confirmed, db.invoices, Confirmed) && LossTold(db, i)
    ensures LossTold(Rescue(db, confirmed, |confirmed|).db, i)
  {
    hide Inv, Heads, InFlightOrTold, Rescue;
    RescueTells(db, confirmed, |confirmed|, i);
    RescueKeeps(db, confirmed, |confirmed|);
  }

  /** A condemned invoice loses one payment, its only live one. */
  lemma CondemnedPayment(db: Db, picked: seq<nat>, answers: seq<Answer>, latest: int, k: nat, i: nat) returns (p: nat)
    requires Inv(db) && PicksNewest(picked, db.payments, |picked|) && i < |db.invoices|
    requires CondemnedInvoice(db, picked, answers, latest, k, i)
    ensures p < |db.payments| && db.payments[p].invoice == i && Live(db.payments[p])
    ensures Condemned(db, picked, answers, latest, k, p)
    ensures HasLivePayment(db.payments, i)
    ensures Paid(db.invoices[i].status)
    ensures forall q :: 0 <= q < |db.payments| && q != p && db.payments[q].invoice == i ==>
              !Live(db.payments[q]) && !Condemned(db, picked, answers, latest, k, q)
  {
    hide DeliveriesOk, ChainsLinear, TraceOk, NotifiedOk, OpenDistinct, EventsOk, Explained, Chronological;
    p :| 0 <= p < |db.payments| && db.payments[p].invoice == i && Condemned(db, picked, answers, latest, k, p);
    PaymentFacts(db, p);
    forall q | 0 <= q < |db.payments| && q != p && db.payments[q].invoice == i
      ensures !Live(db.payments[q]) && !Condemned(db, picked, answers, latest, k, q)
    {
      assert Min(p, q) < Max(p, q);
    }
  }

  lemma NotCondemned(db: Db, picked: seq<nat>, answers: seq<Answer>, latest: int, k: nat, i: nat)
    requires !CondemnedInvoice(db, picked, answers, latest, k, i)
    ensures forall p :: 0 <= p < |db.payments| && db.payments[p].invoice == i ==>
              !Condemned(db, picked, answers, latest, k, p)
  {
  }

  lemma SameLivePayments(before: seq<Payment>, after: seq<Payment>, i: nat)
    requires |before| == |after|
    requires forall p :: 0 <= p < |before| ==> after[p].invoice == before[p].invoice
    requires forall p :: 0 <= p < |before| && before[p].invoice == i ==> after[p] == before[p]
    ensures HasLivePayment(after, i) <==> HasLivePayment(before, i)
  {
  }

  lemma CrosscheckKeepsLosses(db: Db, picked: seq<nat>, answers: seq<Answer>, latest: int, k: nat, i: nat)
    requires Inv(db) && PicksNewest(picked, db.payments, |picked|) && k <= |picked| && LossTold(db, i)
    requires Crosscheck(db, picked, answers, latest, k).Ok?
    ensures LossTold(Crosscheck(db, picked, answers, latest, k).value.db, i)
  {
    hide Inv, Heads, Crosscheck, WouldCollide, Condemned, CondemnedEvent, CondemnedInvoice;
    CrosscheckExact(db, picked, answers, latest, k);
    CrosscheckTells(db, picked, answers, latest, k, i);
    var after := Crosscheck(db, picked, answers, latest, k).value.db;
    if CondemnedInvoice(db, picked, answers, latest, k, i) {
      var p := CondemnedPayment(db, picked, answers, latest, k, i);
      assert Lost(after.payments, i) == Lost(db.payments, i) + {p};
      assert p !in Lost(db.payments, i);
    } else {
      NotCondemned(db, picked, answers, latest, k, i);
      assert Lost(after.payments, i) == Lost(db.payments, i);
      SameLivePayments(db.payments, after.payments, i);
    }
  }

  lemma ReconcileKeepsLosses(db: Db, confirmed: seq<nat>, picked: seq<nat>, answers: seq<Answer>,
                             latest: Option<int>, i: nat)
    requires Inv(db) && ListsStatus(confirmed, db.invoices, Confirmed) && LossTold(db, i)
    requires PicksNewest(picked, db.payments, db.cfg.crosscheckBatch)
    requires Reconcile(db, confirmed, picked, answers, latest).Ok?
    ensures LossTold(Reconcile(db, confirmed, picked, answers, latest).value, i)
  {
    hide Inv, LossTold, Crosscheck, Rescue;
    RescueKeeps(db, confirmed, |confirmed|);
    RescueKeepsLosses(db, confirmed, i);
    if latest.Some? {
      CrosscheckKeepsLosses(Rescue(db, confirmed, |confirmed|).db, picked, answers, latest.value,
                            Answered(answers, |picked|), i);
    }
  }

  // --------------------------------------------------------------- runs

  lemma NewInvoiceLostNothing(db: Db, i: nat)
    requires Inv(db) && i >= |db.invoices|
    ensures Heads(db.deliveries, i) == [] && Lost(db.payments, i) == {}
  {
    hide TraceOk, ChainsLinear, NotifiedOk, OpenDistinct, EventsOk, Explained, Chronological, NoDoubleCredit,
      InvoicesOk;
    forall r | 0 <= r < |db.deliveries|
      ensures db.deliveries[r].invoice < |db.invoices|
    {
      DeliveryFacts(db, r);
    }
    HookSteps.NoHeadsBeyond(db.invoices, db.deliveries, i, |db.deliveries|);
    assert db.deliveries[..|db.deliveries|] == db.deliveries;
    forall p | 0 <= p < |db.payments|
      ensures db.payments[p].invoice < |db.invoices|
    {
      PaymentFacts(db, p);
    }
  }

  lemma ProcessCount(db: Db, e: nat)
    requires Inv(db) && e < |db.events|
    ensures ProcessAndCommit(db, e).Ok? && |ProcessAndCommit(db, e).value.db.invoices| == |db.invoices|
  {
    hide Inv;
    ProcessKeeps(db, e);
  }

  lemma ReconcileCount(db: Db, confirmed: seq<nat>, picked: seq<nat>, answers: seq<Answer>, latest: Option<int>)
    requires Inv(db) && ListsStatus(confirmed, db.invoices, Confirmed)
    requires PicksNewest(picked, db.payments, db.cfg.crosscheckBatch)
    ensures var r := Reconcile(db, confirmed, picked, answers, latest);
            r.Ok? ==> |r.value.invoices| == |db.invoices|
  {
    hide Inv, WouldCollide, CondemnedInvoice, CondemnedEvent, Condemned, Reconcile;
    ReconcileSteps(db, confirmed, picked, answers, latest);
  }

  lemma OnlyCreateAddsInvoices(db: Db, a: Action)
    requires Inv(db) && Enabled(db, a)
    ensures !a.Create? ==> |Apply(db, a).invoices| == |db.invoices|
  {
    hide Inv, Reorgged, Money.ParseAmount, Rescue, Crosscheck, Sweep, ProcessAndCommit, Retry, FirstAttempt;
    match a
    case Process(e) => ProcessCount(db, e);
    case SweepPass(awaiting, confirming, latest) => SweepExact(db, awaiting, confirming, latest);
    case Attempt(r, http) =>
    case ReconcilePass(confirmed, picked, answers, latest) => ReconcileCount(db, confirmed, picked, answers, latest);
    case _ =>
  }

  lemma CreatedRow(db: Db, a: Action, i: nat)
    requires Inv(db) && Enabled(db, a) && |db.invoices| <= i < |Apply(db, a).invoices|
    ensures LossTold(Apply(db, a), i)
  {
    hide Inv, Heads, Sweep, Reconcile, Dispatch, ProcessAndCommit, Money.ParseAmount;
    NewInvoiceLostNothing(db, i);
    OnlyCreateAddsInvoices(db, a);
  }

  lemma ReconcileStepKeepsLosses(db: Db, a: Action, i: nat)
    requires Inv(db) && Enabled(db, a) && a.ReconcilePass? && LossTold(db, i)
    ensures LossTold(Apply(db, a), i)
  {
    hide Inv, LossTold, Reconcile;
    if Committed(db, a).Ok? {
      ReconcileKeepsLosses(db, a.confirmed, a.picked, a.answers, a.latest, i);
    }
  }

  /** Every step keeps the count. */
  lemma StepKeepsLosses(db: Db, a: Action)
    requires Inv(db) && Enabled(db, a) && LossesTold(db)
    ensures LossesTold(Apply(db, a))
  {
    hide Inv, LossTold, Apply, Enabled;
    var after := Apply(db, a);
    forall i | 0 <= i < |after.invoices|
      ensures LossTold(after, i)
    {
      if i >= |db.invoices| {
        CreatedRow(db, a, i);
      } else if a.ReconcilePass? {
        ReconcileStepKeepsLosses(db, a, i);
      } else {
        StepTells(db, a, i);
        StepLosesNothing(db, a, i);
        NothingLostIsTold(db, after, i);
      }
    }
  }

  lemma {:induction false} RunKeepsLosses(db: Db, actions: seq<Action>)
    requires Inv(db) && LegalRun(db, actions) && LossesTold(db)
    ensures LossesTold(Exec(db, actions))
    decreases |actions|
  {
    hide Inv, LossesTold, Later;
    if actions != [] {
      StepKeeps(db, actions[0]);
      StepKeepsLosses(db, actions[0]);
      RunKeepsLosses(Apply(db, actions[0]), actions[1..]);
    }
  }

  /** In every reachable state every lost payment of an invoice has been announced
      by exactly one reorgged message, except a payment lost after settling, which
      is left to the operator; and no other reorgged message exists. */
  lemma EveryLossIsTold(db: Db, i: nat)
    requires Reachable(db) && i < |db.invoices|
    ensures LossTold(db, i)
  {
    hide Inv;
    var cfg, now, actions :| LegalRun(Empty(cfg, now), actions) && db == Exec(Empty(cfg, now), actions);
    EmptyInv(cfg, now);
    RunKeepsLosses(Empty(cfg, now), actions);
  }
}
