/** The ledger as a transition system: every committed step, runs of steps in
    any interleaving, and what holds along every run. */
module Runs {
  import opened Basics
  import opened Model
  import opened Steps
  import opened Invariant
  import opened LedgerSteps
  import opened CrosscheckExactness
  import HookSteps
  import Money

  /** One commit. The choices that the program does not control are part of the
      action: row orders, chain height, receipts, HTTP outcomes, elapsed time. */
  datatype Action =
    | NewMerchant(merchant: Merchant)
    | Create(authorized: bool, merchantRow: nat, key: Option<string>, amount: string)
    | IngestBatch(batch: seq<Transfer>)
    | Process(event: nat)
    | SweepPass(awaiting: seq<nat>, confirming: seq<nat>, latest: Option<int>)
    | Attempt(delivery: nat, http: Http)
    | ReconcilePass(confirmed: seq<nat>, picked: seq<nat>, answers: seq<Answer>, latest: Option<int>)
    | Wait(time: nat)

  /** The action fits the state: its rows exist and its row lists answer the
      queries they stand for. */
  ghost predicate Enabled(db: Db, a: Action) {
    match a
    case NewMerchant(_) => true
    case Create(_, _, _, _) => true
    case IngestBatch(_) => true
    case Process(e) => e < |db.events|
    case SweepPass(awaiting, confirming, _) =>
      ListsStatus(awaiting, db.invoices, AwaitingPayment) && ListsStatus(confirming, db.invoices, Confirming)
    case Attempt(r, _) => r < |db.deliveries| && 1 <= db.deliveries[r].attempt && IsDue(db.deliveries[r], db.now)
    case ReconcilePass(confirmed, picked, _, _) =>
      ListsStatus(confirmed, db.invoices, Confirmed) && PicksNewest(picked, db.payments, db.cfg.crosscheckBatch)
    case Wait(_) => true
  }

  /** What the step commits; None if it raised, and so committed nothing. */
  ghost function Committed(db: Db, a: Action): Result<Db, Failure>
    requires Enabled(db, a)
  {
    match a
    case NewMerchant(m) => Ok(db.(merchants := db.merchants + [m]))
    case Create(authorized, merchant, key, amount) => Ok(CreateInvoice(db, authorized, merchant, key, amount).0)
    case IngestBatch(batch) => Ok(Ingest(db, batch))
    case Process(e) => (var done :- ProcessAndCommit(db, e); Ok(done.db))
    case SweepPass(awaiting, confirming, latest) => Sweep(db, awaiting, confirming, latest)
    case Attempt(r, http) => Dispatch(db, r, http)
    case ReconcilePass(confirmed, picked, answers, latest) => Reconcile(db, confirmed, picked, answers, latest)
    case Wait(time) => Ok(db.(now := db.now + time))
  }

  ghost function Apply(db: Db, a: Action): Db
    requires Enabled(db, a)
  {
    match Committed(db, a)
    case Ok(after) => after
    case Err(_) => db
  }

  ghost predicate LegalRun(db: Db, actions: seq<Action>)
    decreases |actions|
  {
    actions == [] || (Enabled(db, actions[0]) && LegalRun(Apply(db, actions[0]), actions[1..]))
  }

  ghost function Exec(db: Db, actions: seq<Action>): Db
    requires LegalRun(db, actions)
    decreases |actions|
  {
    if actions == [] then db else Exec(Apply(db, actions[0]), actions[1..])
  }

  ghost predicate Reachable(db: Db) {
    exists cfg, now, actions :: LegalRun(Empty(cfg, now), actions) && db == Exec(Empty(cfg, now), actions)
  }

  // ------------------------------------------------------------ history

  predicate EventMoves(a: EventStatus, b: EventStatus) {
    a == b || a == EventPending || (a == EventProcessed && b == EventOrphaned)
  }

  /** What may happen to the rows of state a on the way to state b: nothing is
      deleted, audit columns never change, and what is final stays. */
  ghost predicate Later(a: Db, b: Db) {
    && a.cfg == b.cfg && a.now <= b.now && a.merchants <= b.merchants
    && |a.invoices| <= |b.invoices| && |a.events| <= |b.events|
    && |a.payments| <= |b.payments| && |a.deliveries| <= |b.deliveries|
    && (forall i :: 0 <= i < |a.invoices| ==>
          && SameTerms(a.invoices[i], b.invoices[i])
          && (a.invoices[i].status in {Settled, Expired} ==> a.invoices[i] == b.invoices[i]))
    && (forall e :: 0 <= e < |a.events| ==>
          a.events[e].log == b.events[e].log && EventMoves(a.events[e].status, b.events[e].status))
    && (forall p :: 0 <= p < |a.payments| ==>
          && b.payments[p] == a.payments[p].(orphanedAt := b.payments[p].orphanedAt)
          && (a.payments[p].orphanedAt.Some? ==> a.payments[p] == b.payments[p]))
    && (forall r :: 0 <= r < |a.deliveries| ==>
          && b.deliveries[r] == a.deliveries[r].(status := b.deliveries[r].status,
                                                 deliveredAt := b.deliveries[r].deliveredAt)
          && (a.deliveries[r].status != DeliveryPending ==> a.deliveries[r] == b.deliveries[r]))
  }

  lemma LaterTransitive(a: Db, b: Db, c: Db)
    requires Later(a, b) && Later(b, c)
    ensures Later(a, c)
  {
  }

  lemma LaterReflexive(a: Db)
    ensures Later(a, a)
  {
  }

  lemma {:induction false} IngestExtends(events: seq<ChainEvent>, batch: seq<Transfer>)
    ensures events <= IngestAll(events, batch).events
  {
    if batch != [] {
      IngestExtends(events, batch[..|batch| - 1]);
    }
  }

  // -------------------------------------------------------------- steps

  lemma ReconcileSteps(db: Db, confirmed: seq<nat>, picked: seq<nat>, answers: seq<Answer>, latest: Option<int>)
    requires Inv(db) && ListsStatus(confirmed, db.invoices, Confirmed)
    requires PicksNewest(picked, db.payments, db.cfg.crosscheckBatch)
    ensures var r := Reconcile(db, confirmed, picked, answers, latest);
            var rescued := Rescue(db, confirmed, |confirmed|).db;
            var k := Answered(answers, |picked|);
            && Inv(rescued)
            && rescued == db.(deliveries := rescued.deliveries) && db.deliveries <= rescued.deliveries
            && (latest.None? ==> r == Ok(rescued))
            && (latest.Some? ==>
                  && (r.Err? <==> WouldCollide(rescued, picked, answers, latest.value, k))
                  && (r.Err? ==> r.error == OpenKeyTaken)
                  && (r.Ok? ==> Inv(r.value) && Reorgged(rescued, r.value, picked, answers, latest.value, k)))
  {
    hide Inv, Reorgged, WouldCollide;
    RescueKeeps(db, confirmed, |confirmed|);
    if latest.Some? {
      CrosscheckExact(Rescue(db, confirmed, |confirmed|).db, picked, answers, latest.value,
                      Answered(answers, |picked|));
    }
  }

  lemma CondemnedWasProcessed(db: Db, picked: seq<nat>, answers: seq<Answer>, latest: int, k: nat, e: nat)
    requires Inv(db) && PicksNewest(picked, db.payments, |picked|) && e < |db.events|
    requires CondemnedEvent(db, picked, answers, latest, k, e)
    ensures db.events[e].status == EventProcessed
  {
    hide Inv;
    var p :| 0 <= p < |db.payments| && db.payments[p].event == e && Condemned(db, picked, answers, latest, k, p);
    PaymentFacts(db, p);
  }

  lemma CondemnedWasPaid(db: Db, picked: seq<nat>, answers: seq<Answer>, latest: int, k: nat, i: nat)
    requires Inv(db) && PicksNewest(picked, db.payments, |picked|) && i < |db.invoices|
    requires CondemnedInvoice(db, picked, answers, latest, k, i)
    ensures Paid(db.invoices[i].status)
  {
    hide Inv;
    var p :| 0 <= p < |db.payments| && db.payments[p].invoice == i && Condemned(db, picked, answers, latest, k, p);
    PaymentFacts(db, p);
  }

  lemma ReorggedIsLater(db: Db, after: Db, picked: seq<nat>, answers: seq<Answer>, latest: int, k: nat)
    requires Inv(db) && PicksNewest(picked, db.payments, |picked|)
    requires Reorgged(db, after, picked, answers, latest, k)
    ensures Later(db, after)
  {
    hide Inv, CondemnedEvent, CondemnedInvoice;
    forall e | 0 <= e < |db.events| && CondemnedEvent(db, picked, answers, latest, k, e)
      ensures db.events[e].status == EventProcessed
    {
      CondemnedWasProcessed(db, picked, answers, latest, k, e);
    }
    forall i | 0 <= i < |db.invoices| && CondemnedInvoice(db, picked, answers, latest, k, i)
      ensures Paid(db.invoices[i].status)
    {
      CondemnedWasPaid(db, picked, answers, latest, k, i);
    }
  }

  lemma CreditIsLater(db: Db, e: nat)
    requires Inv(db) && e < |db.events|
    ensures ProcessEvent(db, e).Ok? && Later(db, ProcessEvent(db, e).value.db)
  {
    hide MoneyInv, HookInv;
    ProcessKeeps(db, e);
    FindMatchIsLowest(db.invoices, db.events[e], 0);
  }

  lemma SweepIsLater(db: Db, awaiting: seq<nat>, confirming: seq<nat>, latest: Option<int>)
    requires Inv(db)
    requires ListsStatus(awaiting, db.invoices, AwaitingPayment) && ListsStatus(confirming, db.invoices, Confirming)
    ensures Sweep(db, awaiting, confirming, latest).Ok?
    ensures Later(db, Sweep(db, awaiting, confirming, latest).value)
  {
    hide Inv;
    SweepExact(db, awaiting, confirming, latest);
  }

  lemma DeliveredIsLater(db: Db, r: nat)
    requires r < |db.deliveries| && IsDue(db.deliveries[r], db.now) && Delivered(db, r).Ok?
    ensures Later(db, Delivered(db, r).value)
    ensures Delivered(db, r).value.deliveries[r].status != DeliveryPending
  {
    hide FirstAttempt;
  }

  lemma DispatchIsLater(db: Db, r: nat, http: Http)
    requires Inv(db) && r < |db.deliveries| && IsDue(db.deliveries[r], db.now)
    ensures 1 <= db.deliveries[r].attempt && Dispatch(db, r, http).Ok?
    ensures Later(db, Dispatch(db, r, http).value)
    ensures Dispatch(db, r, http).value.deliveries[r].status != DeliveryPending
  {
    hide Inv, Delivered, Retry, Succeeded;
    DispatchKeeps(db, r, http);
    if Dispatch(db, r, http) == Delivered(db, r) {
      DeliveredIsLater(db, r);
    }
  }

  lemma CreateIsLater(db: Db, authorized: bool, merchant: nat, key: Option<string>, amount: string)
    ensures Later(db, CreateInvoice(db, authorized, merchant, key, amount).0)
  {
    hide Money.ParseAmount;
  }

  lemma MerchantKeeps(db: Db, m: Merchant)
    requires Inv(db)
    ensures Inv(db.(merchants := db.merchants + [m])) && Later(db, db.(merchants := db.merchants + [m]))
  {
    HookSteps.AddMerchant(db.cfg, db.merchants, db.invoices, db.deliveries, m);
  }

  lemma TimeKeeps(db: Db, time: nat)
    requires Inv(db)
    ensures Inv(db.(now := db.now + time)) && Later(db, db.(now := db.now + time))
  {
  }

  lemma IngestStep(db: Db, batch: seq<Transfer>)
    requires Inv(db)
    ensures Inv(Ingest(db, batch)) && Later(db, Ingest(db, batch))
  {
    hide Inv;
    if ValidBatch(batch) {
      IngestKeeps(db, batch);
      IngestExtends(db.events, batch);
    }
  }

  lemma ReconcileStep(db: Db, confirmed: seq<nat>, picked: seq<nat>, answers: seq<Answer>, latest: Option<int>)
    requires Inv(db) && ListsStatus(confirmed, db.invoices, Confirmed)
    requires PicksNewest(picked, db.payments, db.cfg.crosscheckBatch)
    ensures var r := Reconcile(db, confirmed, picked, answers, latest);
            if r.Ok? then Inv(r.value) && Later(db, r.value) else r == Err(OpenKeyTaken)
  {
    hide Inv, Reorgged, WouldCollide;
    ReconcileSteps(db, confirmed, picked, answers, latest);
    var r := Reconcile(db, confirmed, picked, answers, latest);
    var rescued := Rescue(db, confirmed, |confirmed|).db;
    assert Later(db, rescued);
    if r.Ok? && latest.Some? {
      ReorggedIsLater(rescued, r.value, picked, answers, latest.value, Answered(answers, |picked|));
      LaterTransitive(db, rescued, r.value);
    }
  }

  /** Every step keeps the invariant and the history. The only step that can
      raise at all is a reconcile pass, and then only on the unique index over
      open invoices: no illegal transition, no missing rollback edge, no null
      block and no second payment for a key is ever met. */
  lemma StepKeeps(db: Db, a: Action)
    requires Inv(db) && Enabled(db, a)
    ensures Inv(Apply(db, a)) && Later(db, Apply(db, a))
    ensures Committed(db, a).Err? ==> a.ReconcilePass? && Committed(db, a) == Err(OpenKeyTaken)
  {
    hide Inv, Later;
    match a
    case NewMerchant(m) => MerchantKeeps(db, m);
    case Create(authorized, merchant, key, amount) =>
      CreateKeeps(db, authorized, merchant, key, amount);
      CreateIsLater(db, authorized, merchant, key, amount);
    case IngestBatch(batch) => IngestStep(db, batch);
    case Process(e) =>
      ProcessKeeps(db, e);
      CreditIsLater(db, e);
    case SweepPass(awaiting, confirming, latest) =>
      SweepExact(db, awaiting, confirming, latest);
      SweepIsLater(db, awaiting, confirming, latest);
    case Attempt(r, http) =>
      DispatchKeeps(db, r, http);
      DispatchIsLater(db, r, http);
    case ReconcilePass(confirmed, picked, answers, latest) =>
      ReconcileStep(db, confirmed, picked, answers, latest);
      LaterReflexive(db);
    case Wait(time) => TimeKeeps(db, time);
  }

  // --------------------------------------------------------------- runs

  lemma EmptyInv(cfg: Settings, now: int)
    ensures Inv(Empty(cfg, now))
  {
  }

  lemma {:induction false} RunKeeps(db: Db, actions: seq<Action>)
    requires Inv(db) && LegalRun(db, actions)
    ensures Inv(Exec(db, actions)) && Later(db, Exec(db, actions))
    decreases |actions|
  {
    hide Inv;
    if actions != [] {
      StepKeeps(db, actions[0]);
      RunKeeps(Apply(db, actions[0]), actions[1..]);
      LaterTransitive(db, Apply(db, actions[0]), Exec(db, actions));
    }
  }

  /** The ledger invariant holds after every run of every interleaving. */
  lemma ReachableInv(db: Db)
    requires Reachable(db)
    ensures Inv(db)
  {
    hide Inv;
    var cfg, now, actions :| LegalRun(Empty(cfg, now), actions) && db == Exec(Empty(cfg, now), actions);
    EmptyInv(cfg, now);
    RunKeeps(Empty(cfg, now), actions);
  }
}
