/** When a rolled-back invoice cannot be re-armed: its payable amount has been
    given to another open invoice meanwhile. The unique index then aborts the
    whole reconcile pass, and every later one that misses the same payment, until
    the other invoice is no longer open or the paid one is settled - which the
    blocked rollback does not keep from happening. */
module CollisionWitness {
  import opened Basics
  import opened Model
  import opened Steps
  import opened Invariant
  import opened LedgerSteps
  import opened CrosscheckExactness
  import opened Runs
  import LossReports
  import RescueWitness
  import Money
  import MoneyRoundTrip
  import MoneyExactness

  // ------------------------------------------------------- what follows

  lemma SameCondemned(db: Db, after: Db, picked: seq<nat>, answers: seq<Answer>, latest: int, k: nat, i: nat)
    requires after == db.(deliveries := after.deliveries)
    requires forall p: nat :: Condemned(after, picked, answers, latest, k, p) <==>
              Condemned(db, picked, answers, latest, k, p)
    ensures CondemnedInvoice(after, picked, answers, latest, k, i) <==>
              CondemnedInvoice(db, picked, answers, latest, k, i)
  {
    hide Condemned;
  }

  lemma RescuesDoNotMatter(db: Db, deliveries: seq<Delivery>, picked: seq<nat>, answers: seq<Answer>, latest: int,
                           k: nat)
    ensures var after := db.(deliveries := deliveries);
            WouldCollide(after, picked, answers, latest, k) <==> WouldCollide(db, picked, answers, latest, k)
  {
    var after := db.(deliveries := deliveries);
    forall p: nat
      ensures Condemned(after, picked, answers, latest, k, p) <==> Condemned(db, picked, answers, latest, k, p)
    {
    }
    forall i: nat
      ensures CondemnedInvoice(after, picked, answers, latest, k, i) <==>
                CondemnedInvoice(db, picked, answers, latest, k, i)
    {
      SameCondemned(db, after, picked, answers, latest, k, i);
    }
    forall i: nat
      ensures OpenInTheEnd(after, picked, answers, latest, k, i) <==> OpenInTheEnd(db, picked, answers, latest, k, i)
    {
    }
  }

  /** A reconcile pass is lost, rescues and all, if and only if two invoices that
      it would leave open share their payable amount. */
  lemma PassIsLostIff(db: Db, confirmed: seq<nat>, picked: seq<nat>, answers: seq<Answer>, latest: int)
    requires Inv(db) && ListsStatus(confirmed, db.invoices, Confirmed)
    requires PicksNewest(picked, db.payments, db.cfg.crosscheckBatch)
    ensures var a := ReconcilePass(confirmed, picked, answers, Some(latest));
            && (Committed(db, a).Err? <==> WouldCollide(db, picked, answers, latest, Answered(answers, |picked|)))
            && (Committed(db, a).Err? ==> Committed(db, a) == Err(OpenKeyTaken) && Apply(db, a) == db)
  {
    hide Inv, Reorgged, WouldCollide;
    ReconcileSteps(db, confirmed, picked, answers, Some(latest));
    RescuesDoNotMatter(db, Rescue(db, confirmed, |confirmed|).db.deliveries, picked, answers, latest,
                       Answered(answers, |picked|));
  }

  /** Payment p is live and its invoice unsettled, and an open invoice b has the
      same payable amount. */
  predicate Standing(db: Db, p: nat, b: nat) {
    && p < |db.payments| && Live(db.payments[p]) && db.payments[p].event < |db.events|
    && db.payments[p].invoice < |db.invoices| && b < |db.invoices| && db.payments[p].invoice != b
    && db.invoices[db.payments[p].invoice].status != Settled
    && IsOpen(db.invoices[b]) && SameAmountKey(db.invoices[db.payments[p].invoice], db.invoices[b])
  }

  /** A pass that looks at payment p, inside the window, and does not find it. */
  ghost predicate Misses(db: Db, a: Action, p: nat) {
    && a.ReconcilePass? && Enabled(db, a) && a.latest.Some?
    && p < |db.payments| && db.payments[p].event < |db.events|
    && Condemned(db, a.picked, a.answers, a.latest.value, Answered(a.answers, |a.picked|), p)
  }

  lemma MissIsLost(db: Db, a: Action, p: nat, b: nat)
    requires Inv(db) && Standing(db, p, b) && Misses(db, a, p)
    ensures Committed(db, a) == Err(OpenKeyTaken) && Apply(db, a) == db
  {
    hide Inv, Condemned, Committed, Apply;
    var k := Answered(a.answers, |a.picked|);
    var i := db.payments[p].invoice;
    assert CondemnedInvoice(db, a.picked, a.answers, a.latest.value, k, i);
    assert OpenInTheEnd(db, a.picked, a.answers, a.latest.value, k, i);
    assert OpenInTheEnd(db, a.picked, a.answers, a.latest.value, k, b);
    assert SameAmountKey(db.invoices[Min(i, b)], db.invoices[Max(i, b)]);
    PassIsLostIff(db, a.confirmed, a.picked, a.answers, a.latest.value);
  }

  /** What ends a collision: the open invoice is paid or expires, or the paid one
      is settled. */
  predicate Released(db: Db, p: nat, b: nat)
    requires p < |db.payments| && db.payments[p].invoice < |db.invoices| && b < |db.invoices|
  {
    !IsOpen(db.invoices[b]) || db.invoices[db.payments[p].invoice].status == Settled
  }

  lemma TermsStay(db: Db, after: Db, p: nat, b: nat)
    requires Standing(db, p, b) && Later(db, after)
    ensures p < |after.payments| && after.payments[p].invoice < |after.invoices| && b < |after.invoices|
    ensures Standing(after, p, b) <==> Live(after.payments[p]) && !Released(after, p, b)
  {
  }

  lemma StandingRow(db: Db, p: nat, b: nat)
    requires Standing(db, p, b)
    ensures p < |db.payments| && Live(db.payments[p]) && db.payments[p].event < |db.events| && b < |db.invoices|
  {
  }

  lemma MissMeans(db: Db, a: Action, p: nat)
    requires a.ReconcilePass? && Enabled(db, a) && a.latest.Some?
    requires p < |db.payments| && db.payments[p].event < |db.events|
    requires Condemned(db, a.picked, a.answers, a.latest.value, Answered(a.answers, |a.picked|), p)
    ensures Misses(db, a, p)
  {
  }

  lemma RescueCondemnsAlike(db: Db, rescued: Db, picked: seq<nat>, answers: seq<Answer>, latest: int, k: nat, p: nat)
    requires rescued == db.(deliveries := rescued.deliveries)
    ensures Condemned(rescued, picked, answers, latest, k, p) <==> Condemned(db, picked, answers, latest, k, p)
  {
  }

  lemma PassKeepsPayment(db: Db, a: Action, p: nat, b: nat)
    requires Inv(db) && Enabled(db, a) && a.ReconcilePass? && Standing(db, p, b)
    ensures p < |Apply(db, a).payments| && Live(Apply(db, a).payments[p])
  {
    hide Inv, Condemned, CondemnedEvent, CondemnedInvoice, WouldCollide, Standing, Reconcile, Misses;
    StandingRow(db, p, b);
    ReconcileSteps(db, a.confirmed, a.picked, a.answers, a.latest);
    if a.latest.Some? {
      var rescued := Rescue(db, a.confirmed, |a.confirmed|).db;
      var k := Answered(a.answers, |a.picked|);
      if Condemned(rescued, a.picked, a.answers, a.latest.value, k, p) {
        RescueCondemnsAlike(db, rescued, a.picked, a.answers, a.latest.value, k, p);
        MissMeans(db, a, p);
        MissIsLost(db, a, p, b);
      }
    }
  }

  /** Whatever the step, a collision goes on standing exactly until it is released. */
  lemma StandingStays(db: Db, a: Action, p: nat, b: nat)
    requires Inv(db) && Enabled(db, a) && Standing(db, p, b)
    ensures var after := Apply(db, a);
            && p < |after.payments| && after.payments[p].invoice < |after.invoices| && b < |after.invoices|
            && (Standing(after, p, b) <==> !Released(after, p, b))
  {
    hide Inv, Later, Standing, Released, Apply, Enabled;
    StepKeeps(db, a);
    TermsStay(db, Apply(db, a), p, b);
    if a.ReconcilePass? {
      PassKeepsPayment(db, a, p, b);
    } else {
      StandingRow(db, p, b);
      LossReports.StepLosesNothing(db, a, b);
    }
  }

  /** In no state that the run passes through is the collision released. */
  ghost predicate NeverReleased(db: Db, actions: seq<Action>, p: nat, b: nat)
    requires LegalRun(db, actions)
    decreases |actions|
  {
    && p < |db.payments| && db.payments[p].invoice < |db.invoices| && b < |db.invoices|
    && !Released(db, p, b)
    && (actions == [] || NeverReleased(Apply(db, actions[0]), actions[1..], p, b))
  }

  /** Every pass of the run that misses payment p is lost and changes nothing. */
  ghost predicate AllMissesLost(db: Db, actions: seq<Action>, p: nat)
    requires LegalRun(db, actions)
    decreases |actions|
  {
    actions == [] ||
    (&& (Misses(db, actions[0], p) ==> Committed(db, actions[0]) == Err(OpenKeyTaken) && Apply(db, actions[0]) == db)
     && AllMissesLost(Apply(db, actions[0]), actions[1..], p))
  }

  /** Over any run, other steps included: until the collision is released it stands,
      the payment stays credited, and every pass that misses it is lost. */
  lemma {:induction false} BlockedUntilReleased(db: Db, actions: seq<Action>, p: nat, b: nat)
    requires Inv(db) && LegalRun(db, actions) && Standing(db, p, b)
    requires NeverReleased(db, actions, p, b)
    ensures Standing(Exec(db, actions), p, b) && AllMissesLost(db, actions, p)
    decreases |actions|
  {
    hide Inv, Later, Standing, Released, Misses, Apply, Enabled, Committed;
    if actions != [] {
      StepKeeps(db, actions[0]);
      StandingStays(db, actions[0], p, b);
      if Misses(db, actions[0], p) {
        MissIsLost(db, actions[0], p, b);
      }
      BlockedUntilReleased(Apply(db, actions[0]), actions[1..], p, b);
    }
  }

  // ------------------------------------------------------------ the run

  const BLOCK: int := 100

  function Coin(cfg: Settings): Transfer {
    Transfer("0123456789", 0, BLOCK, None, "0123456789", "0123456789", cfg.hotAddress, 3)
  }

  function Bill(cfg: Settings, requested: int, amount: int): Invoice {
    Invoice(0, None, requested, amount, 0, Lower(cfg.hotAddress), AwaitingPayment, None, None, cfg.invoiceTtl)
  }

  function PaidBill(cfg: Settings): Invoice {
    Bill(cfg, 2, 3).(status := Confirming, paid := 3, detectedBlock := Some(BLOCK))
  }

  function World(cfg: Settings, invoices: seq<Invoice>, events: seq<ChainEvent>, payments: seq<Payment>): Db {
    Db(cfg, 0, [RescueWitness.Shop()], invoices, events, payments, [])
  }

  lemma AsksFor(db: Db, units: nat)
    requires 0 < units < 1000 && Reachable(db) && |db.merchants| == 1
    requires OpenKeyFree(db.invoices, Lower(db.cfg.hotAddress), units + |db.invoices| + 1)
    ensures Reachable(db.(invoices := db.invoices + [NewInvoice(db, 0, None, units)]))
  {
    hide Reachable, Money.ParseAmount, Money.Print, OpenKeyFree, Lower;
    MoneyExactness.LiteralPowers();
    MoneyRoundTrip.RoundTrip(units);
    RescueWitness.ReachesOn(db, Create(true, 0, None, Money.Print(units)));
  }

  function Posted(cfg: Settings): Db {
    World(cfg, [Bill(cfg, 2, 3)], [ChainEvent(Canonical(Coin(cfg)), EventPending)], [])
  }

  lemma FirstIsPosted(cfg: Settings)
    requires 10 <= |cfg.hotAddress| <= 64
    ensures Reachable(Posted(cfg))
  {
    hide Reachable, Lower;
    RescueWitness.StartIsReachable(cfg, 0);
    RescueWitness.ReachesOn(Empty(cfg, 0), NewMerchant(RescueWitness.Shop()));
    assert Apply(Empty(cfg, 0), NewMerchant(RescueWitness.Shop())) == World(cfg, [], [], []);
    AsksFor(World(cfg, [], [], []), 2);
    assert [] + [NewInvoice(World(cfg, [], [], []), 0, None, 2)] == [Bill(cfg, 2, 3)];
    var billed := World(cfg, [Bill(cfg, 2, 3)], [], []);
    RescueWitness.ReachesOn(billed, IngestBatch([Coin(cfg)]));
    RescueWitness.IngestOneCoin([], Coin(cfg));
    assert Apply(billed, IngestBatch([Coin(cfg)])) == Posted(cfg);
  }

  function OncePaid(cfg: Settings, invoices: seq<Invoice>): Db {
    var t := Canonical(Coin(cfg));
    World(cfg, invoices, [ChainEvent(t, EventProcessed)], [Payment(0, 0, t.txHash, t.logIndex, BLOCK, 3, None, 0)])
  }

  lemma FirstIsPaid(cfg: Settings)
    requires 10 <= |cfg.hotAddress| <= 64
    ensures Reachable(OncePaid(cfg, [PaidBill(cfg)]))
  {
    hide Reachable, Lower;
    FirstIsPosted(cfg);
    RescueWitness.ReachesOn(Posted(cfg), Process(0));
    assert FindMatch(Posted(cfg).invoices, Posted(cfg).events[0]) == Some(0);
    var paid := Apply(Posted(cfg), Process(0));
    assert paid.invoices == [PaidBill(cfg)];
    assert paid.events == OncePaid(cfg, []).events;
    assert paid.payments == OncePaid(cfg, []).payments;
  }

  function Twins(cfg: Settings): Db {
    OncePaid(cfg, [PaidBill(cfg), Bill(cfg, 1, 3)])
  }

  lemma TwinsAreReachable(cfg: Settings)
    requires 10 <= |cfg.hotAddress| <= 64
    ensures Reachable(Twins(cfg))
  {
    hide Reachable, Lower;
    FirstIsPaid(cfg);
    var paid := OncePaid(cfg, [PaidBill(cfg)]);
    AsksFor(paid, 1);
    assert paid.invoices + [NewInvoice(paid, 0, None, 1)] == Twins(cfg).invoices;
  }

  /** In every configuration that checks at least one payment and has a reorg
      window: a bill for 2 base units is paid with 3, a bill for 1 then gets the
      payable amount 3, and the pass that finds the payment gone is lost. */
  lemma RearmingCanFail(cfg: Settings) returns (db: Db, a: Action)
    requires 10 <= |cfg.hotAddress| <= 64 && 1 <= cfg.crosscheckBatch && 0 < cfg.reorgSafetyDepth
    ensures Reachable(db) && db.cfg == cfg && Standing(db, 0, 1)
    ensures Misses(db, a, 0) && Committed(db, a) == Err(OpenKeyTaken) && Apply(db, a) == db
  {
    hide Reachable, Lower, Committed, Apply, Inv;
    db := Twins(cfg);
    TwinsAreReachable(cfg);
    a := ReconcilePass([], [0], [Unknown], Some(BLOCK));
    assert Answered([Unknown], 1) == 1;
    assert a.picked[0] == 0;
    ReachableInv(db);
    MissIsLost(db, a, 0, 1);
  }

  // ------------------------------------------- settled while blocked

  function DeepBill(cfg: Settings, status: Status): Invoice {
    PaidBill(cfg).(status := status, confirmedBlock := Some(BLOCK + cfg.confirmationThreshold - 1))
  }

  function Note(cfg: Settings, kind: Kind, status: DeliveryStatus): Delivery {
    var inv := DeepBill(cfg, if kind == InvoiceConfirmed then Confirmed else Settled);
    var body := Payload(kind, 0, 0, 0, inv.status, 2, 3, 3, inv.address);
    Delivery(0, 0, kind, body, cfg.sign(RescueWitness.Shop().webhookSecret, body), 1, status, None, 0,
             if status == DeliveryDelivered then Some(0) else None, None)
  }

  function ConfirmedTwins(cfg: Settings): Db {
    OncePaid(cfg, [DeepBill(cfg, Confirmed), Bill(cfg, 1, 3)])
      .(deliveries := [Note(cfg, InvoiceConfirmed, DeliveryPending)])
  }

  function SettledTwins(cfg: Settings): Db {
    OncePaid(cfg, [DeepBill(cfg, Settled), Bill(cfg, 1, 3)])
      .(deliveries := [Note(cfg, InvoiceConfirmed, DeliveryDelivered), Note(cfg, InvoiceSettled, DeliveryPending)])
  }

  function MissingPass(cfg: Settings): Action {
    ReconcilePass([], [0], [Unknown], Some(BLOCK + cfg.confirmationThreshold))
  }

  lemma TwinsConfirm(cfg: Settings)
    requires 0 < cfg.invoiceTtl
    ensures var a := SweepPass([1], [0], Some(BLOCK + cfg.confirmationThreshold));
            Enabled(Twins(cfg), a) && Apply(Twins(cfg), a) == ConfirmedTwins(cfg)
  {
    hide Lower;
    var db, latest := Twins(cfg), BLOCK + cfg.confirmationThreshold;
    assert Expire(db, [1], 0) == Ok(Swept(db, 0));
    assert Expire(db, [1], 1) == Ok(Swept(db, 0));
    assert Confirm(db, [0], latest, 0) == Ok(Swept(db, 0));
    assert Confirm(db, [0], latest, 1) == ConfirmOne(Swept(db, 0), 0, latest);
    var after := Apply(db, SweepPass([1], [0], Some(latest)));
    assert after.invoices == ConfirmedTwins(cfg).invoices;
    assert after.deliveries == ConfirmedTwins(cfg).deliveries;
  }

  lemma TwinsSettle(cfg: Settings)
    ensures var a := Attempt(0, Responded(200));
            Enabled(ConfirmedTwins(cfg), a) && Apply(ConfirmedTwins(cfg), a) == SettledTwins(cfg)
  {
    hide Lower;
    var after := Apply(ConfirmedTwins(cfg), Attempt(0, Responded(200)));
    assert after.invoices == SettledTwins(cfg).invoices;
    assert after.deliveries == SettledTwins(cfg).deliveries;
  }

  lemma PicksTheOne(cfg: Settings, db: Db, invoices: seq<Invoice>)
    requires db == OncePaid(cfg, invoices).(deliveries := db.deliveries) && 1 <= cfg.crosscheckBatch
    requires cfg.confirmationThreshold < cfg.reorgSafetyDepth
    requires forall i :: 0 <= i < |invoices| ==> invoices[i].status != Confirmed
    ensures Enabled(db, MissingPass(cfg)) && Misses(db, MissingPass(cfg), 0)
  {
    hide Lower;
    assert Answered([Unknown], 1) == 1;
    assert MissingPass(cfg).picked[0] == 0;
  }

  /** A pass that misses the payment of a settled invoice is not lost: it marks the
      payment and leaves both invoices alone. */
  lemma SettledPassCommits(cfg: Settings)
    requires Reachable(SettledTwins(cfg)) && Misses(SettledTwins(cfg), MissingPass(cfg), 0)
    ensures Committed(SettledTwins(cfg), MissingPass(cfg)).Ok?
    ensures var after := Apply(SettledTwins(cfg), MissingPass(cfg));
            && after.invoices == SettledTwins(cfg).invoices
            && |after.payments| == 1 && !Live(after.payments[0])
  {
    hide Reachable, Inv, Lower, Crosscheck;
    var db, a := SettledTwins(cfg), MissingPass(cfg);
    ReachableInv(db);
    PassIsLostIff(db, a.confirmed, a.picked, a.answers, a.latest.value);
    ReconcileSteps(db, a.confirmed, a.picked, a.answers, a.latest);
    var after := Apply(db, a);
    assert Rescue(db, [], 0).db == db;
    assert Reorgged(db, after, a.picked, a.answers, a.latest.value, 1);
    assert after.invoices[0] == db.invoices[0] && after.invoices[1] == db.invoices[1];
  }

  lemma OneStep(db: Db, a: Action, rest: seq<Action>)
    requires Enabled(db, a) && LegalRun(Apply(db, a), rest)
    ensures LegalRun(db, [a] + rest) && Exec(db, [a] + rest) == Exec(Apply(db, a), rest)
  {
    hide Enabled, Apply;
    assert ([a] + rest)[0] == a && ([a] + rest)[1..] == rest;
  }

  lemma ThreeSteps(db: Db, a: Action, b: Action, c: Action)
    requires Enabled(db, a) && Apply(db, a) == db && Enabled(db, b)
    requires Enabled(Apply(db, b), c)
    ensures LegalRun(db, [a] + [b, c]) && Exec(db, [a] + [b, c]) == Apply(Apply(db, b), c)
  {
    hide Enabled, Apply;
    var after := Apply(db, b);
    OneStep(after, c, []);
    assert [c] + [] == [c];
    OneStep(db, b, [c]);
    assert [b] + [c] == [b, c];
    OneStep(db, a, [b, c]);
  }

  /** The consequence: in every configuration with a time to live and a reorg window
      beyond the confirmation depth there is a reachable state whose rollback is
      blocked, and from it the invoice is still confirmed and settled, on a payment
      that the chain has lost. After that passes are lost no longer, although the
      other invoice is still open; but the settled invoice stays settled. */
  lemma BlockedInvoiceSettles(cfg: Settings) returns (db: Db, run: seq<Action>, miss: Action)
    requires 10 <= |cfg.hotAddress| <= 64 && 1 <= cfg.crosscheckBatch && 0 < cfg.invoiceTtl
    requires cfg.confirmationThreshold < cfg.reorgSafetyDepth
    ensures Reachable(db) && db.cfg == cfg && Standing(db, 0, 1)
    ensures Misses(db, miss, 0) && Apply(db, miss) == db
    ensures LegalRun(db, [miss] + run) && Reachable(Exec(db, [miss] + run))
    ensures var end := Exec(db, [miss] + run);
            && |end.invoices| == 2 && end.invoices[0].status == Settled && IsOpen(end.invoices[1])
            && |end.payments| == 1 && Live(end.payments[0])
            && Misses(end, miss, 0) && Committed(end, miss).Ok?
            && Apply(end, miss).invoices == end.invoices
            && |Apply(end, miss).payments| == 1 && !Live(Apply(end, miss).payments[0])
  {
    hide Reachable, Lower, Committed, Apply, Inv, Enabled, Misses;
    db, miss := Twins(cfg), MissingPass(cfg);
    TwinsAreReachable(cfg);
    ReachableInv(db);
    PicksTheOne(cfg, db, db.invoices);
    assert Standing(db, 0, 1);
    MissIsLost(db, miss, 0, 1);
    var sweep, attempt := SweepPass([1], [0], Some(BLOCK + cfg.confirmationThreshold)), Attempt(0, Responded(200));
    run := [sweep, attempt];
    TwinsConfirm(cfg);
    TwinsSettle(cfg);
    RescueWitness.ReachesOn(db, sweep);
    RescueWitness.ReachesOn(ConfirmedTwins(cfg), attempt);
    ThreeSteps(db, miss, sweep, attempt);
    PicksTheOne(cfg, SettledTwins(cfg), SettledTwins(cfg).invoices);
    SettledPassCommits(cfg);
  }
}
