/** A run in which rescue is lost: a confirmation that is delivered after its
    invoice was rolled back counts for the next payment too, so when the later
    confirmation fails for good nobody is ever told. */
module RescueWitness {
  import opened Basics
  import opened Model
  import opened Steps
  import opened Invariant
  import opened LedgerSteps
  import opened RescueExactness
  import opened Runs
  import StateMachine
  import Money
  import MoneyRoundTrip
  import MoneyExactness

  lemma {:induction false} RunExtends(db: Db, actions: seq<Action>, a: Action)
    requires LegalRun(db, actions) && Enabled(Exec(db, actions), a)
    ensures LegalRun(db, actions + [a]) && Exec(db, actions + [a]) == Apply(Exec(db, actions), a)
    decreases |actions|
  {
    hide Enabled, Apply;
    if actions == [] {
      assert actions + [a] == [a] && [a][1..] == [];
    } else {
      assert (actions + [a])[0] == actions[0] && (actions + [a])[1..] == actions[1..] + [a];
      RunExtends(Apply(db, actions[0]), actions[1..], a);
    }
  }

  lemma ReachesOn(db: Db, a: Action)
    requires Reachable(db) && Enabled(db, a)
    ensures Reachable(Apply(db, a))
  {
    hide Enabled, Apply;
    var cfg, now, actions :| LegalRun(Empty(cfg, now), actions) && db == Exec(Empty(cfg, now), actions);
    RunExtends(Empty(cfg, now), actions, a);
  }

  lemma StartIsReachable(cfg: Settings, now: int)
    ensures Reachable(Empty(cfg, now))
  {
    assert LegalRun(Empty(cfg, now), []) && Exec(Empty(cfg, now), []) == Empty(cfg, now);
  }

  // ------------------------------------------------ the rows of the run

  const BLOCK: int := 100

  function Shop(): Merchant {
    Merchant("https://shop.example/hook", "secret")
  }

  function Bill(cfg: Settings, status: Status): Invoice {
    var deep := status == Confirmed;
    var paid := status == Confirming || deep;
    Invoice(0, None, 1, 2, if paid then 2 else 0, Lower(cfg.hotAddress), status,
            if paid then Some(BLOCK) else None,
            if deep then Some(BLOCK + cfg.confirmationThreshold - 1) else None, cfg.invoiceTtl)
  }

  function Coin(cfg: Settings, logIndex: int): Transfer {
    Transfer("0123456789", logIndex, BLOCK, None, "0123456789", "0123456789", cfg.hotAddress, 2)
  }

  function Seen(cfg: Settings, logIndex: int, status: EventStatus): ChainEvent {
    ChainEvent(Canonical(Coin(cfg, logIndex)), status)
  }

  function Proof(cfg: Settings, e: nat, orphaned: bool): Payment {
    var t := Canonical(Coin(cfg, e));
    Payment(0, e, t.txHash, t.logIndex, t.block, t.amount, if orphaned then Some(0) else None, 0)
  }

  function Note(cfg: Settings, kind: Kind, status: DeliveryStatus): Delivery {
    var inv := Bill(cfg, if kind == InvoiceConfirmed then Confirmed else AwaitingPayment);
    var body := Payload(kind, 0, 0, 0, inv.status, inv.requested, inv.amount, inv.paid, inv.address);
    Delivery(0, 0, kind, body, cfg.sign("secret", body), 1, status, None, 0,
             if status == DeliveryDelivered then Some(0) else None, None)
  }

  function World(cfg: Settings, status: Status, events: seq<ChainEvent>, payments: seq<Payment>,
                 notes: seq<Delivery>): Db {
    Db(cfg, 0, [Shop()], [Bill(cfg, status)], events, payments, notes)
  }

  ghost predicate Usual(cfg: Settings) {
    && 10 <= |cfg.hotAddress| <= 64
    && 1 <= cfg.crosscheckBatch && 1 <= cfg.rescueCap
    && cfg.confirmationThreshold < cfg.reorgSafetyDepth
  }

  // ------------------------------------------------------------ the run

  lemma Billed(cfg: Settings)
    ensures Reachable(World(cfg, AwaitingPayment, [], [], []))
  {
    hide Reachable, Money.ParseAmount, Money.Print;
    StartIsReachable(cfg, 0);
    var empty := Empty(cfg, 0);
    ReachesOn(empty, NewMerchant(Shop()));
    var open := Apply(empty, NewMerchant(Shop()));
    MoneyExactness.LiteralPowers();
    MoneyRoundTrip.RoundTrip(1);
    ReachesOn(open, Create(true, 0, None, Money.Print(1)));
    assert Apply(open, Create(true, 0, None, Money.Print(1))) == World(cfg, AwaitingPayment, [], [], []);
  }

  lemma {:induction false} IngestOneCoin(events: seq<ChainEvent>, t: Transfer)
    requires forall r :: 0 <= r < |events| ==> events[r].log.logIndex != t.logIndex
    ensures IngestAll(events, [t]).events == events + [ChainEvent(Canonical(t), EventPending)]
  {
    assert [t][..0] == [];
    assert IngestAll(events, []) == Ingested(events, 0, 0);
  }

  /** A coin arrives for the open bill and is credited. */
  lemma Pays(cfg: Settings, events: seq<ChainEvent>, payments: seq<Payment>, notes: seq<Delivery>)
    requires Usual(cfg) && Reachable(World(cfg, AwaitingPayment, events, payments, notes))
    requires forall r :: 0 <= r < |events| ==> events[r].log.logIndex < |events|
    requires forall p :: 0 <= p < |payments| ==> payments[p].logIndex < |events|
    ensures Reachable(World(cfg, Confirming, events + [Seen(cfg, |events|, EventProcessed)],
                            payments + [Proof(cfg, |events|, false)], notes))
  {
    hide Reachable, Lower;
    var before := World(cfg, AwaitingPayment, events, payments, notes);
    var t := Coin(cfg, |events|);
    ReachesOn(before, IngestBatch([t]));
    IngestOneCoin(events, t);
    var posted := Apply(before, IngestBatch([t]));
    assert posted == before.(events := events + [Seen(cfg, |events|, EventPending)]);
    ReachesOn(posted, Process(|events|));
    assert FindMatch(posted.invoices, posted.events[|events|]) == Some(0);
    var paid := Apply(posted, Process(|events|));
    assert paid.invoices == [Bill(cfg, Confirming)];
    assert paid.events == events + [Seen(cfg, |events|, EventProcessed)];
  }

  /** The paid bill becomes deep enough. */
  lemma Deepens(cfg: Settings, events: seq<ChainEvent>, payments: seq<Payment>, notes: seq<Delivery>)
    requires Reachable(World(cfg, Confirming, events, payments, notes))
    ensures Reachable(World(cfg, Confirmed, events, payments, notes + [Note(cfg, InvoiceConfirmed, DeliveryPending)]))
  {
    hide Reachable, Lower;
    var before := World(cfg, Confirming, events, payments, notes);
    var latest := BLOCK + cfg.confirmationThreshold;
    var sweep := SweepPass([], [0], Some(latest));
    ReachesOn(before, sweep);
    assert Expire(before, [], 0) == Ok(Swept(before, 0));
    assert Confirm(before, [0], latest, 0) == Ok(Swept(before, 0));
    assert Confirm(before, [0], latest, 1) == ConfirmOne(Swept(before, 0), 0, latest);
    var deep := Apply(before, sweep);
    assert deep.invoices == [Bill(cfg, Confirmed)];
  }

  function PaidWorld(cfg: Settings): Db {
    World(cfg, Confirmed, [Seen(cfg, 0, EventProcessed)], [Proof(cfg, 0, false)],
          [Note(cfg, InvoiceConfirmed, DeliveryPending)])
  }

  function LostWorld(cfg: Settings): Db {
    World(cfg, AwaitingPayment, [Seen(cfg, 0, EventOrphaned)], [Proof(cfg, 0, true)],
          [Note(cfg, InvoiceConfirmed, DeliveryPending), Note(cfg, InvoiceReorgged, DeliveryPending)])
  }

  lemma Reopens(cfg: Settings)
    ensures ApplyReorg(PaidWorld(cfg), 0) == Ok(LostWorld(cfg))
  {
    hide Lower;
    StateMachine.RollBackReachesAwaiting(Confirmed);
    var back := ApplyReorg(PaidWorld(cfg), 0).value;
    assert back.invoices == [Bill(cfg, AwaitingPayment)];
    assert back.events == LostWorld(cfg).events;
    assert back.payments == LostWorld(cfg).payments;
    assert back.deliveries == LostWorld(cfg).deliveries;
  }

  /** The coin vanishes from the chain. */
  lemma Vanishes(cfg: Settings)
    requires Usual(cfg)
    requires Reachable(PaidWorld(cfg))
    ensures Reachable(LostWorld(cfg))
  {
    hide Reachable, Lower, ApplyReorg;
    var before := PaidWorld(cfg);
    var latest := BLOCK + cfg.confirmationThreshold;
    var pass := ReconcilePass([0], [0], [Unknown], Some(latest));
    ReachesOn(before, pass);
    assert InFlightOrTold(before.deliveries, 0) by {
      assert before.deliveries[0].status == DeliveryPending;
    }
    assert Rescue(before, [0], 0) == Swept(before, 0);
    assert Rescue(before, [0], 1) == Swept(before, 0);
    assert Answered([Unknown], 1) == 1;
    assert Crosscheck(before, [0], [Unknown], latest, 0) == Ok(Checked(before, 0, 0, 0));
    Reopens(cfg);
    assert Crosscheck(before, [0], [Unknown], latest, 1) == CheckOne(Checked(before, 0, 0, 0), 0, Unknown, latest);
    assert CheckOne(Checked(before, 0, 0, 0), 0, Unknown, latest) == Ok(Checked(LostWorld(cfg), 1, 1, 1));
    assert Apply(before, pass) == LostWorld(cfg);
  }

  /** The endpoint accepts, or for good refuses, one first attempt. */
  lemma Answers(before: Db, r: nat, http: Http)
    requires Reachable(before) && r < |before.deliveries| && IsDue(before.deliveries[r], before.now)
    requires 1 <= before.deliveries[r].attempt && Dispatch(before, r, http).Ok?
    ensures Reachable(Dispatch(before, r, http).value)
  {
    hide Reachable;
    ReachesOn(before, Attempt(r, http));
  }

  /** The bill is open again, and its lost confirmation has been delivered late. */
  function ToldWorld(cfg: Settings): Db {
    World(cfg, AwaitingPayment, [Seen(cfg, 0, EventOrphaned)], [Proof(cfg, 0, true)],
          [Note(cfg, InvoiceConfirmed, DeliveryDelivered), Note(cfg, InvoiceReorgged, DeliveryPending)])
  }

  lemma ToldTooLate(cfg: Settings)
    requires Usual(cfg)
    ensures Reachable(ToldWorld(cfg))
  {
    hide Reachable, Lower, Usual;
    Billed(cfg);
    Pays(cfg, [], [], []);
    assert [] + [Seen(cfg, 0, EventProcessed)] == [Seen(cfg, 0, EventProcessed)];
    assert [] + [Proof(cfg, 0, false)] == [Proof(cfg, 0, false)];
    Deepens(cfg, [Seen(cfg, 0, EventProcessed)], [Proof(cfg, 0, false)], []);
    assert [] + [Note(cfg, InvoiceConfirmed, DeliveryPending)] == [Note(cfg, InvoiceConfirmed, DeliveryPending)];
    Vanishes(cfg);
    Answers(LostWorld(cfg), 0, Responded(200));
    assert Dispatch(LostWorld(cfg), 0, Responded(200)).value == ToldWorld(cfg);
  }

  lemma OnlyListing(order: seq<nat>, invoices: seq<Invoice>)
    requires |invoices| == 1 && invoices[0].status == Confirmed && ListsStatus(order, invoices, Confirmed)
    ensures order == [0]
  {
    DistinctRows(order);
    assert 0 in order;
    assert Rows(order) == {0};
  }

  lemma NeverAgain(db: Db)
    requires Reachable(db) && |db.invoices| == 1 && db.invoices[0].status == Confirmed
    requires Notified(db.deliveries, 0)
    ensures forall order :: ListsStatus(order, db.invoices, Confirmed) ==>
              Rescue(db, order, |order|) == Swept(db, 0)
    ensures forall actions :: LegalRun(db, actions) && StaysConfirmed(db, actions, 0) ==>
              Heads(Exec(db, actions).deliveries, 0) == Heads(db.deliveries, 0)
  {
    hide Reachable, Inv, InFlightOrTold, LegalRun, StaysConfirmed, Exec, Heads;
    ReachableInv(db);
    StillNotified(db.deliveries, db.deliveries, 0);
    assert Rescue(db, [0], 0) == Swept(db, 0);
    forall order | ListsStatus(order, db.invoices, Confirmed)
      ensures Rescue(db, order, |order|) == Swept(db, 0)
    {
      OnlyListing(order, db.invoices);
    }
    forall actions | LegalRun(db, actions) && StaysConfirmed(db, actions, 0)
      ensures Heads(Exec(db, actions).deliveries, 0) == Heads(db.deliveries, 0)
    {
      SilencedWhileConfirmed(db, actions, 0);
    }
  }

  /** For every usual configuration there is a reachable state with a confirmed
      invoice that no pending message announces and that no rescue announces: not
      in this state, and not after any run in which it stays confirmed. */
  lemma RescueCanBeSuppressed(cfg: Settings) returns (db: Db)
    requires Usual(cfg)
    ensures Reachable(db) && db.cfg == cfg
    ensures |db.invoices| == 1 && db.invoices[0].status == Confirmed
    ensures !ConfirmationPending(db.deliveries, 0)
    ensures forall order :: ListsStatus(order, db.invoices, Confirmed) ==>
              Rescue(db, order, |order|) == Swept(db, 0)
    ensures forall actions :: LegalRun(db, actions) && StaysConfirmed(db, actions, 0) ==>
              Heads(Exec(db, actions).deliveries, 0) == Heads(db.deliveries, 0)
  {
    hide Reachable, Lower;
    var sent, lost := Note(cfg, InvoiceConfirmed, DeliveryPending), Note(cfg, InvoiceReorgged, DeliveryPending);
    var told, failed := Note(cfg, InvoiceConfirmed, DeliveryDelivered), Note(cfg, InvoiceConfirmed, DeliveryFailed);
    var e0, p0 := Seen(cfg, 0, EventOrphaned), Proof(cfg, 0, true);
    ToldTooLate(cfg);
    Pays(cfg, [e0], [p0], [told, lost]);
    var evs, pays := [e0] + [Seen(cfg, 1, EventProcessed)], [p0] + [Proof(cfg, 1, false)];
    Deepens(cfg, evs, pays, [told, lost]);
    var again := World(cfg, Confirmed, evs, pays, [told, lost] + [sent]);
    Answers(again, 2, Blocked);
    db := Dispatch(again, 2, Blocked).value;
    assert db == World(cfg, Confirmed, evs, pays, [told, lost, failed]);
    assert ConfirmationDelivered(db.deliveries[0], 0);
    NeverAgain(db);
  }
}
