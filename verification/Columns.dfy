/** Each operation of the ledger once more, on the columns and numbers that its
    callers see: these contracts spell out the conditions of the program instead of
    naming the functions that define the steps. */
module Columns {
  import opened Basics
  import opened Model
  import opened Steps
  import opened Invariant
  import opened LedgerSteps
  import opened CrosscheckExactness
  import opened Runs
  import Lifecycle
  import Money
  import MoneySteps
  import Webhooks

  // -------------------------------------------------------------- ingest

  /** A transfer with a new hash and log index becomes the next row: pending, with
      every hexadecimal column in lower case and nothing dropped. */
  lemma StoredRow(events: seq<ChainEvent>, t: Transfer)
    requires forall r :: 0 <= r < |events| ==>
               events[r].log.txHash != Lower(t.txHash) || events[r].log.logIndex != t.logIndex
    ensures var r := IngestAll(events, [t]);
            && r.accepted == 1 && r.duplicates == 0
            && |r.events| == |events| + 1 && events <= r.events
            && var row := r.events[|events|];
               && row.status == EventPending
               && row.log.txHash == Lower(t.txHash) && row.log.logIndex == t.logIndex
               && row.log.block == t.block && row.log.amount == t.amount
               && row.log.blockHash == (match t.blockHash
                                        case None => None
                                        case Some(h) => if h == "" then None else Some(Lower(h)))
               && row.log.contractAddress == Lower(t.contractAddress)
               && row.log.fromAddress == Lower(t.fromAddress) && row.log.toAddress == Lower(t.toAddress)
  {
    hide Lower;
    assert [t][..0] == [];
    assert IngestAll(events, []) == Ingested(events, 0, 0);
  }

  /** A row with the same hash, however it is spelled, and the same log index makes
      the transfer a duplicate; nothing else does. */
  lemma DuplicateIff(events: seq<ChainEvent>, t: Transfer)
    ensures IngestAll(events, [t]).duplicates == 1 <==>
              exists r :: 0 <= r < |events| && events[r].log.txHash == Lower(t.txHash)
                          && events[r].log.logIndex == t.logIndex
    ensures IngestAll(events, [t]).duplicates == 1 ==> IngestAll(events, [t]).events == events
  {
    hide Lower;
    assert [t][..0] == [];
    assert IngestAll(events, []) == Ingested(events, 0, 0);
  }

  /** The bounds that the endpoint puts on the fields of an event. */
  predicate FieldsInBounds(t: Transfer) {
    && 10 <= |t.txHash| <= 80 && t.logIndex >= 0 && t.block >= 0
    && (t.blockHash.Some? ==> |t.blockHash.value| <= 80)
    && 10 <= |t.contractAddress| <= 64 && 10 <= |t.fromAddress| <= 64 && 10 <= |t.toAddress| <= 64
    && t.amount > 0
  }

  /** A request of 1 to 500 events, none of them with a field out of bounds, is taken
      whole; any other changes nothing. */
  lemma TakenWholeOrNotAtAll(db: Db, batch: seq<Transfer>)
    ensures ValidBatch(batch) <==>
              1 <= |batch| <= 500 && forall k :: 0 <= k < |batch| ==> FieldsInBounds(batch[k])
    ensures Ingest(db, batch) == if ValidBatch(batch) then db.(events := IngestAll(db.events, batch).events) else db
  {
  }

  // -------------------------------------------------------------- credit

  lemma OnlyPayee(db: Db, e: nat, i: nat)
    requires Inv(db) && e < |db.events| && i < |db.invoices| && Matches(db.invoices[i], db.events[e])
    ensures FindMatch(db.invoices, db.events[e]) == Some(i)
  {
    MoneySteps.MatchIsUnique(db.invoices, db.events[e], i);
  }

  /** A pending event credits an invoice exactly if the invoice is open, has the
      event's address and is payable with its amount; the invoice is then being
      confirmed, paid in full, and the payment repeats the event. If there is no such
      invoice the event is skipped and nothing else changes. */
  lemma CreditsExactly(db: Db, e: nat, i: nat)
    requires Inv(db) && e < |db.events| && db.events[e].status == EventPending && i < |db.invoices|
    ensures var after := ProcessAndCommit(db, e);
            && after.Ok? && |after.value.db.invoices| == |db.invoices| && |after.value.db.events| == |db.events|
            && (after.value.db.invoices[i].status != db.invoices[i].status <==>
                  && db.invoices[i].status == AwaitingPayment
                  && db.invoices[i].address == db.events[e].log.toAddress
                  && db.invoices[i].amount == db.events[e].log.amount)
            && (after.value.db.invoices[i].status != db.invoices[i].status ==>
                  && after.value.db.invoices == db.invoices[i := db.invoices[i].(
                       status := Confirming,
                       paid := db.events[e].log.amount,
                       detectedBlock := Some(db.events[e].log.block))]
                  && after.value.db.events[e].status == EventProcessed
                  && after.value.db.payments == db.payments + [Payment(
                       i, e, db.events[e].log.txHash, db.events[e].log.logIndex, db.events[e].log.block,
                       db.events[e].log.amount, None, db.now)])
    ensures (forall q :: 0 <= q < |db.invoices| ==>
               || db.invoices[q].status != AwaitingPayment
               || db.invoices[q].address != db.events[e].log.toAddress
               || db.invoices[q].amount != db.events[e].log.amount) ==>
              ProcessAndCommit(db, e) ==
              Ok(Processed(db.(events := db.events[e := db.events[e].(status := EventSkipped)]), OutcomeSkipped))
  {
    hide Inv;
    ProcessKeeps(db, e);
    InvoiceFacts(db, i);
    FindMatchIsLowest(db.invoices, db.events[e], 0);
    if Matches(db.invoices[i], db.events[e]) {
      OnlyPayee(db, e, i);
      Lifecycle.CreditShape(db, e, i);
    }
  }

  // -------------------------------------------------------------- create

  /** A request without a valid key for an existing merchant changes nothing. */
  lemma UnauthorisedChangesNothing(db: Db, authorized: bool, merchant: nat, key: Option<string>, amount: string)
    ensures CreateInvoice(db, authorized, merchant, key, amount).1 == NotAuthorized <==>
            !authorized || merchant >= |db.merchants|
    ensures !authorized || merchant >= |db.merchants| ==> CreateInvoice(db, authorized, merchant, key, amount).0 == db
  {
    hide Money.ParseAmount, FindByKey, OpenKeyFree;
  }

  /** A request is a replay exactly if its merchant has an invoice with its key, which
      must not be empty; it then changes nothing, whatever its amount, and returns that
      invoice. */
  lemma ReplayIff(db: Db, merchant: nat, key: Option<string>, amount: string)
    requires merchant < |db.merchants|
    ensures var (after, outcome) := CreateInvoice(db, true, merchant, key, amount);
            && (outcome.Replayed? <==>
                  && key.Some? && key.value != ""
                  && exists i :: 0 <= i < |db.invoices| && db.invoices[i].merchant == merchant
                                 && db.invoices[i].idempotencyKey == key)
            && (outcome.Replayed? ==>
                  && after == db && outcome.row < |db.invoices|
                  && db.invoices[outcome.row].merchant == merchant
                  && db.invoices[outcome.row].idempotencyKey == key)
  {
    hide Money.ParseAmount, OpenKeyFree;
    if key.Some? && key.value != "" {
      var found := FindByKey(db.invoices, merchant, key.value);
      if i :| 0 <= i < |db.invoices| && db.invoices[i].merchant == merchant && db.invoices[i].idempotencyKey == key {
        assert HasKey(db.invoices[i], merchant, key.value);
      }
    }
  }

  /** A request that is no replay is refused for its amount exactly if the parser
      refuses it, fails with a server error exactly if the parser escapes or returns
      no positive amount, and changes nothing in either case. */
  lemma AmountIsChecked(db: Db, merchant: nat, key: Option<string>, amount: string)
    requires merchant < |db.merchants| && !CreateInvoice(db, true, merchant, key, amount).1.Replayed?
    ensures var (after, outcome) := CreateInvoice(db, true, merchant, key, amount);
            var parsed := Money.ParseAmount(amount);
            && (outcome == BadAmount <==> parsed == Money.Rejected)
            && (outcome == ServerError <==> parsed == Money.Crash || (parsed.Units? && parsed.units <= 0))
            && (outcome.BadAmount? || outcome.ServerError? || outcome.Conflict? ==> after == db)
            && outcome != NotAuthorized
  {
    hide Money.ParseAmount, FindByKey, OpenKeyFree;
  }

  /** The row of a new invoice, column by column. */
  lemma CreatedColumns(db: Db, merchant: nat, key: Option<string>, amount: string)
    requires CreateInvoice(db, true, merchant, key, amount).1.CreatedAs?
    ensures var (after, outcome) := CreateInvoice(db, true, merchant, key, amount);
            && outcome.row == |db.invoices|
            && after == db.(invoices := after.invoices)
            && |after.invoices| == |db.invoices| + 1 && db.invoices <= after.invoices
            && var row := after.invoices[|db.invoices|];
               && Money.ParseAmount(amount) == Money.Units(row.requested) && 0 < row.requested
               && row.merchant == merchant && row.idempotencyKey == key
               && row.amount == row.requested + |db.invoices| + 1
               && row.paid == 0 && row.address == Lower(db.cfg.hotAddress)
               && row.status == AwaitingPayment && row.detectedBlock == None && row.confirmedBlock == None
               && row.expiresAt == db.now + db.cfg.invoiceTtl
  {
    hide Money.ParseAmount, FindByKey, OpenKeyFree, Lower;
  }

  // -------------------------------------------------------------- expiry

  lemma DispatchExpiresNone(db: Db, r: nat, http: Http, i: nat)
    requires Inv(db) && r < |db.deliveries| && IsDue(db.deliveries[r], db.now) && i < |db.invoices|
    requires db.invoices[i].status != Expired
    ensures 1 <= db.deliveries[r].attempt && Dispatch(db, r, http).Ok?
    ensures i < |Dispatch(db, r, http).value.invoices| && Dispatch(db, r, http).value.invoices[i].status != Expired
  {
    hide Inv, Retry, FirstAttempt;
    DispatchKeeps(db, r, http);
  }

  lemma ProcessExpiresNone(db: Db, e: nat, i: nat)
    requires Inv(db) && e < |db.events| && i < |db.invoices| && db.invoices[i].status != Expired
    ensures ProcessAndCommit(db, e).Ok?
    ensures var after := ProcessAndCommit(db, e).value.db;
            i < |after.invoices| && after.invoices[i].status != Expired
  {
    hide Inv;
    ProcessKeeps(db, e);
  }

  lemma ReconcileExpiresNone(db: Db, a: Action, i: nat)
    requires Inv(db) && Enabled(db, a) && a.ReconcilePass? && i < |db.invoices| && db.invoices[i].status != Expired
    ensures i < |Apply(db, a).invoices| && Apply(db, a).invoices[i].status != Expired
  {
    hide Inv, WouldCollide, CondemnedInvoice, CondemnedEvent, Condemned, Reconcile;
    ReconcileSteps(db, a.confirmed, a.picked, a.answers, a.latest);
  }

  lemma SweepExpiresDue(db: Db, a: Action, i: nat)
    requires Inv(db) && Enabled(db, a) && a.SweepPass? && i < |db.invoices| && db.invoices[i].status != Expired
    ensures i < |Apply(db, a).invoices|
    ensures Apply(db, a).invoices[i].status == Expired <==>
            db.invoices[i].status == AwaitingPayment && db.invoices[i].expiresAt <= db.now
  {
    hide Inv, Sweep;
    SweepExact(db, a.awaiting, a.confirming, a.latest);
  }

  /** A sweep confirms an invoice exactly if the head is known and the block of its
      payment is at least the threshold behind it; it records the block of the last
      confirmation needed. */
  lemma ConfirmsExactly(db: Db, awaiting: seq<nat>, confirming: seq<nat>, latest: Option<int>, i: nat)
    requires Inv(db) && i < |db.invoices| && db.invoices[i].status == Confirming
    requires ListsStatus(awaiting, db.invoices, AwaitingPayment) && ListsStatus(confirming, db.invoices, Confirming)
    ensures Sweep(db, awaiting, confirming, latest).Ok? && db.invoices[i].detectedBlock.Some?
    ensures var after := Sweep(db, awaiting, confirming, latest).value.invoices;
            var block := db.invoices[i].detectedBlock.value;
            && |after| == |db.invoices|
            && after[i] == if latest.Some? && latest.value - block >= db.cfg.confirmationThreshold
                           then db.invoices[i].(status := Confirmed,
                                                confirmedBlock := Some(block + db.cfg.confirmationThreshold - 1))
                           else db.invoices[i]
  {
    hide Inv, Sweep;
    InvoiceFacts(db, i);
    SweepExact(db, awaiting, confirming, latest);
  }

  lemma CreateExpiresNone(db: Db, a: Action, i: nat)
    requires Enabled(db, a) && a.Create? && i < |db.invoices|
    ensures i < |Apply(db, a).invoices| && Apply(db, a).invoices[i] == db.invoices[i]
  {
    hide Money.ParseAmount, FindByKey, OpenKeyFree;
  }

  /** An invoice expires in a sweep, and there exactly if it is open and its time has
      come; no other step expires anything. */
  lemma ExpiresExactly(db: Db, a: Action, i: nat)
    requires Inv(db) && Enabled(db, a) && i < |db.invoices| && db.invoices[i].status != Expired
    ensures i < |Apply(db, a).invoices|
    ensures Apply(db, a).invoices[i].status == Expired <==>
            a.SweepPass? && db.invoices[i].status == AwaitingPayment && db.invoices[i].expiresAt <= db.now
  {
    hide Inv, Sweep, Reconcile, Dispatch, ProcessAndCommit, CreateInvoice;
    match a
    case Create(_, _, _, _) => CreateExpiresNone(db, a, i);
    case Process(e) => ProcessExpiresNone(db, e, i);
    case SweepPass(_, _, _) => SweepExpiresDue(db, a, i);
    case Attempt(r, http) => DispatchExpiresNone(db, r, http, i);
    case ReconcilePass(_, _, _, _) => ReconcileExpiresNone(db, a, i);
    case _ =>
  }

  lemma {:induction false} NotExpiredBefore(db: Db, actions: seq<Action>, i: nat)
    requires Inv(db) && LegalRun(db, actions) && i < |db.invoices| && db.invoices[i].status != Expired
    requires Exec(db, actions).now < db.invoices[i].expiresAt
    ensures i < |Exec(db, actions).invoices| && Exec(db, actions).invoices[i].status != Expired
    decreases |actions|
  {
    hide Inv, Apply, Enabled;
    if actions != [] {
      var next := Apply(db, actions[0]);
      StepKeeps(db, actions[0]);
      ExpiresExactly(db, actions[0], i);
      RunKeeps(next, actions[1..]);
      NotExpiredBefore(next, actions[1..], i);
    }
  }

  /** A new invoice has its whole time to live: in no run is it expired before the
      time of its creation plus that. */
  lemma LivesItsTime(db: Db, merchant: nat, key: Option<string>, amount: string, actions: seq<Action>)
    requires Inv(db) && CreateInvoice(db, true, merchant, key, amount).1.CreatedAs?
    requires LegalRun(CreateInvoice(db, true, merchant, key, amount).0, actions)
    requires Exec(CreateInvoice(db, true, merchant, key, amount).0, actions).now < db.now + db.cfg.invoiceTtl
    ensures var end := Exec(CreateInvoice(db, true, merchant, key, amount).0, actions);
            |db.invoices| < |end.invoices| && end.invoices[|db.invoices|].status != Expired
  {
    hide Inv, CreateInvoice, LegalRun, Exec;
    CreateKeeps(db, true, merchant, key, amount);
    CreatedColumns(db, merchant, key, amount);
    NotExpiredBefore(CreateInvoice(db, true, merchant, key, amount).0, actions, |db.invoices|);
  }

  // ------------------------------------------------------------ dispatch

  /** Row r is waiting and its time has come. */
  predicate Waiting(db: Db, r: nat) {
    && r < |db.deliveries| && db.deliveries[r].status == DeliveryPending
    && (db.deliveries[r].nextRetryAt == None || db.deliveries[r].nextRetryAt.value <= db.now)
  }

  /** The merchant of row r has an endpoint. */
  predicate HasUrl(db: Db, r: nat) {
    && r < |db.deliveries| && db.deliveries[r].merchant < |db.merchants|
    && db.merchants[db.deliveries[r].merchant].webhookUrl != ""
  }

  /** A reply with a code from 200 to 299 makes the row delivered, now; every other
      outcome makes it failed, and so does a merchant without an endpoint. */
  lemma ReplyDecides(db: Db, r: nat, http: Http)
    requires Inv(db) && Waiting(db, r)
    ensures 1 <= db.deliveries[r].attempt && Dispatch(db, r, http).Ok?
    ensures var after := Dispatch(db, r, http).value.deliveries;
            var taken := HasUrl(db, r) && http.Responded? && 200 <= http.code <= 299;
            && |db.deliveries| <= |after|
            && after[r] == (if taken then db.deliveries[r].(status := DeliveryDelivered, deliveredAt := Some(db.now))
                            else db.deliveries[r].(status := DeliveryFailed))
            && forall q :: 0 <= q < |db.deliveries| && q != r ==> after[q] == db.deliveries[q]
  {
    hide Inv, Retry, FirstAttempt;
    DispatchKeeps(db, r, http);
  }

  /** An attempt changes an invoice exactly if a reply from 200 to 299 takes the
      confirmation of a confirmed invoice, and then it settles that one. */
  lemma SettlesExactly(db: Db, r: nat, http: Http, i: nat)
    requires Inv(db) && Waiting(db, r) && i < |db.invoices|
    ensures 1 <= db.deliveries[r].attempt && Dispatch(db, r, http).Ok?
    ensures var after := Dispatch(db, r, http).value.invoices;
            var settles := && HasUrl(db, r) && http.Responded? && 200 <= http.code <= 299
                           && db.deliveries[r].kind == InvoiceConfirmed && db.deliveries[r].invoice == i
                           && db.invoices[i].status == Confirmed;
            && |after| == |db.invoices|
            && after[i] == if settles then db.invoices[i].(status := Settled) else db.invoices[i]
  {
    hide Inv, Retry, FirstAttempt;
    DispatchKeeps(db, r, http);
  }

  /** The wait after failed attempt n is base * 2^(n - 1), up to the cap. */
  lemma WaitsOnNumbers(cfg: Settings)
    ensures Backoff(cfg, 1) == Min(cfg.backoffBase, cfg.backoffCap)
    ensures Backoff(cfg, 2) == Min(cfg.backoffBase * 2, cfg.backoffCap)
    ensures Backoff(cfg, 3) == Min(cfg.backoffBase * 4, cfg.backoffCap)
    ensures Backoff(cfg, 4) == Min(cfg.backoffBase * 8, cfg.backoffCap)
    ensures Backoff(cfg, 5) == Min(cfg.backoffBase * 16, cfg.backoffCap)
    ensures forall n: nat :: 1 <= n && Backoff(cfg, n) < cfg.backoffCap ==>
              Backoff(cfg, n + 1) == Min(2 * Backoff(cfg, n), cfg.backoffCap)
  {
    assert Pow2(0) == 1 && Pow2(1) == 2 && Pow2(2) == 4 && Pow2(3) == 8 && Pow2(4) == 16;
    forall n: nat | 1 <= n
      ensures cfg.backoffBase * Pow2(n) == 2 * (cfg.backoffBase * Pow2(n - 1))
    {
      var p: int := Pow2(n - 1);
      Distribute(cfg.backoffBase, p, p);
    }
  }

  /** A failed attempt is tried again exactly if the endpoint was called and attempts
      are left: the retry is a new row at the end, the same message with the next
      number, waiting for base * 2^(n - 1) up to the cap. A delivery that settles is
      the only other attempt that adds a row. */
  lemma RetriesExactly(db: Db, r: nat, http: Http)
    requires Inv(db) && Waiting(db, r)
    ensures 1 <= db.deliveries[r].attempt && Dispatch(db, r, http).Ok?
    ensures var d := db.deliveries[r];
            var after := Dispatch(db, r, http).value.deliveries;
            var taken := http.Responded? && 200 <= http.code <= 299;
            var again := HasUrl(db, r) && !http.Blocked? && !taken && d.attempt < db.cfg.webhookMaxAttempts;
            && (again ==>
                  && |after| == |db.deliveries| + 1
                  && after[|db.deliveries|] == Delivery(
                       d.merchant, d.invoice, d.kind, d.payload, d.signature, d.attempt + 1, DeliveryPending,
                       Some(db.now + Min(db.cfg.backoffBase * Pow2(d.attempt - 1), db.cfg.backoffCap)),
                       db.now, None, Some(r)))
            && (!again && !taken ==> |after| == |db.deliveries|)
  {
    hide Inv, FirstAttempt;
    DispatchKeeps(db, r, http);
  }

  ghost function WaitingBefore(db: Db, r: nat): set<nat> {
    set q | 0 <= q < r && Waiting(db, q) :: q
  }

  lemma RowsBefore(db: Db, due: seq<nat>, at: nat)
    requires Webhooks.DueRows(due, db.deliveries, db.now, |db.deliveries|) && at < |due|
    ensures Rows(due[..at]) == WaitingBefore(db, due[at])
  {
    forall q | q in WaitingBefore(db, due[at])
      ensures q in Rows(due[..at])
    {
      assert q in due;
      var k :| 0 <= k < |due| && due[k] == q;
      assert k < at;
      assert due[..at][k] == q;
    }
    forall k | 0 <= k < at
      ensures due[k] in WaitingBefore(db, due[at])
    {
      assert due[k] < due[at] && Waiting(db, due[k]);
    }
  }

  lemma FirstFifty(db: Db, due: seq<nat>, rows: seq<nat>, r: nat)
    requires Webhooks.DueRows(due, db.deliveries, db.now, |db.deliveries|)
    requires rows == if |due| <= 50 then due else due[..50]
    ensures r in rows <==> Waiting(db, r) && |WaitingBefore(db, r)| < 50
  {
    if r in rows {
      var k :| 0 <= k < |rows| && rows[k] == r;
      assert due[k] == r && Waiting(db, r);
    }
    if Waiting(db, r) {
      assert r in due;
      var at :| 0 <= at < |due| && due[at] == r;
      assert Distinct(due[..at]);
      DistinctRows(due[..at]);
      RowsBefore(db, due, at);
      if at < |rows| {
        assert rows[at] == r;
      }
      if r in rows {
        var k :| 0 <= k < |rows| && rows[k] == r;
        assert due[k] == due[at];
      }
    }
  }

  /** A tick takes on the first fifty waiting rows: row r exactly if it is waiting
      and fewer than fifty rows before it are. */
  lemma TakesFirstFifty(db: Db, r: nat)
    ensures r in Selected(db.deliveries, db.now) <==>
            Waiting(db, r) && |WaitingBefore(db, r)| < 50
  {
    hide DueBelow;
    Webhooks.DueBelowFacts(db.deliveries, db.now, |db.deliveries|);
    FirstFifty(db, DueBelow(db.deliveries, db.now, |db.deliveries|), Selected(db.deliveries, db.now), r);
  }

  // ------------------------------------------------------------- enqueue

  /** Every enqueued message, column by column. */
  lemma EnqueuedColumns(db: Db, i: nat, kind: Kind)
    requires Inv(db) && i < |db.invoices|
    ensures db.invoices[i].merchant < |db.merchants|
    ensures var after := Enqueue(db, i, kind);
            var inv := db.invoices[i];
            var body := Payload(kind, db.now, i, inv.merchant, inv.status, inv.requested, inv.amount, inv.paid,
                                inv.address);
            after == db.(deliveries := db.deliveries + [Delivery(
              inv.merchant, i, kind, body, db.cfg.sign(db.merchants[inv.merchant].webhookSecret, body), 1,
              DeliveryPending, None, db.now, None, None)])
  {
    hide Inv;
    InvoiceFacts(db, i);
  }

  // ----------------------------------------------------------- reconcile

  /** The payments that count and are newer than p. */
  ghost function Newer(payments: seq<Payment>, p: nat): set<nat>
    requires p < |payments|
  {
    set q | 0 <= q < |payments| && payments[q].orphanedAt == None && payments[q].createdAt > payments[p].createdAt :: q
  }

  /** Those at least as new as p, p among them. */
  ghost function AsNew(payments: seq<Payment>, p: nat): set<nat>
    requires p < |payments|
  {
    set q | 0 <= q < |payments| && payments[q].orphanedAt == None && payments[q].createdAt >= payments[p].createdAt :: q
  }

  /** A pass picks the n newest of the payments that count: a picked one has fewer
      than n newer ones, and one with at most n as new as itself is picked. */
  lemma PicksByAge(picked: seq<nat>, payments: seq<Payment>, n: nat, p: nat)
    requires PicksNewest(picked, payments, n) && p < |payments|
    ensures p in picked ==> payments[p].orphanedAt == None && |Newer(payments, p)| < n
    ensures payments[p].orphanedAt == None && |AsNew(payments, p)| <= n ==> p in picked
  {
    DistinctRows(picked);
    if p in picked {
      var k :| 0 <= k < |picked| && picked[k] == p;
      SubsetSize(Newer(payments, p), Rows(picked) - {p});
    } else if payments[p].orphanedAt == None {
      assert Live(payments[p]);
      SubsetSize(Rows(picked) + {p}, AsNew(payments, p));
    }
  }

  /** Every receipt up to number j was answered. */
  predicate AnsweredUpTo(answers: seq<Answer>, j: nat) {
    j < |answers| && forall i :: 0 <= i <= j ==> answers[i] != RpcDown
  }

  /** A pass looks at a payment exactly if no receipt up to its own failed. */
  lemma LooksAtAnswered(answers: seq<Answer>, n: nat, j: nat)
    requires j < n
    ensures j < Answered(answers, n) <==> AnsweredUpTo(answers, j)
    ensures AnsweredUpTo(answers, j) ==> j < |answers| && AnswerAt(answers, j) == answers[j]
  {
    var k := Answered(answers, n);
    if j < k {
      assert AnswerAt(answers, j) != RpcDown;
      forall i | 0 <= i <= j
        ensures i < |answers| && answers[i] != RpcDown
      {
        assert AnswerAt(answers, i) != RpcDown;
      }
    } else {
      assert AnswerAt(answers, k) == RpcDown;
      if k < |answers| {
        assert answers[k] == RpcDown;
      }
    }
  }

  /** A committed pass orphans a payment, now, exactly if it is picked, every receipt
      up to its own was answered, its own is missing or shows another block hash than
      the event, and its block is within the reorg window. */
  lemma OrphansExactly(db: Db, confirmed: seq<nat>, picked: seq<nat>, answers: seq<Answer>, latest: int, p: nat)
    requires Inv(db) && ListsStatus(confirmed, db.invoices, Confirmed)
    requires PicksNewest(picked, db.payments, db.cfg.crosscheckBatch)
    requires Reconcile(db, confirmed, picked, answers, Some(latest)).Ok? && p < |db.payments|
    ensures db.payments[p].event < |db.events|
    ensures var after := Reconcile(db, confirmed, picked, answers, Some(latest)).value;
            var lost := exists j :: 0 <= j < |picked| && picked[j] == p && AnsweredUpTo(answers, j)
                                    && answers[j] != Receipt(db.events[db.payments[p].event].log.blockHash)
                                    && db.payments[p].block > latest - db.cfg.reorgSafetyDepth;
            && |after.payments| == |db.payments|
            && after.payments[p] == if lost then db.payments[p].(orphanedAt := Some(db.now)) else db.payments[p]
  {
    hide Inv, WouldCollide, CondemnedInvoice, CondemnedEvent, Reconcile, Rescue, AnsweredUpTo;
    PaymentFacts(db, p);
    ReconcileSteps(db, confirmed, picked, answers, Some(latest));
    forall j | 0 <= j < |picked|
      ensures j < Answered(answers, |picked|) <==> AnsweredUpTo(answers, j)
      ensures AnsweredUpTo(answers, j) ==> j < |answers| && AnswerAt(answers, j) == answers[j]
    {
      LooksAtAnswered(answers, |picked|, j);
    }
  }
}
