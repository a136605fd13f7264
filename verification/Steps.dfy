/** What each ledger operation does to the tables, as functions of the state
    before it. The imperative ledger is proved against these functions and the
    invariants are proved about them. */
module Steps {
  import opened Basics
  import opened Model
  import opened StateMachine
  import Money

  // ------------------------------------------------------------ webhooks

  function BuildPayload(db: Db, i: nat, kind: Kind): Payload
    requires i < |db.invoices|
  {
    var inv := db.invoices[i];
    Payload(kind, db.now, i, inv.merchant, inv.status, inv.requested, inv.amount, inv.paid, inv.address)
  }

  function FirstAttempt(db: Db, i: nat, kind: Kind, secret: string): Delivery
    requires i < |db.invoices|
  {
    var body := BuildPayload(db, i, kind);
    Delivery(db.invoices[i].merchant, i, kind, body, db.cfg.sign(secret, body), 1,
             DeliveryPending, None, db.now, None, None)
  }

  function Enqueue(db: Db, i: nat, kind: Kind): Db
    requires i < |db.invoices|
  {
    var m := db.invoices[i].merchant;
    if m >= |db.merchants| then db
    else db.(deliveries := db.deliveries + [FirstAttempt(db, i, kind, db.merchants[m].webhookSecret)])
  }

  function SetInvoice(db: Db, i: nat, inv: Invoice): Db
    requires i < |db.invoices|
  {
    db.(invoices := db.invoices[i := inv])
  }

  // -------------------------------------------------------------- ingest

  function Canonical(t: Transfer): Transfer {
    t.(txHash := Lower(t.txHash),
       blockHash := if t.blockHash.None? || t.blockHash.value == "" then None else Some(Lower(t.blockHash.value)),
       contractAddress := Lower(t.contractAddress),
       fromAddress := Lower(t.fromAddress),
       toAddress := Lower(t.toAddress))
  }

  /** The field checks of the ingest request model. */
  predicate ValidTransfer(t: Transfer) {
    && 10 <= |t.txHash| <= 80
    && 0 <= t.logIndex
    && 0 <= t.block
    && (t.blockHash.Some? ==> |t.blockHash.value| <= 80)
    && 10 <= |t.contractAddress| <= 64
    && 10 <= |t.fromAddress| <= 64
    && 10 <= |t.toAddress| <= 64
    && 0 < t.amount
  }

  predicate ValidBatch(batch: seq<Transfer>) {
    && 1 <= |batch| <= 500
    && forall k :: 0 <= k < |batch| ==> ValidTransfer(batch[k])
  }

  predicate Recorded(events: seq<ChainEvent>, t: Transfer) {
    exists r :: 0 <= r < |events| && SameKey(events[r].log, Canonical(t))
  }

  datatype Ingested = Ingested(events: seq<ChainEvent>, accepted: nat, duplicates: nat)

  function IngestOne(sofar: Ingested, t: Transfer): Ingested {
    if Recorded(sofar.events, t) then sofar.(duplicates := sofar.duplicates + 1)
    else Ingested(sofar.events + [ChainEvent(Canonical(t), EventPending)], sofar.accepted + 1, sofar.duplicates)
  }

  function IngestAll(events: seq<ChainEvent>, batch: seq<Transfer>): Ingested {
    if batch == [] then Ingested(events, 0, 0)
    else IngestOne(IngestAll(events, batch[..|batch| - 1]), batch[|batch| - 1])
  }

  /** One POST to the ingest endpoint: a batch that fails validation stores nothing. */
  function Ingest(db: Db, batch: seq<Transfer>): Db {
    if ValidBatch(batch) then db.(events := IngestAll(db.events, batch).events) else db
  }

  // ------------------------------------------------------------- credit

  predicate Matches(inv: Invoice, ev: ChainEvent) {
    && inv.address == ev.log.toAddress
    && inv.amount == ev.log.amount
    && IsOpen(inv)
  }

  /** The lowest row at or after `from` that the event pays. */
  function FindMatch(invoices: seq<Invoice>, ev: ChainEvent, from: nat := 0): (r: Option<nat>)
    ensures r.Some? ==> from <= r.value < |invoices|
    decreases |invoices| - from
  {
    if from >= |invoices| then None
    else if Matches(invoices[from], ev) then Some(from)
    else FindMatch(invoices, ev, from + 1)
  }

  /** The query answers with the lowest matching row, and with none only if there
      is none. */
  lemma {:induction false} FindMatchIsLowest(invoices: seq<Invoice>, ev: ChainEvent, from: nat)
    ensures var r := FindMatch(invoices, ev, from);
            && (r.Some? ==> Matches(invoices[r.value], ev))
            && (forall i :: from <= i < |invoices| && Matches(invoices[i], ev) ==> r.Some? && r.value <= i)
    decreases |invoices| - from
  {
    if from < |invoices| && !Matches(invoices[from], ev) {
      FindMatchIsLowest(invoices, ev, from + 1);
    }
  }

  datatype Outcome = OutcomeCredited | OutcomeSkipped | OutcomeDuplicate

  datatype Processed = Processed(db: Db, outcome: Outcome)

  function SetEventStatus(db: Db, e: nat, status: EventStatus): Db
    requires e < |db.events|
  {
    db.(events := db.events[e := db.events[e].(status := status)])
  }

  function PaymentFor(db: Db, e: nat, i: nat): Payment
    requires e < |db.events|
  {
    var t := db.events[e].log;
    Payment(i, e, t.txHash, t.logIndex, t.block, t.amount, None, db.now)
  }

  predicate PaymentTaken(payments: seq<Payment>, t: Transfer) {
    exists p :: 0 <= p < |payments| && payments[p].txHash == t.txHash && payments[p].logIndex == t.logIndex
  }

  function Credit(db: Db, e: nat, i: nat): Result<Db, Failure>
    requires e < |db.events| && i < |db.invoices|
  {
    var t := db.events[e].log;
    var inv := db.invoices[i];
    var detected :- Transition(inv.status, Detected);
    var confirming :- Transition(detected, Confirming);
    if PaymentTaken(db.payments, t) then Err(PaymentKeyTaken)
    else
      var credited := inv.(paid := inv.paid + t.amount, detectedBlock := Some(t.block), status := confirming);
      Ok(SetEventStatus(SetInvoice(db, i, credited), e, EventProcessed)
           .(payments := db.payments + [PaymentFor(db, e, i)]))
  }

  function ProcessEvent(db: Db, e: nat): Result<Processed, Failure>
    requires e < |db.events|
  {
    var ev := db.events[e];
    if ev.status != EventPending then Ok(Processed(db, OutcomeDuplicate))
    else match FindMatch(db.invoices, ev)
      case None => Ok(Processed(SetEventStatus(db, e, EventSkipped), OutcomeSkipped))
      case Some(i) =>
        var credited :- Credit(db, e, i);
        Ok(Processed(credited, OutcomeCredited))
  }

  /** One iteration of the processor loop, with its commit: an illegal
      transition is rolled back and the event marked skipped; any other error
      escapes. */
  function ProcessAndCommit(db: Db, e: nat): Result<Processed, Failure>
    requires e < |db.events|
  {
    match ProcessEvent(db, e)
    case Ok(done) => Ok(done)
    case Err(IllegalTransition(_, _)) => Ok(Processed(SetEventStatus(db, e, EventSkipped), OutcomeSkipped))
    case Err(other) => Err(other)
  }

  datatype Batch = Batch(db: Db, credited: nat, skipped: nat)

  function Tally(done: Batch, next: Processed): Batch {
    Batch(next.db,
          done.credited + (if next.outcome == OutcomeCredited then 1 else 0),
          done.skipped + (if next.outcome == OutcomeSkipped then 1 else 0))
  }

  /** The processor pass over the first k of the selected events. */
  function RunPending(db: Db, order: seq<nat>, k: nat): (r: Result<Batch, Failure>)
    requires k <= |order| && Below(order, |db.events|)
    ensures r.Ok? ==> |r.value.db.events| == |db.events|
  {
    if k == 0 then Ok(Batch(db, 0, 0))
    else
      var done :- RunPending(db, order, k - 1);
      var next :- ProcessAndCommit(done.db, order[k - 1]);
      Ok(Tally(done, next))
  }

  // -------------------------------------------------------------- create

  datatype Created =
    | NotAuthorized
    | Replayed(row: nat)
    | BadAmount
    | ServerError
    | Conflict
    | CreatedAs(row: nat)

  /** A usable key: an empty one is stored but never looked up. */
  predicate HasKey(inv: Invoice, merchant: nat, key: string) {
    inv.merchant == merchant && inv.idempotencyKey == Some(key)
  }

  function FindByKey(invoices: seq<Invoice>, merchant: nat, key: string, from: nat := 0): (r: Option<nat>)
    ensures r.Some? ==> from <= r.value < |invoices| && HasKey(invoices[r.value], merchant, key)
    ensures r.None? ==> forall i :: from <= i < |invoices| ==> !HasKey(invoices[i], merchant, key)
    decreases |invoices| - from
  {
    if from >= |invoices| then None
    else if HasKey(invoices[from], merchant, key) then Some(from)
    else FindByKey(invoices, merchant, key, from + 1)
  }

  predicate OpenKeyFree(invoices: seq<Invoice>, address: string, amount: int) {
    forall i :: 0 <= i < |invoices| && IsOpen(invoices[i]) ==>
      !(invoices[i].address == address && invoices[i].amount == amount)
  }

  function NewInvoice(db: Db, merchant: nat, key: Option<string>, requested: int): Invoice {
    Invoice(merchant, key, requested, requested + Money.UniqueOffset(|db.invoices|), 0,
            Lower(db.cfg.hotAddress), AwaitingPayment, None, None, db.now + db.cfg.invoiceTtl)
  }

  /** A create request that is not a replay and carries this amount text. */
  function Insert(db: Db, merchant: nat, key: Option<string>, amount: string): (Db, Created) {
    match Money.ParseAmount(amount)
    case Rejected => (db, BadAmount)
    case Crash => (db, ServerError)
    case Units(requested) =>
      var inv := NewInvoice(db, merchant, key, requested);
      if requested <= 0 then (db, ServerError)
      else if !OpenKeyFree(db.invoices, inv.address, inv.amount) then (db, Conflict)
      else (db.(invoices := db.invoices + [inv]), CreatedAs(|db.invoices|))
  }

  /** `authorized` is the verdict on the caller's API key. */
  function CreateInvoice(db: Db, authorized: bool, merchant: nat, key: Option<string>, amount: string): (Db, Created) {
    if merchant >= |db.merchants| || !authorized then (db, NotAuthorized)
    else if key.Some? && key.value != "" then
      match FindByKey(db.invoices, merchant, key.value)
      case Some(row) => (db, Replayed(row))
      case None => Insert(db, merchant, key, amount)
    else Insert(db, merchant, key, amount)
  }

  // --------------------------------------------------------------- sweep

  datatype Swept = Swept(db: Db, count: nat)

  function ExpireOne(at: Swept, i: nat): (r: Result<Swept, Failure>)
    requires i < |at.db.invoices|
    ensures r.Ok? ==> |r.value.db.invoices| == |at.db.invoices|
  {
    var inv := at.db.invoices[i];
    if inv.expiresAt > at.db.now then Ok(at)
    else
      var status :- Transition(inv.status, Expired);
      Ok(Swept(Enqueue(SetInvoice(at.db, i, inv.(status := status)), i, InvoiceExpired), at.count + 1))
  }

  function Expire(db: Db, order: seq<nat>, k: nat): (r: Result<Swept, Failure>)
    requires k <= |order| && Below(order, |db.invoices|)
    ensures r.Ok? ==> |r.value.db.invoices| == |db.invoices|
  {
    if k == 0 then Ok(Swept(db, 0))
    else
      var done :- Expire(db, order, k - 1);
      ExpireOne(done, order[k - 1])
  }

  function ConfirmOne(at: Swept, i: nat, latest: int): (r: Result<Swept, Failure>)
    requires i < |at.db.invoices|
    ensures r.Ok? ==> |r.value.db.invoices| == |at.db.invoices|
  {
    var inv := at.db.invoices[i];
    var depth := latest - (if inv.detectedBlock.Some? then inv.detectedBlock.value else 0);
    if depth < at.db.cfg.confirmationThreshold then Ok(at)
    else match inv.detectedBlock
      case None => Err(NullBlock)
      case Some(block) =>
        var status :- Transition(inv.status, Confirmed);
        var confirmed := inv.(confirmedBlock := Some(block + at.db.cfg.confirmationThreshold - 1), status := status);
        Ok(Swept(Enqueue(SetInvoice(at.db, i, confirmed), i, InvoiceConfirmed), at.count + 1))
  }

  function Confirm(db: Db, order: seq<nat>, latest: int, k: nat): (r: Result<Swept, Failure>)
    requires k <= |order| && Below(order, |db.invoices|)
    ensures r.Ok? ==> |r.value.db.invoices| == |db.invoices|
  {
    if k == 0 then Ok(Swept(db, 0))
    else
      var done :- Confirm(db, order, latest, k - 1);
      ConfirmOne(done, order[k - 1], latest)
  }

  /** A whole pass: one transaction, so an error leaves the tables as they were. */
  function Sweep(db: Db, awaiting: seq<nat>, confirming: seq<nat>, latest: Option<int>): Result<Db, Failure>
    requires Below(awaiting, |db.invoices|) && Below(confirming, |db.invoices|)
  {
    var expired :- Expire(db, awaiting, |awaiting|);
    match latest
    case None => Ok(expired.db)
    case Some(block) =>
      var confirmed :- Confirm(expired.db, confirming, block, |confirming|);
      Ok(confirmed.db)
  }

  // ------------------------------------------------------------ dispatch

  /** What happened to one POST of a webhook body. `Blocked` is the private-host
      guard; `Raised` is any exception of the HTTP client. */
  datatype Http = Blocked | Raised | Responded(code: int)

  predicate Succeeded(http: Http) {
    http.Responded? && 200 <= http.code < 300
  }

  predicate IsDue(d: Delivery, now: int) {
    && d.status == DeliveryPending
    && (d.nextRetryAt.None? || d.nextRetryAt.value <= now)
  }

  function Pow2(n: nat): (p: nat)
    ensures 1 <= p
  {
    if n == 0 then 1 else 2 * Pow2(n - 1)
  }

  /** The wait after failed attempt number `attempt`. */
  function Backoff(cfg: Settings, attempt: nat): int
    requires 1 <= attempt
  {
    Min(cfg.backoffBase * Pow2(attempt - 1), cfg.backoffCap)
  }

  function Retry(cfg: Settings, d: Delivery, row: nat, now: int): Delivery
    requires 1 <= d.attempt
  {
    d.(attempt := d.attempt + 1, status := DeliveryPending, nextRetryAt := Some(now + Backoff(cfg, d.attempt)),
       createdAt := now, deliveredAt := None, prev := Some(row))
  }

  function SetDelivery(db: Db, r: nat, d: Delivery): Db
    requires r < |db.deliveries|
  {
    db.(deliveries := db.deliveries[r := d])
  }

  function Delivered(db: Db, r: nat): Result<Db, Failure>
    requires r < |db.deliveries|
  {
    var d := db.deliveries[r];
    var sent := SetDelivery(db, r, d.(status := DeliveryDelivered, deliveredAt := Some(db.now)));
    if d.kind == InvoiceConfirmed && d.invoice < |db.invoices| && db.invoices[d.invoice].status == Confirmed then
      var inv := db.invoices[d.invoice];
      var status :- Transition(inv.status, Settled);
      Ok(Enqueue(SetInvoice(sent, d.invoice, inv.(status := status)), d.invoice, InvoiceSettled))
    else Ok(sent)
  }

  /** One iteration of the dispatcher loop, with its commit. */
  function Dispatch(db: Db, r: nat, http: Http): Result<Db, Failure>
    requires r < |db.deliveries| && 1 <= db.deliveries[r].attempt
  {
    var d := db.deliveries[r];
    var failed := SetDelivery(db, r, d.(status := DeliveryFailed));
    if d.merchant >= |db.merchants| || db.merchants[d.merchant].webhookUrl == "" || http.Blocked? then Ok(failed)
    else if Succeeded(http) then Delivered(db, r)
    else if d.attempt < db.cfg.webhookMaxAttempts then
      Ok(failed.(deliveries := failed.deliveries + [Retry(db.cfg, d, r, db.now)]))
    else Ok(failed)
  }

  const DUE_LIMIT: nat := 50

  /** The due rows below n, in row order. */
  function DueBelow(deliveries: seq<Delivery>, now: int, n: nat): seq<nat>
    requires n <= |deliveries|
  {
    if n == 0 then []
    else DueBelow(deliveries, now, n - 1) + (if IsDue(deliveries[n - 1], now) then [n - 1] else [])
  }

  /** What one dispatcher tick takes on: the first fifty due rows. */
  function Selected(deliveries: seq<Delivery>, now: int): seq<nat> {
    var due := DueBelow(deliveries, now, |deliveries|);
    if |due| <= DUE_LIMIT then due else due[..DUE_LIMIT]
  }

  function HttpAt(outcomes: seq<Http>, k: nat): Http {
    if k < |outcomes| then outcomes[k] else Raised
  }

  predicate Attemptable(db: Db, rows: seq<nat>) {
    forall k :: 0 <= k < |rows| ==> rows[k] < |db.deliveries| && 1 <= db.deliveries[rows[k]].attempt
  }

  /** The dispatcher loop over the first k of the selected rows. */
  function DispatchAll(db: Db, rows: seq<nat>, outcomes: seq<Http>, k: nat): (r: Result<Db, Failure>)
    requires k <= |rows| && Attemptable(db, rows)
    ensures r.Ok? ==> Attemptable(r.value, rows)
  {
    if k == 0 then Ok(db)
    else
      var done :- DispatchAll(db, rows, outcomes, k - 1);
      Dispatch(done, rows[k - 1], HttpAt(outcomes, k - 1))
  }

  // ----------------------------------------------------------- reconcile

  predicate InFlightOrTold(deliveries: seq<Delivery>, i: nat) {
    exists r :: 0 <= r < |deliveries| && deliveries[r].invoice == i && deliveries[r].kind == InvoiceConfirmed
                && deliveries[r].status in {DeliveryPending, DeliveryDelivered}
  }

  function RescueOne(at: Swept, i: nat): (r: Swept)
    requires i < |at.db.invoices|
    ensures r.db.invoices == at.db.invoices && r.db.cfg == at.db.cfg
  {
    if at.count >= at.db.cfg.rescueCap || InFlightOrTold(at.db.deliveries, i) then at
    else Swept(Enqueue(at.db, i, InvoiceConfirmed), at.count + 1)
  }

  function Rescue(db: Db, order: seq<nat>, k: nat): (r: Swept)
    requires k <= |order| && Below(order, |db.invoices|)
    ensures r.db.invoices == db.invoices && r.db.cfg == db.cfg
  {
    if k == 0 then Swept(db, 0) else RescueOne(Rescue(db, order, k - 1), order[k - 1])
  }

  predicate OpenCollision(invoices: seq<Invoice>, i: nat)
    requires i < |invoices|
  {
    && IsOpen(invoices[i])
    && exists j :: 0 <= j < |invoices| && j != i && IsOpen(invoices[j]) && SameAmountKey(invoices[j], invoices[i])
  }

  function Orphan(db: Db, p: nat): Db
    requires p < |db.payments| && db.payments[p].event < |db.events|
  {
    SetEventStatus(db.(payments := db.payments[p := db.payments[p].(orphanedAt := Some(db.now))]),
                   db.payments[p].event, EventOrphaned)
  }

  function Unpaid(inv: Invoice, status: Status, amount: int): Invoice {
    inv.(status := status, paid := Max(0, inv.paid - amount), detectedBlock := None, confirmedBlock := None)
  }

  /** A credited payment is no longer on the chain. The flush that follows a
      rollback is where the partial unique index is checked. */
  function ApplyReorg(db: Db, p: nat): Result<Db, Failure>
    requires p < |db.payments| && db.payments[p].event < |db.events|
  {
    var payment := db.payments[p];
    if payment.orphanedAt.Some? then Ok(db)
    else
      var marked := Orphan(db, p);
      var i := payment.invoice;
      if i >= |db.invoices| || db.invoices[i].status in {AwaitingPayment, Settled} then Ok(marked)
      else
        var status :- RollBack(db.invoices[i].status);
        var back := SetInvoice(marked, i, Unpaid(db.invoices[i], status, payment.amount));
        if OpenCollision(back.invoices, i) then Err(OpenKeyTaken)
        else Ok(Enqueue(back, i, InvoiceReorgged))
  }

  /** The node's answer for one receipt: no answer, an unknown transaction, or a
      receipt with its block hash. */
  datatype Answer = RpcDown | Unknown | Receipt(blockHash: Option<string>)

  function AnswerAt(answers: seq<Answer>, k: nat): Answer {
    if k < |answers| then answers[k] else RpcDown
  }

  /** How many of n payments are looked at before the node stops answering. */
  function Answered(answers: seq<Answer>, n: nat, from: nat := 0): (k: nat)
    requires from <= n
    ensures from <= k <= n
    ensures forall j :: from <= j < k ==> AnswerAt(answers, j) != RpcDown
    ensures k < n ==> AnswerAt(answers, k) == RpcDown
    decreases n - from
  {
    if from == n || AnswerAt(answers, from) == RpcDown then from else Answered(answers, n, from + 1)
  }

  predicate ReceiptOk(answer: Answer, ev: ChainEvent) {
    answer.Receipt? && answer.blockHash == ev.log.blockHash
  }

  predicate InWindow(cfg: Settings, latest: int, p: Payment) {
    p.block > latest - cfg.reorgSafetyDepth
  }

  datatype Checked = Checked(db: Db, checked: nat, mismatched: nat, orphaned: nat)

  function CheckOne(at: Checked, p: nat, answer: Answer, latest: int): (r: Result<Checked, Failure>)
    requires p < |at.db.payments|
    ensures r.Ok? ==> |r.value.db.payments| == |at.db.payments|
  {
    var payment := at.db.payments[p];
    var seen := at.(checked := at.checked + 1);
    if payment.event >= |at.db.events| then Ok(seen)
    else
      var ev := at.db.events[payment.event];
      if ev.status == EventOrphaned || ReceiptOk(answer, ev) then Ok(seen)
      else if !InWindow(at.db.cfg, latest, payment) then Ok(seen.(mismatched := at.mismatched + 1))
      else
        var next :- ApplyReorg(at.db, p);
        Ok(Checked(next, at.checked + 1, at.mismatched + 1, at.orphaned + 1))
  }

  function Crosscheck(db: Db, picked: seq<nat>, answers: seq<Answer>, latest: int, k: nat): (r: Result<Checked,
                      Failure>)
    requires k <= |picked| && Below(picked, |db.payments|)
    ensures r.Ok? ==> |r.value.db.payments| == |db.payments|
  {
    if k == 0 then Ok(Checked(db, 0, 0, 0))
    else
      var done :- Crosscheck(db, picked, answers, latest, k - 1);
      CheckOne(done, picked[k - 1], AnswerAt(answers, k - 1), latest)
  }

  lemma {:induction false} RescueKeepsPayments(db: Db, order: seq<nat>, k: nat)
    requires k <= |order| && Below(order, |db.invoices|)
    ensures Rescue(db, order, k).db == db.(deliveries := Rescue(db, order, k).db.deliveries)
  {
    if k != 0 {
      RescueKeepsPayments(db, order, k - 1);
    }
  }

  /** One pass, one transaction: an error undoes the rescues too. */
  function Reconcile(db: Db, confirmed: seq<nat>, picked: seq<nat>, answers: seq<Answer>, latest: Option<int>)
    : Result<Db, Failure>
    requires Below(confirmed, |db.invoices|) && Below(picked, |db.payments|)
  {
    var rescued := Rescue(db, confirmed, |confirmed|).db;
    RescueKeepsPayments(db, confirmed, |confirmed|);
    match latest
    case None => Ok(rescued)
    case Some(block) =>
      var checked :- Crosscheck(rescued, picked, answers, block, Answered(answers, |picked|));
      Ok(checked.db)
  }
}
