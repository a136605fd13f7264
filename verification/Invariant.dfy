/** The two halves of the ledger invariant: what the money tables agree on, and
    what the webhook table says about each invoice. */
module Invariant {
  import opened Basics
  import opened Model
  import opened Steps

  // --------------------------------------------------------------- money

  predicate Paid(status: Status) {
    status in {Confirming, Confirmed, Settled}
  }

  predicate ConfirmedOk(cfg: Settings, inv: Invoice) {
    && inv.paid == inv.amount
    && inv.detectedBlock.Some?
    && inv.confirmedBlock == Some(inv.detectedBlock.value + cfg.confirmationThreshold - 1)
  }

  /** One committed invoice: which statuses occur, and what each says about the
      money columns. */
  predicate InvoiceOk(cfg: Settings, r: nat, inv: Invoice) {
    && 0 < inv.requested
    && inv.amount == inv.requested + r + 1
    && inv.address == Lower(cfg.hotAddress)
    && match inv.status
       case AwaitingPayment => inv.paid == 0 && inv.detectedBlock.None? && inv.confirmedBlock.None?
       case Expired => inv.paid == 0 && inv.detectedBlock.None? && inv.confirmedBlock.None?
       case Confirming => inv.paid == inv.amount && inv.detectedBlock.Some? && inv.confirmedBlock.None?
       case Confirmed => ConfirmedOk(cfg, inv)
       case Settled => ConfirmedOk(cfg, inv)
       case Created => false
       case Detected => false
  }

  ghost predicate InvoicesOk(cfg: Settings, invoices: seq<Invoice>) {
    forall r :: 0 <= r < |invoices| ==> InvoiceOk(cfg, r, invoices[r])
  }

  /** The partial unique index over open invoices. */
  ghost predicate OpenDistinct(invoices: seq<Invoice>) {
    forall a, b :: 0 <= a < b < |invoices| && IsOpen(invoices[a]) && IsOpen(invoices[b]) ==>
      !SameAmountKey(invoices[a], invoices[b])
  }

  /** At most one invoice per merchant and non-empty idempotency key. */
  ghost predicate IdempotencyDistinct(invoices: seq<Invoice>) {
    forall a, b :: 0 <= a < b < |invoices| && invoices[a].merchant == invoices[b].merchant
                   && invoices[a].idempotencyKey == invoices[b].idempotencyKey ==>
      invoices[a].idempotencyKey.None? || invoices[a].idempotencyKey.value == ""
  }

  /** A stored event is in canonical form and carries a positive amount. */
  predicate EventOk(t: Transfer) {
    t == Canonical(t) && 0 < t.amount
  }

  ghost predicate EventsOk(events: seq<ChainEvent>) {
    && (forall a, b :: 0 <= a < b < |events| ==> !SameKey(events[a].log, events[b].log))
    && (forall r :: 0 <= r < |events| ==> EventOk(events[r].log))
  }

  /** A payment repeats its event and names an invoice of that amount; it is
      orphaned exactly when the event is. A live one explains its invoice. */
  predicate PaymentOk(invoices: seq<Invoice>, events: seq<ChainEvent>, p: Payment) {
    && p.event < |events|
    && p.invoice < |invoices|
    && var ev := events[p.event];
       var inv := invoices[p.invoice];
       && p.txHash == ev.log.txHash && p.logIndex == ev.log.logIndex
       && p.block == ev.log.block && p.amount == ev.log.amount == inv.amount
       && ev.log.toAddress == inv.address
       && ev.status == (if Live(p) then EventProcessed else EventOrphaned)
       && (Live(p) ==> Paid(inv.status) && inv.detectedBlock == Some(p.block))
  }

  ghost predicate PaymentsOk(invoices: seq<Invoice>, events: seq<ChainEvent>, payments: seq<Payment>) {
    forall p :: 0 <= p < |payments| ==> PaymentOk(invoices, events, payments[p])
  }

  /** No event pays twice, and no invoice has two live payments. */
  ghost predicate NoDoubleCredit(payments: seq<Payment>) {
    forall a, b :: 0 <= a < b < |payments| ==>
      && payments[a].event != payments[b].event
      && (Live(payments[a]) && Live(payments[b]) ==> payments[a].invoice != payments[b].invoice)
  }

  ghost predicate HasLivePayment(payments: seq<Payment>, i: nat) {
    exists p :: 0 <= p < |payments| && payments[p].invoice == i && Live(payments[p])
  }

  ghost predicate HasPayment(payments: seq<Payment>, e: nat) {
    exists p :: 0 <= p < |payments| && payments[p].event == e
  }

  /** What must have a payment has one: invoices being confirmed, and events that
      were applied. */
  ghost predicate Explained(invoices: seq<Invoice>, events: seq<ChainEvent>, payments: seq<Payment>) {
    && (forall i :: 0 <= i < |invoices| && invoices[i].status in {Confirming, Confirmed} ==>
              HasLivePayment(payments, i))
    && (forall e :: 0 <= e < |events| && events[e].status in {EventProcessed, EventOrphaned} ==>
              HasPayment(payments, e))
  }

  /** Creation times follow row order, and none lies in the future. */
  ghost predicate Chronological(now: int, payments: seq<Payment>) {
    && (forall a, b :: 0 <= a < b < |payments| ==> payments[a].createdAt <= payments[b].createdAt)
    && (forall p :: 0 <= p < |payments| ==> payments[p].createdAt <= now)
  }

  ghost predicate MoneyInv(cfg: Settings, now: int, invoices: seq<Invoice>, events: seq<ChainEvent>,
                           payments: seq<Payment>) {
    && InvoicesOk(cfg, invoices)
    && OpenDistinct(invoices)
    && IdempotencyDistinct(invoices)
    && EventsOk(events)
    && PaymentsOk(invoices, events, payments)
    && NoDoubleCredit(payments)
    && Explained(invoices, events, payments)
    && Chronological(now, payments)
  }

  // ------------------------------------------------------------ webhooks

  /** The life of an invoice as its webhooks tell it. */
  datatype Told = Unconfirmed | ToldConfirmed | ToldExpired | ToldSettled

  function NextTold(told: Told, kind: Kind): Option<Told> {
    match (told, kind)
    case (Unconfirmed, InvoiceReorgged) => Some(Unconfirmed)
    case (Unconfirmed, InvoiceConfirmed) => Some(ToldConfirmed)
    case (Unconfirmed, InvoiceExpired) => Some(ToldExpired)
    case (ToldConfirmed, InvoiceConfirmed) => Some(ToldConfirmed)
    case (ToldConfirmed, InvoiceReorgged) => Some(Unconfirmed)
    case (ToldConfirmed, InvoiceSettled) => Some(ToldSettled)
    case _ => None
  }

  function Run(kinds: seq<Kind>): Option<Told> {
    if kinds == [] then Some(Unconfirmed)
    else match Run(kinds[..|kinds| - 1])
      case None => None
      case Some(told) => NextTold(told, kinds[|kinds| - 1])
  }

  function ToldBy(status: Status): Told {
    match status
    case Confirmed => ToldConfirmed
    case Expired => ToldExpired
    case Settled => ToldSettled
    case _ => Unconfirmed
  }

  predicate IsHead(d: Delivery, i: nat) {
    d.invoice == i && d.prev.None?
  }

  /** The kinds of the first attempts for invoice i, in row order. */
  function Heads(deliveries: seq<Delivery>, i: nat): seq<Kind> {
    if deliveries == [] then []
    else
      var last := deliveries[|deliveries| - 1];
      Heads(deliveries[..|deliveries| - 1], i) + (if IsHead(last, i) then [last.kind] else [])
  }

  ghost predicate TraceOk(invoices: seq<Invoice>, deliveries: seq<Delivery>) {
    forall i :: 0 <= i < |invoices| ==> Run(Heads(deliveries, i)) == Some(ToldBy(invoices[i].status))
  }

  /** The columns of an invoice that never change. */
  predicate SameTerms(a: Invoice, b: Invoice) {
    b == a.(status := b.status, paid := b.paid, detectedBlock := b.detectedBlock, confirmedBlock := b.confirmedBlock)
  }

  /** The status that an invoice has when a message of this kind is written. */
  function Announced(kind: Kind): Status {
    match kind
    case InvoiceConfirmed => Confirmed
    case InvoiceSettled => Settled
    case InvoiceExpired => Expired
    case InvoiceReorgged => AwaitingPayment
  }

  /** A message states its invoice's terms, the status that its kind announces,
      and the amount that was credited at that time. */
  predicate PayloadOk(i: nat, inv: Invoice, kind: Kind, p: Payload) {
    && p.kind == kind && p.invoice == i && p.merchant == inv.merchant
    && p.requested == inv.requested && p.amount == inv.amount && p.address == inv.address
    && p.status == Announced(kind)
    && p.paid == if kind in {InvoiceConfirmed, InvoiceSettled} then inv.amount else 0
  }

  function MaxAttempts(cfg: Settings): int {
    Max(1, cfg.webhookMaxAttempts)
  }

  /** A retry repeats everything of the failed attempt before it but the
      attempt number and the times. */
  predicate RetryOk(cfg: Settings, deliveries: seq<Delivery>, r: nat, d: Delivery)
    requires d.prev.Some?
  {
    && d.prev.value < r < |deliveries|
    && var before := deliveries[d.prev.value];
       && before.status == DeliveryFailed
       && 1 <= before.attempt && d.attempt == before.attempt + 1
       && d.merchant == before.merchant && d.invoice == before.invoice && d.kind == before.kind
       && d.payload == before.payload && d.signature == before.signature
       && d.nextRetryAt == Some(d.createdAt + Backoff(cfg, before.attempt))
       && (before.nextRetryAt.Some? ==> before.nextRetryAt.value <= d.createdAt)
  }

  predicate DeliveryOk(cfg: Settings, merchants: seq<Merchant>, invoices: seq<Invoice>, deliveries: seq<Delivery>,
                       r: nat, d: Delivery) {
    && d.invoice < |invoices|
    && d.merchant == invoices[d.invoice].merchant < |merchants|
    && PayloadOk(d.invoice, invoices[d.invoice], d.kind, d.payload)
    && 1 <= d.attempt <= MaxAttempts(cfg)
    && d.signature == cfg.sign(merchants[d.merchant].webhookSecret, d.payload)
    && (d.prev.None? ==> d.attempt == 1 && d.nextRetryAt.None?)
    && (d.prev.Some? ==> RetryOk(cfg, deliveries, r, d))
    && (d.status == DeliveryDelivered ==>
          d.deliveredAt.Some? && (d.nextRetryAt.Some? ==> d.nextRetryAt.value <= d.deliveredAt.value))
  }

  ghost predicate DeliveriesOk(cfg: Settings, merchants: seq<Merchant>, invoices: seq<Invoice>,
                               deliveries: seq<Delivery>) {
    forall r :: 0 <= r < |deliveries| ==> DeliveryOk(cfg, merchants, invoices, deliveries, r, deliveries[r])
  }

  /** No attempt is retried twice. */
  ghost predicate ChainsLinear(deliveries: seq<Delivery>) {
    forall a, b :: 0 <= a < b < |deliveries| && deliveries[a].prev.Some? ==> deliveries[a].prev != deliveries[b].prev
  }

  predicate ConfirmationDelivered(d: Delivery, i: nat) {
    d.invoice == i && d.kind == InvoiceConfirmed && d.status == DeliveryDelivered
  }

  ghost predicate Notified(deliveries: seq<Delivery>, i: nat) {
    exists r :: 0 <= r < |deliveries| && ConfirmationDelivered(deliveries[r], i)
  }

  /** SETTLED means notified; and a notified invoice is settled unless a rollback
      came in between. */
  ghost predicate NotifiedOk(invoices: seq<Invoice>, deliveries: seq<Delivery>) {
    forall i :: 0 <= i < |invoices| ==>
      && (invoices[i].status == Settled ==> Notified(deliveries, i))
      && (Notified(deliveries, i) ==> invoices[i].status == Settled || InvoiceReorgged in Heads(deliveries, i))
  }

  ghost predicate MerchantsOk(merchants: seq<Merchant>, invoices: seq<Invoice>) {
    forall i :: 0 <= i < |invoices| ==> invoices[i].merchant < |merchants|
  }

  ghost predicate HookInv(cfg: Settings, merchants: seq<Merchant>, invoices: seq<Invoice>, deliveries: seq<Delivery>) {
    && MerchantsOk(merchants, invoices)
    && DeliveriesOk(cfg, merchants, invoices, deliveries)
    && ChainsLinear(deliveries)
    && TraceOk(invoices, deliveries)
    && NotifiedOk(invoices, deliveries)
  }

  ghost predicate Inv(db: Db) {
    && MoneyInv(db.cfg, db.now, db.invoices, db.events, db.payments)
    && HookInv(db.cfg, db.merchants, db.invoices, db.deliveries)
  }
}
