/** The four ledger tables, the merchants they refer to, and the settings.

    A table is a sequence of rows; the row at position r has primary key r + 1.
    Rows are only ever appended or updated, never deleted. */
module Model {
  import opened Basics

  datatype Status =
    | Created | AwaitingPayment | Detected | Confirming | Confirmed | Settled | Expired

  datatype EventStatus = EventPending | EventProcessed | EventSkipped | EventOrphaned

  datatype DeliveryStatus = DeliveryPending | DeliveryDelivered | DeliveryFailed

  datatype Kind = InvoiceConfirmed | InvoiceSettled | InvoiceExpired | InvoiceReorgged

  datatype Merchant = Merchant(webhookUrl: string, webhookSecret: string)

  datatype Invoice = Invoice(
    merchant: nat,
    idempotencyKey: Option<string>,
    requested: int,
    amount: int,
    paid: int,
    address: string,
    status: Status,
    detectedBlock: Option<int>,
    confirmedBlock: Option<int>,
    expiresAt: int)

  /** One decoded Transfer log, as posted to the ingest endpoint. */
  datatype Transfer = Transfer(
    txHash: string,
    logIndex: int,
    block: int,
    blockHash: Option<string>,
    contractAddress: string,
    fromAddress: string,
    toAddress: string,
    amount: int)

  datatype ChainEvent = ChainEvent(log: Transfer, status: EventStatus)

  datatype Payment = Payment(
    invoice: nat,
    event: nat,
    txHash: string,
    logIndex: int,
    block: int,
    amount: int,
    orphanedAt: Option<int>,
    createdAt: int)

  /** The signed webhook body. The JSON text is a function of these fields. */
  datatype Payload = Payload(
    kind: Kind,
    createdAt: int,
    invoice: nat,
    merchant: nat,
    status: Status,
    requested: int,
    amount: int,
    paid: int,
    address: string)

  /** One delivery attempt. `prev` is a history variable: the row of the failed
      attempt that this one retries (None for a first attempt). */
  datatype Delivery = Delivery(
    merchant: nat,
    invoice: nat,
    kind: Kind,
    payload: Payload,
    signature: string,
    attempt: int,
    status: DeliveryStatus,
    nextRetryAt: Option<int>,
    createdAt: int,
    deliveredAt: Option<int>,
    prev: Option<nat>)

  /** Times and delays are integers in one common unit. `sign` stands for
      HMAC-SHA256 under the merchant's secret and is left uninterpreted. */
  datatype Settings = Settings(
    hotAddress: string,
    confirmationThreshold: int,
    invoiceTtl: int,
    rescueCap: int,
    crosscheckBatch: nat,
    reorgSafetyDepth: int,
    webhookMaxAttempts: int,
    backoffBase: int,
    backoffCap: int,
    sign: (string, Payload) -> string)

  datatype Db = Db(
    cfg: Settings,
    now: int,
    merchants: seq<Merchant>,
    invoices: seq<Invoice>,
    events: seq<ChainEvent>,
    payments: seq<Payment>,
    deliveries: seq<Delivery>)

  function Empty(cfg: Settings, now: int): Db {
    Db(cfg, now, [], [], [], [], [])
  }

  /** Why a step raised instead of committing. */
  datatype Failure =
    | IllegalTransition(current: Status, target: Status)
    | NoRollbackEdge(status: Status)
    | NullBlock
    | OpenKeyTaken
    | PaymentKeyTaken

  predicate SameKey(a: Transfer, b: Transfer) {
    a.txHash == b.txHash && a.logIndex == b.logIndex
  }

  predicate IsOpen(inv: Invoice) {
    inv.status == AwaitingPayment
  }

  predicate SameAmountKey(a: Invoice, b: Invoice) {
    a.address == b.address && a.amount == b.amount
  }

  predicate Live(p: Payment) {
    p.orphanedAt.None?
  }
}
