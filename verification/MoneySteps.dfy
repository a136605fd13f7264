/** Every single change to the money tables keeps their invariant. */
module MoneySteps {
  import opened Basics
  import opened Model
  import opened Steps
  import opened Invariant

  /** Open invoices have distinct keys, so the first match is the only one. */
  lemma MatchIsUnique(invoices: seq<Invoice>, ev: ChainEvent, i: nat)
    requires OpenDistinct(invoices)
    requires i < |invoices| && Matches(invoices[i], ev)
    ensures FindMatch(invoices, ev) == Some(i)
    ensures forall j :: 0 <= j < |invoices| && Matches(invoices[j], ev) ==> j == i
  {
    FindMatchIsLowest(invoices, ev, 0);
  }

  lemma AddInvoice(cfg: Settings, now: int, invoices: seq<Invoice>, events: seq<ChainEvent>, payments: seq<Payment>,
                   inv: Invoice)
    requires MoneyInv(cfg, now, invoices, events, payments)
    requires InvoiceOk(cfg, |invoices|, inv) && IsOpen(inv)
    requires OpenKeyFree(invoices, inv.address, inv.amount)
    requires inv.idempotencyKey.Some? && inv.idempotencyKey.value != "" ==>
               forall i :: 0 <= i < |invoices| ==> !HasKey(invoices[i], inv.merchant, inv.idempotencyKey.value)
    ensures MoneyInv(cfg, now, invoices + [inv], events, payments)
  {
    var after := invoices + [inv];
    forall i | 0 <= i < |after| && after[i].status in {Confirming, Confirmed}
      ensures HasLivePayment(payments, i)
    {
      assert i < |invoices| && after[i] == invoices[i];
    }
    forall a, b | 0 <= a < b < |after| && after[a].merchant == after[b].merchant
                  && after[a].idempotencyKey == after[b].idempotencyKey
      ensures after[a].idempotencyKey.None? || after[a].idempotencyKey.value == ""
    {
      if b == |invoices| && after[a].idempotencyKey.Some? {
        assert HasKey(invoices[a], inv.merchant, after[a].idempotencyKey.value);
      }
    }
  }

  lemma CanonicalIsCanonical(t: Transfer)
    ensures Canonical(Canonical(t)) == Canonical(t)
  {
    LowerIdempotent(t.txHash);
    LowerIdempotent(t.contractAddress);
    LowerIdempotent(t.fromAddress);
    LowerIdempotent(t.toAddress);
    if t.blockHash.Some? {
      LowerIdempotent(t.blockHash.value);
    }
  }

  lemma AddEvent(cfg: Settings, now: int, invoices: seq<Invoice>, events: seq<ChainEvent>, payments: seq<Payment>,
                 t: Transfer)
    requires MoneyInv(cfg, now, invoices, events, payments)
    requires 0 < t.amount && !Recorded(events, t)
    ensures MoneyInv(cfg, now, invoices, events + [ChainEvent(Canonical(t), EventPending)], payments)
  {
    CanonicalIsCanonical(t);
    var after := events + [ChainEvent(Canonical(t), EventPending)];
    forall a, b | 0 <= a < b < |after|
      ensures !SameKey(after[a].log, after[b].log)
    {
      if b == |events| {
        assert after[a] == events[a];
      }
    }
    forall e | 0 <= e < |after| && after[e].status in {EventProcessed, EventOrphaned}
      ensures HasPayment(payments, e)
    {
      assert e < |events| && after[e] == events[e];
    }
  }

  lemma SkipEvent(cfg: Settings, now: int, invoices: seq<Invoice>, events: seq<ChainEvent>, payments: seq<Payment>,
                  e: nat)
    requires MoneyInv(cfg, now, invoices, events, payments)
    requires e < |events| && events[e].status == EventPending
    ensures MoneyInv(cfg, now, invoices, events[e := events[e].(status := EventSkipped)], payments)
  {
    var after := events[e := events[e].(status := EventSkipped)];
    forall p | 0 <= p < |payments|
      ensures PaymentOk(invoices, after, payments[p])
    {
      assert PaymentOk(invoices, events, payments[p]);
    }
    forall x | 0 <= x < |after| && after[x].status in {EventProcessed, EventOrphaned}
      ensures HasPayment(payments, x)
    {
      assert after[x] == events[x];
    }
  }

  /** Changing one invoice along a forward edge that leaves payments alone. */
  lemma ForwardInvoice(cfg: Settings, now: int, invoices: seq<Invoice>, events: seq<ChainEvent>, payments: seq<Payment>,
                       i: nat, inv: Invoice)
    requires MoneyInv(cfg, now, invoices, events, payments)
    requires i < |invoices| && InvoiceOk(cfg, i, inv) && !IsOpen(inv)
    requires inv == invoices[i].(status := inv.status, confirmedBlock := inv.confirmedBlock)
    requires Paid(invoices[i].status) <==> Paid(inv.status)
    requires inv.status in {Confirming, Confirmed} ==> invoices[i].status in {Confirming, Confirmed}
    ensures MoneyInv(cfg, now, invoices[i := inv], events, payments)
  {
    var after := invoices[i := inv];
    forall p | 0 <= p < |payments|
      ensures PaymentOk(after, events, payments[p])
    {
      assert PaymentOk(invoices, events, payments[p]);
    }
    forall x | 0 <= x < |after| && after[x].status in {Confirming, Confirmed}
      ensures HasLivePayment(payments, x)
    {
      assert invoices[x].status in {Confirming, Confirmed};
    }
  }

  /** The key of a pending event is not among the payments: the unique index on
      payments never objects. */
  lemma PaymentKeyIsFree(cfg: Settings, now: int, invoices: seq<Invoice>, events: seq<ChainEvent>,
                         payments: seq<Payment>, e: nat)
    requires MoneyInv(cfg, now, invoices, events, payments)
    requires e < |events| && events[e].status == EventPending
    ensures !PaymentTaken(payments, events[e].log)
    ensures forall p :: 0 <= p < |payments| ==> payments[p].event != e
  {
    forall p | 0 <= p < |payments|
      ensures payments[p].event != e
      ensures !(payments[p].txHash == events[e].log.txHash && payments[p].logIndex == events[e].log.logIndex)
    {
      var x := payments[p].event;
      assert PaymentOk(invoices, events, payments[p]);
      assert x < e ==> !SameKey(events[x].log, events[e].log);
      assert e < x ==> !SameKey(events[e].log, events[x].log);
    }
  }

  function CreditedInvoice(inv: Invoice, t: Transfer): Invoice {
    inv.(paid := inv.paid + t.amount, detectedBlock := Some(t.block), status := Confirming)
  }

  lemma CreditKeepsPayments(invoices: seq<Invoice>, events: seq<ChainEvent>, payments: seq<Payment>, e: nat, i: nat,
                            payment: Payment)
    requires PaymentsOk(invoices, events, payments) && NoDoubleCredit(payments)
    requires e < |events| && events[e].status == EventPending
    requires i < |invoices| && Matches(invoices[i], events[e])
    requires forall p :: 0 <= p < |payments| ==> payments[p].event != e
    requires payment == (var t := events[e].log; Payment(i, e, t.txHash, t.logIndex, t.block, t.amount, None,
                                                         payment.createdAt))
    ensures PaymentsOk(invoices[i := CreditedInvoice(invoices[i], events[e].log)],
                       events[e := events[e].(status := EventProcessed)], payments + [payment])
    ensures NoDoubleCredit(payments + [payment])
  {
    var invs := invoices[i := CreditedInvoice(invoices[i], events[e].log)];
    var evs := events[e := events[e].(status := EventProcessed)];
    var pays := payments + [payment];
    forall p | 0 <= p < |payments|
      ensures PaymentOk(invs, evs, pays[p]) && (Live(pays[p]) ==> pays[p].invoice != i)
    {
      assert PaymentOk(invoices, events, payments[p]);
    }
    assert PaymentOk(invs, evs, payment);
  }

  lemma NewPaymentCounts(payments: seq<Payment>, payment: Payment)
    ensures HasPayment(payments + [payment], payment.event)
    ensures Live(payment) ==> HasLivePayment(payments + [payment], payment.invoice)
  {
    assert (payments + [payment])[|payments|] == payment;
  }

  lemma LivePaymentStays(payments: seq<Payment>, payment: Payment, i: nat)
    requires HasLivePayment(payments, i)
    ensures HasLivePayment(payments + [payment], i)
  {
    var p :| 0 <= p < |payments| && payments[p].invoice == i && Live(payments[p]);
    assert (payments + [payment])[p] == payments[p];
  }

  lemma PaymentStays(payments: seq<Payment>, payment: Payment, e: nat)
    requires HasPayment(payments, e)
    ensures HasPayment(payments + [payment], e)
  {
    var p :| 0 <= p < |payments| && payments[p].event == e;
    assert (payments + [payment])[p] == payments[p];
  }

  lemma CreditKeepsExplained(invoices: seq<Invoice>, events: seq<ChainEvent>, payments: seq<Payment>, e: nat, i: nat,
                             inv: Invoice, payment: Payment)
    requires Explained(invoices, events, payments) && e < |events| && i < |invoices|
    requires payment.event == e && payment.invoice == i && Live(payment)
    ensures Explained(invoices[i := inv], events[e := events[e].(status := EventProcessed)], payments + [payment])
  {
    hide HasLivePayment, HasPayment;
    var pays := payments + [payment];
    NewPaymentCounts(payments, payment);
    forall x | 0 <= x < |invoices| && x != i && invoices[x].status in {Confirming, Confirmed}
      ensures HasLivePayment(pays, x)
    {
      LivePaymentStays(payments, payment, x);
    }
    forall x | 0 <= x < |events| && x != e && events[x].status in {EventProcessed, EventOrphaned}
      ensures HasPayment(pays, x)
    {
      PaymentStays(payments, payment, x);
    }
  }

  lemma CreditInvoice(cfg: Settings, now: int, invoices: seq<Invoice>, events: seq<ChainEvent>, payments: seq<Payment>,
                      e: nat, i: nat, payment: Payment)
    requires MoneyInv(cfg, now, invoices, events, payments)
    requires e < |events| && events[e].status == EventPending
    requires i < |invoices| && Matches(invoices[i], events[e])
    requires payment == (var t := events[e].log; Payment(i, e, t.txHash, t.logIndex, t.block, t.amount, None, now))
    ensures MoneyInv(cfg, now, invoices[i := CreditedInvoice(invoices[i], events[e].log)],
                     events[e := events[e].(status := EventProcessed)], payments + [payment])
  {
    hide Explained, PaymentsOk, NoDoubleCredit;
    PaymentKeyIsFree(cfg, now, invoices, events, payments, e);
    assert InvoiceOk(cfg, i, invoices[i]);
    CreditKeepsPayments(invoices, events, payments, e, i, payment);
    CreditKeepsExplained(invoices, events, payments, e, i, CreditedInvoice(invoices[i], events[e].log), payment);
  }

  function OrphanedInvoice(inv: Invoice, amount: int): Invoice {
    if inv.status == Settled then inv else Unpaid(inv, AwaitingPayment, amount)
  }

  lemma OrphanKeepsPayments(invoices: seq<Invoice>, events: seq<ChainEvent>, payments: seq<Payment>, p: nat,
                            inv: Invoice, at: int)
    requires PaymentsOk(invoices, events, payments) && NoDoubleCredit(payments)
    requires p < |payments| && Live(payments[p])
    requires PaymentOk(invoices, events, payments[p])
    requires inv.amount == invoices[payments[p].invoice].amount && inv.address == invoices[payments[p].invoice].address
    ensures var pays := payments[p := payments[p].(orphanedAt := Some(at))];
            && PaymentsOk(invoices[payments[p].invoice := inv],
                          events[payments[p].event := events[payments[p].event].(status := EventOrphaned)], pays)
            && NoDoubleCredit(pays)
  {
    var i, e := payments[p].invoice, payments[p].event;
    var invs := invoices[i := inv];
    var evs := events[e := events[e].(status := EventOrphaned)];
    var pays := payments[p := payments[p].(orphanedAt := Some(at))];
    forall q | 0 <= q < |pays|
      ensures PaymentOk(invs, evs, pays[q])
    {
      assert PaymentOk(invoices, events, payments[q]);
      if q != p {
        assert payments[q].event != e;
        assert Live(payments[q]) ==> payments[q].invoice != i;
      }
    }
  }

  lemma OrphanKeepsExplained(invoices: seq<Invoice>, events: seq<ChainEvent>, payments: seq<Payment>, p: nat,
                             inv: Invoice, at: int)
    requires Explained(invoices, events, payments)
    requires p < |payments| && PaymentOk(invoices, events, payments[p])
    requires inv.status !in {Confirming, Confirmed}
    ensures Explained(invoices[payments[p].invoice := inv],
                      events[payments[p].event := events[payments[p].event].(status := EventOrphaned)],
                      payments[p := payments[p].(orphanedAt := Some(at))])
  {
    var i, e := payments[p].invoice, payments[p].event;
    var pays := payments[p := payments[p].(orphanedAt := Some(at))];
    forall x | 0 <= x < |invoices| && x != i && invoices[x].status in {Confirming, Confirmed}
      ensures HasLivePayment(pays, x)
    {
      var q :| 0 <= q < |payments| && payments[q].invoice == x && Live(payments[q]);
      assert pays[q] == payments[q];
    }
    forall x | 0 <= x < |events| && (x == e || events[x].status in {EventProcessed, EventOrphaned})
      ensures HasPayment(pays, x)
    {
      if x == e {
        assert pays[p].event == e;
      } else {
        var q :| 0 <= q < |payments| && payments[q].event == x;
        assert pays[q].event == x;
      }
    }
  }

  lemma OrphanKeepsInvoices(cfg: Settings, invoices: seq<Invoice>, i: nat, amount: int)
    requires InvoicesOk(cfg, invoices) && OpenDistinct(invoices) && IdempotencyDistinct(invoices)
    requires i < |invoices| && Paid(invoices[i].status) && amount == invoices[i].amount
    requires !OpenCollision(invoices[i := OrphanedInvoice(invoices[i], amount)], i)
    ensures var invs := invoices[i := OrphanedInvoice(invoices[i], amount)];
            InvoicesOk(cfg, invs) && OpenDistinct(invs) && IdempotencyDistinct(invs)
  {
    var invs := invoices[i := OrphanedInvoice(invoices[i], amount)];
    assert InvoiceOk(cfg, i, invoices[i]);
    forall a, b | 0 <= a < b < |invs| && IsOpen(invs[a]) && IsOpen(invs[b])
      ensures !SameAmountKey(invs[a], invs[b])
    {
      if a != i && b != i {
        assert invs[a] == invoices[a] && invs[b] == invoices[b];
      }
    }
  }

  /** Orphaning a live payment: its event and, unless the invoice is settled, its
      invoice go back with it. */
  lemma OrphanPayment(cfg: Settings, now: int, invoices: seq<Invoice>, events: seq<ChainEvent>, payments: seq<Payment>,
                      p: nat, inv: Invoice)
    requires MoneyInv(cfg, now, invoices, events, payments)
    requires p < |payments| && Live(payments[p])
    requires PaymentOk(invoices, events, payments[p])
    requires inv == OrphanedInvoice(invoices[payments[p].invoice], payments[p].amount)
    requires !OpenCollision(invoices[payments[p].invoice := inv], payments[p].invoice)
    ensures MoneyInv(cfg, now, invoices[payments[p].invoice := inv],
                     events[payments[p].event := events[payments[p].event].(status := EventOrphaned)],
                     payments[p := payments[p].(orphanedAt := Some(now))])
  {
    OrphanKeepsInvoices(cfg, invoices, payments[p].invoice, payments[p].amount);
    OrphanKeepsPayments(invoices, events, payments, p, inv, now);
    OrphanKeepsExplained(invoices, events, payments, p, inv, now);
  }
}
