/** Every single change to the webhook table keeps its invariant. */
module HookSteps {
  import opened Basics
  import opened Model
  import opened Steps
  import opened Invariant

  // -------------------------------------------------------- reading heads

  lemma HeadsSnoc(deliveries: seq<Delivery>, d: Delivery, i: nat)
    ensures Heads(deliveries + [d], i) == if IsHead(d, i) then Heads(deliveries, i) + [d.kind] else Heads(deliveries, i)
  {
    assert (deliveries + [d])[..|deliveries|] == deliveries;
  }

  lemma RunSnoc(kinds: seq<Kind>, kind: Kind)
    ensures Run(kinds + [kind]) == match Run(kinds) case None => None case Some(told) => NextTold(told, kind)
  {
    assert (kinds + [kind])[..|kinds|] == kinds;
  }

  /** Two tables that differ only in delivery status and time. */
  ghost predicate SameHeads(a: seq<Delivery>, b: seq<Delivery>) {
    && |a| == |b|
    && forall r :: 0 <= r < |a| ==> a[r].invoice == b[r].invoice && a[r].prev == b[r].prev && a[r].kind == b[r].kind
  }

  lemma {:induction false} HeadsSame(a: seq<Delivery>, b: seq<Delivery>, i: nat)
    requires SameHeads(a, b)
    ensures Heads(a, i) == Heads(b, i)
  {
    if a != [] {
      HeadsSame(a[..|a| - 1], b[..|b| - 1], i);
    }
  }

  /** A head row's kind is among the heads. */
  lemma {:induction false} HeadIsListed(deliveries: seq<Delivery>, r: nat)
    requires r < |deliveries| && deliveries[r].prev.None?
    ensures deliveries[r].kind in Heads(deliveries, deliveries[r].invoice)
  {
    if r < |deliveries| - 1 {
      HeadIsListed(deliveries[..|deliveries| - 1], r);
    }
  }

  /** So is the kind of every retry: its chain starts at a head. */
  lemma {:induction false} KindIsListed(cfg: Settings, merchants: seq<Merchant>, invoices: seq<Invoice>,
                                        deliveries: seq<Delivery>, r: nat)
    requires DeliveriesOk(cfg, merchants, invoices, deliveries) && r < |deliveries|
    ensures deliveries[r].kind in Heads(deliveries, deliveries[r].invoice)
    decreases r
  {
    assert DeliveryOk(cfg, merchants, invoices, deliveries, r, deliveries[r]);
    match deliveries[r].prev
    case None => HeadIsListed(deliveries, r);
    case Some(q) => KindIsListed(cfg, merchants, invoices, deliveries, q);
  }

  // ----------------------------------------------------- the told automaton

  /** Without a rollback in the heads, a confirmation among them means the
      automaton is past confirmation. */
  lemma {:induction false} ConfirmedSinceNoReorg(kinds: seq<Kind>)
    requires Run(kinds).Some? && InvoiceConfirmed in kinds && InvoiceReorgged !in kinds
    ensures Run(kinds).value in {ToldConfirmed, ToldSettled}
  {
    var before, last := kinds[..|kinds| - 1], kinds[|kinds| - 1];
    assert kinds == before + [last];
    if last != InvoiceConfirmed {
      ConfirmedSinceNoReorg(before);
    }
  }

  // ----------------------------------------------------------- row checks

  lemma AppendRow(cfg: Settings, merchants: seq<Merchant>, invoices: seq<Invoice>, deliveries: seq<Delivery>,
                  d: Delivery)
    requires DeliveriesOk(cfg, merchants, invoices, deliveries) && ChainsLinear(deliveries)
    requires DeliveryOk(cfg, merchants, invoices, deliveries + [d], |deliveries|, d)
    requires d.prev.Some? ==> forall r :: 0 <= r < |deliveries| ==> deliveries[r].prev != d.prev
    ensures DeliveriesOk(cfg, merchants, invoices, deliveries + [d]) && ChainsLinear(deliveries + [d])
  {
    var after := deliveries + [d];
    forall r | 0 <= r < |after|
      ensures DeliveryOk(cfg, merchants, invoices, after, r, after[r])
    {
      if r < |deliveries| {
        assert DeliveryOk(cfg, merchants, invoices, deliveries, r, deliveries[r]);
      }
    }
  }

  /** Closing a pending attempt, as failed or as delivered. */
  lemma CloseRow(cfg: Settings, merchants: seq<Merchant>, invoices: seq<Invoice>, deliveries: seq<Delivery>, r: nat,
                 d: Delivery)
    requires DeliveriesOk(cfg, merchants, invoices, deliveries) && ChainsLinear(deliveries)
    requires r < |deliveries| && deliveries[r].status == DeliveryPending
    requires d == deliveries[r].(status := d.status, deliveredAt := d.deliveredAt)
    requires d.status == DeliveryDelivered ==>
               d.deliveredAt.Some? && (d.nextRetryAt.Some? ==> d.nextRetryAt.value <= d.deliveredAt.value)
    ensures DeliveriesOk(cfg, merchants, invoices, deliveries[r := d]) && ChainsLinear(deliveries[r := d])
    ensures SameHeads(deliveries, deliveries[r := d])
  {
    var after := deliveries[r := d];
    forall q | 0 <= q < |after|
      ensures DeliveryOk(cfg, merchants, invoices, after, q, after[q])
    {
      assert DeliveryOk(cfg, merchants, invoices, deliveries, q, deliveries[q]);
    }
    forall a, b | 0 <= a < b < |after| && after[a].prev.Some?
      ensures after[a].prev != after[b].prev
    {
      assert deliveries[a].prev != deliveries[b].prev;
    }
  }

  lemma SameRowsOk(cfg: Settings, merchants: seq<Merchant>, invoices: seq<Invoice>, after: seq<Invoice>,
                   deliveries: seq<Delivery>)
    requires DeliveriesOk(cfg, merchants, invoices, deliveries)
    requires |invoices| <= |after| && forall i :: 0 <= i < |invoices| ==> SameTerms(invoices[i], after[i])
    ensures DeliveriesOk(cfg, merchants, after, deliveries)
  {
    forall r | 0 <= r < |deliveries|
      ensures DeliveryOk(cfg, merchants, after, deliveries, r, deliveries[r])
    {
      assert DeliveryOk(cfg, merchants, invoices, deliveries, r, deliveries[r]);
    }
  }

  // ------------------------------------------------------------- the steps

  lemma AddMerchant(cfg: Settings, merchants: seq<Merchant>, invoices: seq<Invoice>, deliveries: seq<Delivery>,
                    m: Merchant)
    requires HookInv(cfg, merchants, invoices, deliveries)
    ensures HookInv(cfg, merchants + [m], invoices, deliveries)
  {
    forall r | 0 <= r < |deliveries|
      ensures DeliveryOk(cfg, merchants + [m], invoices, deliveries, r, deliveries[r])
    {
      assert DeliveryOk(cfg, merchants, invoices, deliveries, r, deliveries[r]);
    }
  }

  lemma {:induction false} NoHeadsBeyond(invoices: seq<Invoice>, deliveries: seq<Delivery>, i: nat, n: nat)
    requires n <= |deliveries| && i >= |invoices|
    requires forall r :: 0 <= r < |deliveries| ==> deliveries[r].invoice < |invoices|
    ensures Heads(deliveries[..n], i) == []
  {
    if n != 0 {
      NoHeadsBeyond(invoices, deliveries, i, n - 1);
      assert deliveries[..n][..n - 1] == deliveries[..n - 1];
    }
  }

  lemma NobodyNotified(deliveries: seq<Delivery>, i: nat)
    requires forall r :: 0 <= r < |deliveries| ==> deliveries[r].invoice < i
    ensures !Notified(deliveries, i)
  {
  }

  lemma MerchantsSnoc(merchants: seq<Merchant>, invoices: seq<Invoice>, inv: Invoice)
    requires MerchantsOk(merchants, invoices) && inv.merchant < |merchants|
    ensures MerchantsOk(merchants, invoices + [inv])
  {
  }

  lemma NewInvoiceIsUntold(cfg: Settings, merchants: seq<Merchant>, invoices: seq<Invoice>,
                           deliveries: seq<Delivery>, inv: Invoice)
    requires HookInv(cfg, merchants, invoices, deliveries)
    requires IsOpen(inv) && inv.merchant < |merchants|
    ensures HookInv(cfg, merchants, invoices + [inv], deliveries)
  {
    var after := invoices + [inv];
    SameRowsOk(cfg, merchants, invoices, after, deliveries);
    forall r | 0 <= r < |deliveries|
      ensures deliveries[r].invoice < |invoices|
    {
      assert DeliveryOk(cfg, merchants, invoices, deliveries, r, deliveries[r]);
    }
    hide MerchantsOk, DeliveriesOk, ChainsLinear, Heads, Notified;
    NoHeadsBeyond(invoices, deliveries, |invoices|, |deliveries|);
    assert deliveries[..|deliveries|] == deliveries;
    assert !Notified(deliveries, |invoices|) by {
      NobodyNotified(deliveries, |invoices|);
    }
    assert MerchantsOk(merchants, after) by {
      MerchantsSnoc(merchants, invoices, inv);
    }
  }

  /** A change of status that the webhooks do not tell apart. */
  lemma UntoldChange(cfg: Settings, merchants: seq<Merchant>, invoices: seq<Invoice>, deliveries: seq<Delivery>,
                     i: nat, inv: Invoice)
    requires HookInv(cfg, merchants, invoices, deliveries)
    requires i < |invoices| && SameTerms(invoices[i], inv)
    requires ToldBy(inv.status) == ToldBy(invoices[i].status)
    ensures HookInv(cfg, merchants, invoices[i := inv], deliveries)
  {
    SameRowsOk(cfg, merchants, invoices, invoices[i := inv], deliveries);
  }

  lemma NotifiedAfterAppend(deliveries: seq<Delivery>, d: Delivery, i: nat)
    requires d.status != DeliveryDelivered
    ensures Notified(deliveries + [d], i) <==> Notified(deliveries, i)
  {
    var after := deliveries + [d];
    if Notified(deliveries, i) {
      var r :| 0 <= r < |deliveries| && ConfirmationDelivered(deliveries[r], i);
      assert ConfirmationDelivered(after[r], i);
    }
    if Notified(after, i) {
      var r :| 0 <= r < |after| && ConfirmationDelivered(after[r], i);
      assert ConfirmationDelivered(deliveries[r], i);
    }
  }

  /** A change of status together with the first attempt that announces it. */
  lemma ToldChange(cfg: Settings, merchants: seq<Merchant>, invoices: seq<Invoice>, deliveries: seq<Delivery>,
                   i: nat, inv: Invoice, d: Delivery)
    requires HookInv(cfg, merchants, invoices, deliveries)
    requires i < |invoices| && SameTerms(invoices[i], inv)
    requires NextTold(ToldBy(invoices[i].status), d.kind) == Some(ToldBy(inv.status))
    requires inv.status == Settled ==> Notified(deliveries, i)
    requires invoices[i].status != Settled
    requires IsHead(d, i) && d.status == DeliveryPending
    requires DeliveryOk(cfg, merchants, invoices, deliveries + [d], |deliveries|, d)
    ensures HookInv(cfg, merchants, invoices[i := inv], deliveries + [d])
  {
    var invs, after := invoices[i := inv], deliveries + [d];
    AppendRow(cfg, merchants, invoices, deliveries, d);
    SameRowsOk(cfg, merchants, invoices, invs, after);
    forall x | 0 <= x < |invs|
      ensures Run(Heads(after, x)) == Some(ToldBy(invs[x].status))
      ensures invs[x].status == Settled ==> Notified(after, x)
      ensures Notified(after, x) ==> invs[x].status == Settled || InvoiceReorgged in Heads(after, x)
    {
      HeadsSnoc(deliveries, d, x);
      RunSnoc(Heads(deliveries, x), d.kind);
      NotifiedAfterAppend(deliveries, d, x);
    }
  }

  lemma NotifiedAfterClose(deliveries: seq<Delivery>, r: nat, d: Delivery, i: nat)
    requires r < |deliveries| && deliveries[r].status == DeliveryPending
    ensures Notified(deliveries[r := d], i) <==> Notified(deliveries, i) || ConfirmationDelivered(d, i)
  {
    var after := deliveries[r := d];
    if Notified(deliveries, i) {
      var q :| 0 <= q < |deliveries| && ConfirmationDelivered(deliveries[q], i);
      assert ConfirmationDelivered(after[q], i);
    }
    if ConfirmationDelivered(d, i) {
      assert ConfirmationDelivered(after[r], i);
    }
  }

  /** An attempt that is closed without settling anything. */
  lemma CloseAttempt(cfg: Settings, merchants: seq<Merchant>, invoices: seq<Invoice>, deliveries: seq<Delivery>,
                     r: nat, d: Delivery)
    requires HookInv(cfg, merchants, invoices, deliveries)
    requires r < |deliveries| && deliveries[r].status == DeliveryPending
    requires d == deliveries[r].(status := d.status, deliveredAt := d.deliveredAt)
    requires d.status == DeliveryDelivered ==>
               d.deliveredAt.Some? && (d.nextRetryAt.Some? ==> d.nextRetryAt.value <= d.deliveredAt.value)
    requires ConfirmationDelivered(d, d.invoice) && d.invoice < |invoices| ==>
               invoices[d.invoice].status == Settled || InvoiceReorgged in Heads(deliveries, d.invoice)
    ensures HookInv(cfg, merchants, invoices, deliveries[r := d])
  {
    var after := deliveries[r := d];
    CloseRow(cfg, merchants, invoices, deliveries, r, d);
    forall x | 0 <= x < |invoices|
      ensures Heads(after, x) == Heads(deliveries, x)
      ensures invoices[x].status == Settled ==> Notified(after, x)
      ensures Notified(after, x) ==> invoices[x].status == Settled || InvoiceReorgged in Heads(after, x)
    {
      HeadsSame(deliveries, after, x);
      NotifiedAfterClose(deliveries, r, d, x);
    }
  }

  lemma RetryAttempt(cfg: Settings, merchants: seq<Merchant>, invoices: seq<Invoice>, deliveries: seq<Delivery>,
                     r: nat, now: int)
    requires HookInv(cfg, merchants, invoices, deliveries)
    requires r < |deliveries| && deliveries[r].status == DeliveryFailed
    requires forall q :: 0 <= q < |deliveries| ==> deliveries[q].prev != Some(r)
    requires 1 <= deliveries[r].attempt < cfg.webhookMaxAttempts
    requires deliveries[r].nextRetryAt.Some? ==> deliveries[r].nextRetryAt.value <= now
    ensures HookInv(cfg, merchants, invoices, deliveries + [Retry(cfg, deliveries[r], r, now)])
  {
    var d := Retry(cfg, deliveries[r], r, now);
    var after := deliveries + [d];
    assert DeliveryOk(cfg, merchants, invoices, deliveries, r, deliveries[r]);
    assert DeliveryOk(cfg, merchants, invoices, after, |deliveries|, d);
    AppendRow(cfg, merchants, invoices, deliveries, d);
    forall x | 0 <= x < |invoices|
      ensures Heads(after, x) == Heads(deliveries, x)
      ensures Notified(after, x) <==> Notified(deliveries, x)
    {
      HeadsSnoc(deliveries, d, x);
      NotifiedAfterAppend(deliveries, d, x);
    }
  }

  /** A pending attempt has no retry yet. */
  lemma PendingIsLast(cfg: Settings, merchants: seq<Merchant>, invoices: seq<Invoice>, deliveries: seq<Delivery>,
                      r: nat)
    requires DeliveriesOk(cfg, merchants, invoices, deliveries)
    requires r < |deliveries| && deliveries[r].status != DeliveryFailed
    ensures forall q :: 0 <= q < |deliveries| ==> deliveries[q].prev != Some(r)
  {
    forall q | 0 <= q < |deliveries|
      ensures deliveries[q].prev != Some(r)
    {
      assert DeliveryOk(cfg, merchants, invoices, deliveries, q, deliveries[q]);
    }
  }

  /** A delivered confirmation finds its invoice confirmed, already settled, or
      rolled back at least once. */
  lemma DeliveredConfirmation(cfg: Settings, merchants: seq<Merchant>, invoices: seq<Invoice>,
                              deliveries: seq<Delivery>, r: nat)
    requires HookInv(cfg, merchants, invoices, deliveries)
    requires r < |deliveries| && deliveries[r].kind == InvoiceConfirmed
    ensures var i := deliveries[r].invoice;
            && i < |invoices|
            && (invoices[i].status in {Confirmed, Settled} || InvoiceReorgged in Heads(deliveries, i))
  {
    assert DeliveryOk(cfg, merchants, invoices, deliveries, r, deliveries[r]);
    KindIsListed(cfg, merchants, invoices, deliveries, r);
    var i := deliveries[r].invoice;
    if InvoiceReorgged !in Heads(deliveries, i) {
      ConfirmedSinceNoReorg(Heads(deliveries, i));
    }
  }

  lemma SettlingTrace(invoices: seq<Invoice>, deliveries: seq<Delivery>, r: nat, d: Delivery, inv: Invoice,
                      head: Delivery)
    requires TraceOk(invoices, deliveries) && r < |deliveries| && d.invoice < |invoices|
    requires SameHeads(deliveries, deliveries[r := d])
    requires invoices[d.invoice].status == Confirmed && inv.status == Settled
    requires IsHead(head, d.invoice) && head.kind == InvoiceSettled
    ensures TraceOk(invoices[d.invoice := inv], deliveries[r := d] + [head])
  {
    hide Heads, Run, SameHeads;
    var closed := deliveries[r := d];
    forall x | 0 <= x < |invoices|
      ensures Run(Heads(closed + [head], x)) == Some(ToldBy(invoices[d.invoice := inv][x].status))
    {
      HeadsSame(deliveries, closed, x);
      HeadsSnoc(closed, head, x);
      RunSnoc(Heads(closed, x), head.kind);
    }
  }

  lemma SettlingNotified(invoices: seq<Invoice>, deliveries: seq<Delivery>, r: nat, d: Delivery, inv: Invoice,
                         head: Delivery)
    requires NotifiedOk(invoices, deliveries) && r < |deliveries| && d.invoice < |invoices|
    requires SameHeads(deliveries, deliveries[r := d])
    requires deliveries[r].status == DeliveryPending && ConfirmationDelivered(d, d.invoice)
    requires inv.status == Settled && head.status == DeliveryPending && IsHead(head, d.invoice)
    ensures NotifiedOk(invoices[d.invoice := inv], deliveries[r := d] + [head])
  {
    var closed := deliveries[r := d];
    var invs, after := invoices[d.invoice := inv], closed + [head];
    forall x | 0 <= x < |invs|
      ensures invs[x].status == Settled ==> Notified(after, x)
      ensures Notified(after, x) ==> invs[x].status == Settled || InvoiceReorgged in Heads(after, x)
    {
      HeadsSame(deliveries, closed, x);
      HeadsSnoc(closed, head, x);
      NotifiedAfterClose(deliveries, r, d, x);
      NotifiedAfterAppend(closed, head, x);
    }
  }

  /** The delivery that settles its invoice. */
  lemma SettlingDelivery(cfg: Settings, merchants: seq<Merchant>, invoices: seq<Invoice>, deliveries: seq<Delivery>,
                         r: nat, d: Delivery, inv: Invoice, head: Delivery)
    requires HookInv(cfg, merchants, invoices, deliveries)
    requires r < |deliveries| && deliveries[r].status == DeliveryPending
    requires d == deliveries[r].(status := DeliveryDelivered, deliveredAt := d.deliveredAt)
    requires d.deliveredAt.Some? && (d.nextRetryAt.Some? ==> d.nextRetryAt.value <= d.deliveredAt.value)
    requires d.kind == InvoiceConfirmed && d.invoice < |invoices| && invoices[d.invoice].status == Confirmed
    requires inv == invoices[d.invoice].(status := Settled)
    requires IsHead(head, d.invoice) && head.status == DeliveryPending && head.kind == InvoiceSettled
    requires DeliveryOk(cfg, merchants, invoices, deliveries[r := d] + [head], |deliveries|, head)
    ensures HookInv(cfg, merchants, invoices[d.invoice := inv], deliveries[r := d] + [head])
  {
    var i := d.invoice;
    var closed := deliveries[r := d];
    CloseRow(cfg, merchants, invoices, deliveries, r, d);
    AppendRow(cfg, merchants, invoices, closed, head);
    SameRowsOk(cfg, merchants, invoices, invoices[i := inv], closed + [head]);
    SettlingTrace(invoices, deliveries, r, d, inv, head);
    SettlingNotified(invoices, deliveries, r, d, inv, head);
  }
}
