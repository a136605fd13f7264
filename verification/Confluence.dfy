/** The processor's query has no ORDER BY. Whatever order it answers in, the same
    invoices are credited with the same amounts. */
module Confluence {
  import opened Basics
  import opened Model
  import opened Steps
  import opened Invariant
  import opened LedgerSteps
  import MoneySteps

  ghost function PendingRows(events: seq<ChainEvent>): set<nat> {
    set e | 0 <= e < |events| && events[e].status == EventPending :: e
  }

  /** The answer to "pending events, at most limit of them", in some order. */
  ghost predicate PicksPending(order: seq<nat>, events: seq<ChainEvent>, limit: nat) {
    && Distinct(order) && Below(order, |events|)
    && (forall k :: 0 <= k < |order| ==> events[order[k]].status == EventPending)
    && |order| == Min(limit, |PendingRows(events)|)
  }

  /** One of the first k events pays invoice i. */
  ghost predicate PaidBy(db: Db, order: seq<nat>, k: nat, i: nat) {
    exists j :: 0 <= j < k && j < |order| && order[j] < |db.events| && i < |db.invoices|
                && Matches(db.invoices[i], db.events[order[j]])
  }

  ghost function CreditedRows(db: Db, order: seq<nat>, k: nat): set<nat> {
    set i | 0 <= i < |db.invoices| && PaidBy(db, order, k, i) :: i
  }

  /** The row of a credited invoice, but for the block of the event that did it. */
  function PaidRow(inv: Invoice, block: Option<int>): Invoice {
    inv.(status := Confirming, paid := inv.amount, detectedBlock := block)
  }

  /** State `after` is `db` with the first k events of the order applied. */
  ghost predicate Applied(db: Db, after: Db, order: seq<nat>, k: nat) {
    && k <= |order|
    && after == db.(invoices := after.invoices, events := after.events, payments := after.payments)
    && |after.invoices| == |db.invoices| && |after.events| == |db.events|
    && (forall e :: 0 <= e < |db.events| ==>
          if e in order[..k] then
            && after.events[e] == db.events[e].(status := after.events[e].status)
            && after.events[e].status in {EventProcessed, EventSkipped}
          else after.events[e] == db.events[e])
    && (forall i :: 0 <= i < |db.invoices| ==>
          after.invoices[i] == if PaidBy(db, order, k, i)
                               then PaidRow(db.invoices[i], after.invoices[i].detectedBlock) else db.invoices[i])
  }

  lemma PaidByGrows(db: Db, order: seq<nat>, k: nat, i: nat)
    requires k < |order| && Below(order, |db.events|) && i < |db.invoices|
    ensures PaidBy(db, order, k + 1, i) <==> PaidBy(db, order, k, i) || Matches(db.invoices[i], db.events[order[k]])
  {
    if Matches(db.invoices[i], db.events[order[k]]) {
      assert PaidBy(db, order, k + 1, i);
    }
  }

  /** The event finds nobody left to pay. */
  lemma NextIsSkipped(db: Db, at: Db, after: Db, order: seq<nat>, k: nat)
    requires Below(order, |db.events|) && Distinct(order) && k < |order|
    requires Applied(db, at, order, k) && at.events[order[k]] == db.events[order[k]]
    requires FindMatch(at.invoices, at.events[order[k]]).None?
    requires after == SetEventStatus(at, order[k], EventSkipped)
    ensures Applied(db, after, order, k + 1) && CreditedRows(db, order, k + 1) == CreditedRows(db, order, k)
  {
    assert order[..k + 1] == order[..k] + [order[k]];
    FindMatchIsLowest(at.invoices, at.events[order[k]], 0);
    forall i | 0 <= i < |db.invoices|
      ensures PaidBy(db, order, k + 1, i) <==> PaidBy(db, order, k, i)
    {
      PaidByGrows(db, order, k, i);
    }
  }

  /** The event pays invoice i, which no earlier event paid. */
  lemma NextIsCredited(db: Db, at: Db, after: Db, order: seq<nat>, k: nat, i: nat)
    requires InvoicesOk(db.cfg, db.invoices) && OpenDistinct(db.invoices)
    requires Below(order, |db.events|) && Distinct(order) && k < |order|
    requires Applied(db, at, order, k) && at.events[order[k]] == db.events[order[k]]
    requires i < |at.invoices| && Matches(at.invoices[i], at.events[order[k]])
    requires after == SetEventStatus(SetInvoice(at, i,
                                                MoneySteps.CreditedInvoice(at.invoices[i], at.events[order[k]].log)),
                                     order[k], EventProcessed).(payments := after.payments)
    ensures Applied(db, after, order, k + 1)
    ensures CreditedRows(db, order, k + 1) == CreditedRows(db, order, k) + {i}
    ensures i !in CreditedRows(db, order, k)
  {
    assert order[..k + 1] == order[..k] + [order[k]];
    assert at.invoices[i] == db.invoices[i];
    assert InvoiceOk(db.cfg, i, db.invoices[i]);
    MoneySteps.MatchIsUnique(db.invoices, db.events[order[k]], i);
    forall x | 0 <= x < |db.invoices|
      ensures PaidBy(db, order, k + 1, x) <==> PaidBy(db, order, k, x) || x == i
    {
      PaidByGrows(db, order, k, x);
    }
  }

  lemma UniqueTarget(db: Db, order: seq<nat>, k: nat, at: Db)
    requires Applied(db, at, order, k) && k < |order| && Distinct(order) && Below(order, |db.events|)
    ensures order[k] < |at.events| && at.events[order[k]] == db.events[order[k]]
  {
    assert order[k] !in order[..k];
  }

  lemma NothingApplied(db: Db, order: seq<nat>)
    ensures Applied(db, db, order, 0) && CreditedRows(db, order, 0) == {}
  {
  }

  lemma OpenParts(db: Db)
    requires Inv(db)
    ensures InvoicesOk(db.cfg, db.invoices) && OpenDistinct(db.invoices)
  {
  }

  lemma OneMoreEvent(db: Db, done: Batch, order: seq<nat>, k: nat)
    requires Inv(db) && Distinct(order) && Below(order, |db.events|) && k < |order|
    requires db.events[order[k]].status == EventPending
    requires Inv(done.db) && Applied(db, done.db, order, k) && done.credited == |CreditedRows(db, order, k)|
    requires order[k] < |done.db.events|
    ensures var next := ProcessAndCommit(done.db, order[k]);
            && next.Ok? && Inv(next.value.db) && Applied(db, next.value.db, order, k + 1)
            && Tally(done, next.value).credited == |CreditedRows(db, order, k + 1)|
            && Tally(done, next.value).credited + Tally(done, next.value).skipped == done.credited + done.skipped + 1
  {
    hide MoneyInv, HookInv, Applied;
    var at := done.db;
    UniqueTarget(db, order, k, at);
    ProcessKeeps(at, order[k]);
    FindMatchIsLowest(at.invoices, at.events[order[k]], 0);
    var next := ProcessEvent(at, order[k]).value;
    match FindMatch(at.invoices, at.events[order[k]])
    case None =>
      NextIsSkipped(db, at, next.db, order, k);
    case Some(i) =>
      OpenParts(db);
      NextIsCredited(db, at, next.db, order, k, i);
  }

  /** After the first k events, in any order: exactly the open invoices that one
      of them pays are credited, in full and once each. */
  lemma {:induction false} RunPendingExact(db: Db, order: seq<nat>, k: nat)
    requires Inv(db) && Distinct(order) && Below(order, |db.events|) && k <= |order|
    requires forall j :: 0 <= j < |order| ==> db.events[order[j]].status == EventPending
    ensures var r := RunPending(db, order, k);
            && r.Ok? && Inv(r.value.db) && Applied(db, r.value.db, order, k)
            && r.value.credited == |CreditedRows(db, order, k)|
            && r.value.credited + r.value.skipped == k
  {
    hide Inv, Applied, CreditedRows;
    if k == 0 {
      NothingApplied(db, order);
    } else {
      RunPendingExact(db, order, k - 1);
      OneMoreEvent(db, RunPending(db, order, k - 1).value, order, k - 1);
    }
  }

  // ---------------------------------------------------------- confluence

  lemma SubsetOfSameSize(a: set<nat>, b: set<nat>)
    requires a <= b && |a| == |b|
    ensures a == b
  {
    if exists x :: x in b && x !in a {
      var x :| x in b && x !in a;
      SubsetSize(a, b - {x});
    }
  }

  /** A query that is not cut off by its limit answers with all pending rows. */
  lemma UncutQueryListsAll(order: seq<nat>, events: seq<ChainEvent>, limit: nat)
    requires PicksPending(order, events, limit) && |PendingRows(events)| <= limit
    ensures Rows(order) == PendingRows(events) && |order| == |PendingRows(events)|
  {
    DistinctRows(order);
    SubsetOfSameSize(Rows(order), PendingRows(events));
  }

  lemma SameRowsSamePayers(db: Db, a: seq<nat>, b: seq<nat>, i: nat)
    requires Rows(a) == Rows(b)
    ensures PaidBy(db, a, |a|, i) ==> PaidBy(db, b, |b|, i)
  {
    if PaidBy(db, a, |a|, i) {
      var j :| 0 <= j < |a| && a[j] < |db.events| && i < |db.invoices| && Matches(db.invoices[i], db.events[a[j]]);
      assert a[j] in Rows(b);
      var m :| 0 <= m < |b| && b[m] == a[j];
      assert Matches(db.invoices[i], db.events[b[m]]);
    }
  }

  /** Two orders of the same answer give the same invoices the same status and
      the same paid amount, and credit and skip the same number of events. */
  lemma Confluent(db: Db, a: seq<nat>, b: seq<nat>, limit: nat)
    requires Inv(db) && |PendingRows(db.events)| <= limit
    requires PicksPending(a, db.events, limit) && PicksPending(b, db.events, limit)
    ensures var x, y := RunPending(db, a, |a|), RunPending(db, b, |b|);
            && x.Ok? && y.Ok?
            && x.value.credited == y.value.credited && x.value.skipped == y.value.skipped
            && |x.value.db.invoices| == |y.value.db.invoices| == |db.invoices|
            && forall i :: 0 <= i < |db.invoices| ==>
                 && x.value.db.invoices[i].status == y.value.db.invoices[i].status
                 && x.value.db.invoices[i].paid == y.value.db.invoices[i].paid
  {
    hide Inv;
    UncutQueryListsAll(a, db.events, limit);
    UncutQueryListsAll(b, db.events, limit);
    RunPendingExact(db, a, |a|);
    RunPendingExact(db, b, |b|);
    forall i
      ensures PaidBy(db, a, |a|, i) <==> PaidBy(db, b, |b|, i)
    {
      SameRowsSamePayers(db, a, b, i);
      SameRowsSamePayers(db, b, a, i);
    }
    assert CreditedRows(db, a, |a|) == CreditedRows(db, b, |b|);
  }

  lemma NoLongerPending(db: Db, after: Db, order: seq<nat>)
    requires Applied(db, after, order, |order|)
    ensures PendingRows(after.events) == PendingRows(db.events) - Rows(order)
  {
    assert order[..|order|] == order;
    forall e | 0 <= e < |db.events|
      ensures after.events[e].status == EventPending <==> db.events[e].status == EventPending && e !in Rows(order)
    {
      assert e in order <==> e in Rows(order);
    }
  }

  /** A pass leaves exactly min(limit, n) fewer events pending. */
  lemma PendingFalls(db: Db, order: seq<nat>, limit: nat)
    requires Inv(db) && PicksPending(order, db.events, limit)
    ensures var r := RunPending(db, order, |order|);
            && r.Ok?
            && |PendingRows(r.value.db.events)| == |PendingRows(db.events)| - Min(limit, |PendingRows(db.events)|)
  {
    hide Inv, Applied, RunPending, CreditedRows;
    RunPendingExact(db, order, |order|);
    NoLongerPending(db, RunPending(db, order, |order|).value.db, order);
    DistinctRows(order);
    assert Rows(order) <= PendingRows(db.events);
  }

  // ----------------------------------------- which event gets the credit

  ghost predicate PaysSomebody(db: Db, e: nat) {
    e < |db.events| && exists i :: 0 <= i < |db.invoices| && Matches(db.invoices[i], db.events[e])
  }

  ghost predicate ProcessedFor(db: Db, after: Db, order: seq<nat>, k: nat, i: nat) {
    exists j :: 0 <= j < k && j < |order| && order[j] < |db.events| && order[j] < |after.events| && i < |db.invoices|
                && Matches(db.invoices[i], db.events[order[j]])
                && after.events[order[j]].status == EventProcessed
  }

  /** Processed events are among those that pay somebody, and each invoice that
      is paid is paid by one of them. */
  ghost predicate Attributed(db: Db, after: Db, order: seq<nat>, k: nat) {
    && |after.events| == |db.events|
    && (forall j :: 0 <= j < k && j < |order| && order[j] < |db.events|
                    && after.events[order[j]].status == EventProcessed ==>
          PaysSomebody(db, order[j]))
    && (forall i :: 0 <= i < |db.invoices| && PaidBy(db, order, k, i) ==> ProcessedFor(db, after, order, k, i))
  }

  lemma AttributedGrows(db: Db, at: Db, after: Db, order: seq<nat>, k: nat)
    requires k < |order| && Distinct(order) && Below(order, |db.events|)
    requires Attributed(db, at, order, k)
    requires |after.events| == |at.events| && forall e :: 0 <= e < |at.events| && e != order[k] ==>
              after.events[e] == at.events[e]
    requires after.events[order[k]].status == EventProcessed ==> PaysSomebody(db, order[k])
    requires forall i :: 0 <= i < |db.invoices| && Matches(db.invoices[i], db.events[order[k]]) ==>
               PaidBy(db, order, k, i) || after.events[order[k]].status == EventProcessed
    ensures Attributed(db, after, order, k + 1)
  {
    var n := k + 1;
    forall i | 0 <= i < |db.invoices| && PaidBy(db, order, n, i)
      ensures ProcessedFor(db, after, order, n, i)
    {
      PaidByGrows(db, order, k, i);
      if PaidBy(db, order, k, i) {
        var j :| 0 <= j < k && j < |order| && order[j] < |db.events| && order[j] < |at.events|
                 && Matches(db.invoices[i], db.events[order[j]]) && at.events[order[j]].status == EventProcessed;
        assert after.events[order[j]] == at.events[order[j]];
      } else {
        assert after.events[order[k]].status == EventProcessed;
      }
    }
  }

  lemma NothingAttributed(db: Db, order: seq<nat>)
    ensures Attributed(db, db, order, 0)
  {
  }

  lemma OneMoreAttributed(db: Db, at: Db, order: seq<nat>, k: nat)
    requires Inv(db) && Distinct(order) && Below(order, |db.events|) && k < |order|
    requires db.events[order[k]].status == EventPending
    requires Inv(at) && Applied(db, at, order, k) && Attributed(db, at, order, k) && order[k] < |at.events|
    ensures var next := ProcessAndCommit(at, order[k]);
            next.Ok? && Attributed(db, next.value.db, order, k + 1)
  {
    hide MoneyInv, HookInv, Attributed;
    var e := order[k];
    UniqueTarget(db, order, k, at);
    ProcessKeeps(at, e);
    FindMatchIsLowest(at.invoices, at.events[e], 0);
    forall i | 0 <= i < |db.invoices| && Matches(db.invoices[i], db.events[e]) && !PaidBy(db, order, k, i)
      ensures Matches(at.invoices[i], at.events[e])
    {
      assert at.invoices[i] == db.invoices[i];
    }
    var found := FindMatch(at.invoices, at.events[e]);
    if found.Some? {
      assert Matches(db.invoices[found.value], db.events[e]);
    }
    AttributedGrows(db, at, ProcessEvent(at, e).value.db, order, k);
  }

  lemma {:induction false} RunPendingAttributes(db: Db, order: seq<nat>, k: nat)
    requires Inv(db) && Distinct(order) && Below(order, |db.events|) && k <= |order|
    requires forall j :: 0 <= j < |order| ==> db.events[order[j]].status == EventPending
    ensures RunPending(db, order, k).Ok? && Attributed(db, RunPending(db, order, k).value.db, order, k)
  {
    hide MoneyInv, HookInv, Attributed, Applied;
    if k == 0 {
      NothingAttributed(db, order);
    } else {
      RunPendingAttributes(db, order, k - 1);
      RunPendingExact(db, order, k - 1);
      RunPendingExact(db, order, k);
      OneMoreAttributed(db, RunPending(db, order, k - 1).value.db, order, k - 1);
    }
  }

  /** Two transfers that pay the same invoices. */
  predicate PayAlike(a: Transfer, b: Transfer) {
    a.toAddress == b.toAddress && a.amount == b.amount
  }

  lemma AloneIsSettled(db: Db, after: Db, order: seq<nat>, e: nat)
    requires Applied(db, after, order, |order|) && Attributed(db, after, order, |order|)
    requires Rows(order) == PendingRows(db.events) && e in PendingRows(db.events)
    requires forall f :: f in PendingRows(db.events) && f != e ==>
               !PayAlike(db.events[f].log, db.events[e].log)
    ensures after.events[e] ==
            db.events[e].(status := if PaysSomebody(db, e) then EventProcessed else EventSkipped)
  {
    assert e in Rows(order);
    var k :| 0 <= k < |order| && order[k] == e;
    assert order[..|order|] == order;
    if PaysSomebody(db, e) {
      var i :| 0 <= i < |db.invoices| && Matches(db.invoices[i], db.events[e]);
      assert PaidBy(db, order, |order|, i);
      var j :| 0 <= j < |order| && order[j] < |db.events| && Matches(db.invoices[i], db.events[order[j]])
               && after.events[order[j]].status == EventProcessed;
      assert order[j] in PendingRows(db.events);
    }
  }

  lemma SettledAlike(db: Db, order: seq<nat>, limit: nat, e: nat)
    requires Inv(db) && |PendingRows(db.events)| <= limit && PicksPending(order, db.events, limit)
    requires e in PendingRows(db.events)
    requires forall f :: f in PendingRows(db.events) && f != e ==>
               !PayAlike(db.events[f].log, db.events[e].log)
    ensures var r := RunPending(db, order, |order|);
            && r.Ok? && |r.value.db.events| == |db.events|
            && r.value.db.events[e] ==
               db.events[e].(status := if PaysSomebody(db, e) then EventProcessed else EventSkipped)
  {
    hide Inv, Applied, Attributed, CreditedRows;
    UncutQueryListsAll(order, db.events, limit);
    RunPendingExact(db, order, |order|);
    RunPendingAttributes(db, order, |order|);
    AloneIsSettled(db, RunPending(db, order, |order|).value.db, order, e);
  }

  /** The order decides nothing but which of several events with the same address
      and amount is the processed one: an event without such a twin ends with the
      same status in every order. */
  lemma OnlyTwinsDiffer(db: Db, a: seq<nat>, b: seq<nat>, limit: nat, e: nat)
    requires Inv(db) && |PendingRows(db.events)| <= limit
    requires PicksPending(a, db.events, limit) && PicksPending(b, db.events, limit)
    requires e in PendingRows(db.events)
    requires forall f :: f in PendingRows(db.events) && f != e ==>
               !PayAlike(db.events[f].log, db.events[e].log)
    ensures var x, y := RunPending(db, a, |a|), RunPending(db, b, |b|);
            && x.Ok? && y.Ok? && |x.value.db.events| == |y.value.db.events| == |db.events|
            && x.value.db.events[e] == y.value.db.events[e]
  {
    hide Inv;
    SettledAlike(db, a, limit, e);
    SettledAlike(db, b, limit, e);
  }
}
