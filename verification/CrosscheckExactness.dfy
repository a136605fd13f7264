/** Exactly what one cross-check pass does, from any state that satisfies the
    invariant: which payments it orphans, which invoices it reopens, and when the
    unique index aborts it. */
module CrosscheckExactness {
  import opened Basics
  import opened Model
  import opened Steps
  import opened Invariant
  import opened LedgerSteps
  import MoneySteps

  /** The first `n` rows of "live payments, newest first". */
  ghost predicate PicksNewest(picked: seq<nat>, payments: seq<Payment>, n: nat) {
    && |picked| <= n && Distinct(picked) && Below(picked, |payments|)
    && (forall k :: 0 <= k < |picked| ==> Live(payments[picked[k]]))
    && (forall j, k :: 0 <= j < k < |picked| ==> payments[picked[k]].createdAt <= payments[picked[j]].createdAt)
    && (forall p :: 0 <= p < |payments| && Live(payments[p]) && p !in picked ==>
          && |picked| == n
          && forall k :: 0 <= k < |picked| ==> payments[p].createdAt <= payments[picked[k]].createdAt)
  }

  /** Payment p is among the first k picked, its receipt is missing or shows
      another block, and it lies inside the reorg window. */
  ghost predicate Condemned(db: Db, picked: seq<nat>, answers: seq<Answer>, latest: int, k: nat, p: nat) {
    && p < |db.payments| && db.payments[p].event < |db.events|
    && InWindow(db.cfg, latest, db.payments[p])
    && exists j :: 0 <= j < k && j < |picked| && picked[j] == p
                   && !ReceiptOk(AnswerAt(answers, j), db.events[db.payments[p].event])
  }

  ghost predicate CondemnedInvoice(db: Db, picked: seq<nat>, answers: seq<Answer>, latest: int, k: nat, i: nat) {
    exists p :: 0 <= p < |db.payments| && db.payments[p].invoice == i && Condemned(db, picked, answers, latest, k, p)
  }

  ghost predicate CondemnedEvent(db: Db, picked: seq<nat>, answers: seq<Answer>, latest: int, k: nat, e: nat) {
    exists p :: 0 <= p < |db.payments| && db.payments[p].event == e && Condemned(db, picked, answers, latest, k, p)
  }

  function ReopenedRow(inv: Invoice): Invoice {
    if inv.status == Settled then inv
    else inv.(status := AwaitingPayment, paid := 0, detectedBlock := None, confirmedBlock := None)
  }

  /** The tables `after` are `db` with exactly the condemned payments orphaned. */
  ghost predicate Reorgged(db: Db, after: Db, picked: seq<nat>, answers: seq<Answer>, latest: int, k: nat) {
    && after == db.(invoices := after.invoices, events := after.events, payments := after.payments,
                    deliveries := after.deliveries)
    && db.deliveries <= after.deliveries
    && |after.invoices| == |db.invoices| && |after.events| == |db.events| && |after.payments| == |db.payments|
    && (forall p :: 0 <= p < |db.payments| ==>
          after.payments[p] == if Condemned(db, picked, answers, latest, k, p)
                               then db.payments[p].(orphanedAt := Some(db.now)) else db.payments[p])
    && (forall e :: 0 <= e < |db.events| ==>
          after.events[e] == if CondemnedEvent(db, picked, answers, latest, k, e)
                             then db.events[e].(status := EventOrphaned) else db.events[e])
    && (forall i :: 0 <= i < |db.invoices| ==>
          after.invoices[i] == if CondemnedInvoice(db, picked, answers, latest, k, i)
                               then ReopenedRow(db.invoices[i]) else db.invoices[i])
  }

  /** Invoice i is open, or about to be. */
  ghost predicate OpenInTheEnd(db: Db, picked: seq<nat>, answers: seq<Answer>, latest: int, k: nat, i: nat) {
    && i < |db.invoices|
    && (IsOpen(db.invoices[i])
        || (db.invoices[i].status != Settled && CondemnedInvoice(db, picked, answers, latest, k, i)))
  }

  ghost predicate WouldCollide(db: Db, picked: seq<nat>, answers: seq<Answer>, latest: int, k: nat) {
    exists a, b :: 0 <= a < b < |db.invoices| && SameAmountKey(db.invoices[a], db.invoices[b])
                   && OpenInTheEnd(db, picked, answers, latest, k, a) && OpenInTheEnd(db, picked, answers, latest, k, b)
  }

  // --------------------------------------------------- one more payment

  lemma CondemnedGrows(db: Db, picked: seq<nat>, answers: seq<Answer>, latest: int, k: nat, p: nat)
    requires k < |picked| && Below(picked, |db.payments|) && Distinct(picked)
    ensures Condemned(db, picked, answers, latest, k + 1, p) <==>
            || Condemned(db, picked, answers, latest, k, p)
            || (p == picked[k] && db.payments[p].event < |db.events| && InWindow(db.cfg, latest, db.payments[p])
                && !ReceiptOk(AnswerAt(answers, k), db.events[db.payments[p].event]))
    ensures p == picked[k] ==> !Condemned(db, picked, answers, latest, k, p)
  {
  }

  /** The case in which payment picked[k] is orphaned. */
  lemma OneMoreCondemned(db: Db, before: Db, after: Db, picked: seq<nat>, answers: seq<Answer>, latest: int, k: nat)
    requires Inv(db) && PicksNewest(picked, db.payments, |picked|) && k < |picked|
    requires Reorgged(db, before, picked, answers, latest, k)
    requires Condemned(db, picked, answers, latest, k + 1, picked[k])
    requires before.payments[picked[k]] == db.payments[picked[k]]
    requires var p := picked[k];
             && before.payments[p].event < |before.events| && before.payments[p].invoice < |before.invoices|
             && after == Orphan(before, p).(invoices := before.invoices[before.payments[p].invoice :=
                                                           ReopenedRow(db.invoices[before.payments[p].invoice])],
                                            deliveries := after.deliveries)
             && before.deliveries <= after.deliveries
    ensures Reorgged(db, after, picked, answers, latest, k + 1)
  {
    hide Inv;
    var c := picked[k];
    forall p
      ensures Condemned(db, picked, answers, latest, k + 1, p) <==>
              Condemned(db, picked, answers, latest, k, p) || p == c
    {
      CondemnedGrows(db, picked, answers, latest, k, p);
    }
    forall i | 0 <= i < |db.invoices|
      ensures CondemnedInvoice(db, picked, answers, latest, k + 1, i) <==>
              CondemnedInvoice(db, picked, answers, latest, k, i) || i == db.payments[c].invoice
    {
    }
    forall e | 0 <= e < |db.events|
      ensures CondemnedEvent(db, picked, answers, latest, k + 1, e) <==>
              CondemnedEvent(db, picked, answers, latest, k, e) || e == db.payments[c].event
    {
    }
  }

  /** The case in which payment picked[k] stays. */
  lemma OneMoreSpared(db: Db, before: Db, picked: seq<nat>, answers: seq<Answer>, latest: int, k: nat)
    requires PicksNewest(picked, db.payments, |picked|) && k < |picked|
    requires Reorgged(db, before, picked, answers, latest, k)
    requires !Condemned(db, picked, answers, latest, k + 1, picked[k])
    ensures Reorgged(db, before, picked, answers, latest, k + 1)
  {
    forall p
      ensures Condemned(db, picked, answers, latest, k + 1, p) <==> Condemned(db, picked, answers, latest, k, p)
    {
      CondemnedGrows(db, picked, answers, latest, k, p);
    }
    forall i
      ensures CondemnedInvoice(db, picked, answers, latest, k + 1, i) <==>
                CondemnedInvoice(db, picked, answers, latest, k, i)
    {
    }
    forall e
      ensures CondemnedEvent(db, picked, answers, latest, k + 1, e) <==>
                CondemnedEvent(db, picked, answers, latest, k, e)
    {
    }
  }

  lemma CollisionGrows(db: Db, picked: seq<nat>, answers: seq<Answer>, latest: int, k: nat)
    requires WouldCollide(db, picked, answers, latest, k)
    ensures WouldCollide(db, picked, answers, latest, k + 1)
  {
    var a, b :| 0 <= a < b < |db.invoices| && SameAmountKey(db.invoices[a], db.invoices[b])
                && OpenInTheEnd(db, picked, answers, latest, k, a) && OpenInTheEnd(db, picked, answers, latest, k, b);
    forall i | CondemnedInvoice(db, picked, answers, latest, k, i)
      ensures CondemnedInvoice(db, picked, answers, latest, k + 1, i)
    {
      var p :| 0 <= p < |db.payments| && db.payments[p].invoice == i && Condemned(db, picked, answers, latest, k, p);
      assert Condemned(db, picked, answers, latest, k + 1, p);
    }
    assert OpenInTheEnd(db, picked, answers, latest, k + 1, a) && OpenInTheEnd(db, picked, answers, latest, k + 1, b);
  }

  /** The payment at hand and its invoice are still as they were: no payment is
      picked twice and no invoice has a second live payment. */
  lemma PickedIsUntouched(db: Db, before: Db, picked: seq<nat>, answers: seq<Answer>, latest: int, k: nat)
    requires Inv(db) && PicksNewest(picked, db.payments, |picked|) && k < |picked|
    requires Reorgged(db, before, picked, answers, latest, k)
    ensures var p := picked[k];
            && p < |db.payments| && db.payments[p].event < |db.events| && db.payments[p].invoice < |db.invoices|
            && before.payments[p] == db.payments[p]
            && before.events[db.payments[p].event].log == db.events[db.payments[p].event].log
            && before.invoices[db.payments[p].invoice] == db.invoices[db.payments[p].invoice]
  {
    var p := picked[k];
    PaymentFacts(db, p);
    CondemnedGrows(db, picked, answers, latest, k, p);
  }

  lemma ReopenedIsOrphaned(db: Db, p: nat)
    requires Inv(db) && p < |db.payments| && Live(db.payments[p])
    ensures db.payments[p].invoice < |db.invoices|
    ensures var inv := db.invoices[db.payments[p].invoice];
            MoneySteps.OrphanedInvoice(inv, db.payments[p].amount) == ReopenedRow(inv)
  {
    PaymentFacts(db, p);
    InvoiceFacts(db, db.payments[p].invoice);
  }

  /** The unique index objects only to a collision among the invoices that end
      up open. */
  lemma ObjectionIsCollision(db: Db, before: Db, picked: seq<nat>, answers: seq<Answer>, latest: int, k: nat)
    requires Inv(db) && PicksNewest(picked, db.payments, |picked|) && k < |picked|
    requires Reorgged(db, before, picked, answers, latest, k)
    requires Condemned(db, picked, answers, latest, k + 1, picked[k])
    requires var i := db.payments[picked[k]].invoice;
             && i < |db.invoices|
             && before.invoices[i] == db.invoices[i]
             && OpenCollision(before.invoices[i := ReopenedRow(db.invoices[i])], i)
    ensures WouldCollide(db, picked, answers, latest, k + 1)
  {
    hide Inv;
    var i := db.payments[picked[k]].invoice;
    var after := before.invoices[i := ReopenedRow(db.invoices[i])];
    var j :| 0 <= j < |after| && j != i && IsOpen(after[j]) && SameAmountKey(after[j], after[i]);
    assert CondemnedInvoice(db, picked, answers, latest, k + 1, i);
    if CondemnedInvoice(db, picked, answers, latest, k, j) {
      var p :| 0 <= p < |db.payments| && db.payments[p].invoice == j && Condemned(db, picked, answers, latest, k, p);
      assert Condemned(db, picked, answers, latest, k + 1, p);
    }
    assert OpenInTheEnd(db, picked, answers, latest, k + 1, i) && OpenInTheEnd(db, picked, answers, latest, k + 1, j);
    assert SameAmountKey(db.invoices[Min(i, j)], db.invoices[Max(i, j)]);
  }

  lemma NoCollisionAfter(db: Db, after: Db, picked: seq<nat>, answers: seq<Answer>, latest: int, k: nat)
    requires Inv(after) && Reorgged(db, after, picked, answers, latest, k)
    ensures !WouldCollide(db, picked, answers, latest, k)
  {
  }

  lemma ReorggedFrame(db: Db, after: Db, picked: seq<nat>, answers: seq<Answer>, latest: int, k: nat)
    requires Reorgged(db, after, picked, answers, latest, k)
    ensures |after.invoices| == |db.invoices| && |after.payments| == |db.payments| && |after.events| == |db.events|
    ensures after.cfg == db.cfg && after.now == db.now
  {
  }

  lemma CheckOneExact(db: Db, at: Checked, picked: seq<nat>, answers: seq<Answer>, latest: int, k: nat)
    requires Inv(db) && PicksNewest(picked, db.payments, |picked|) && k < |picked|
    requires Inv(at.db) && Reorgged(db, at.db, picked, answers, latest, k)
    ensures var r := CheckOne(at, picked[k], AnswerAt(answers, k), latest);
            if r.Ok? then
              && Inv(r.value.db) && Reorgged(db, r.value.db, picked, answers, latest, k + 1)
              && r.value.checked == at.checked + 1
            else r == Err(OpenKeyTaken) && WouldCollide(db, picked, answers, latest, k + 1)
  {
    hide Inv, Reorgged, WouldCollide;
    var p := picked[k];
    ReorggedFrame(db, at.db, picked, answers, latest, k);
    PickedIsUntouched(db, at.db, picked, answers, latest, k);
    PaymentFacts(at.db, p);
    CondemnedGrows(db, picked, answers, latest, k, p);
    if Condemned(db, picked, answers, latest, k + 1, p) {
      ApplyReorgKeeps(at.db, p);
      ReopenedIsOrphaned(at.db, p);
      var i := db.payments[p].invoice;
      if OpenCollision(at.db.invoices[i := ReopenedRow(db.invoices[i])], i) {
        ObjectionIsCollision(db, at.db, picked, answers, latest, k);
      } else {
        OneMoreCondemned(db, at.db, ApplyReorg(at.db, p).value, picked, answers, latest, k);
      }
    } else {
      OneMoreSpared(db, at.db, picked, answers, latest, k);
    }
  }

  lemma {:induction false} CrosscheckSteps(db: Db, picked: seq<nat>, answers: seq<Answer>, latest: int, k: nat)
    requires Inv(db) && PicksNewest(picked, db.payments, |picked|) && k <= |picked|
    ensures var r := Crosscheck(db, picked, answers, latest, k);
            if r.Ok? then
              && Inv(r.value.db) && Reorgged(db, r.value.db, picked, answers, latest, k)
              && r.value.checked == k
            else r == Err(OpenKeyTaken) && WouldCollide(db, picked, answers, latest, k)
  {
    hide Inv, WouldCollide, CheckOne;
    if k == 0 {
    } else {
      CrosscheckSteps(db, picked, answers, latest, k - 1);
      var before := Crosscheck(db, picked, answers, latest, k - 1);
      if before.Ok? {
        CheckOneExact(db, before.value, picked, answers, latest, k - 1);
      } else {
        CollisionGrows(db, picked, answers, latest, k - 1);
      }
    }
  }

  /** A cross-check pass that looks at the first k of the picked payments fails
      exactly when two invoices that would end up open share their payable
      amount; otherwise it orphans exactly the condemned payments with their
      events, reopens exactly their unsettled invoices, and keeps the invariant. */
  lemma CrosscheckExact(db: Db, picked: seq<nat>, answers: seq<Answer>, latest: int, k: nat)
    requires Inv(db) && PicksNewest(picked, db.payments, |picked|) && k <= |picked|
    ensures var r := Crosscheck(db, picked, answers, latest, k);
            && (r.Err? <==> WouldCollide(db, picked, answers, latest, k))
            && (r.Err? ==> r.error == OpenKeyTaken)
            && (r.Ok? ==>
                 Inv(r.value.db) && Reorgged(db, r.value.db, picked, answers, latest, k) && r.value.checked == k)
  {
    hide Inv, WouldCollide, Reorgged;
    CrosscheckSteps(db, picked, answers, latest, k);
    var r := Crosscheck(db, picked, answers, latest, k);
    if r.Ok? {
      NoCollisionAfter(db, r.value.db, picked, answers, latest, k);
    }
  }

  /** Which way the loop body goes for payment picked[k]: never into one of its
      defensive branches. */
  lemma CheckOneCase(db: Db, at: Checked, picked: seq<nat>, answers: seq<Answer>, latest: int, k: nat)
    requires Inv(db) && PicksNewest(picked, db.payments, |picked|) && k < |picked|
    requires Inv(at.db) && Reorgged(db, at.db, picked, answers, latest, k)
    ensures picked[k] < |at.db.payments| == |db.payments|
    ensures var p := at.db.payments[picked[k]];
            && p == db.payments[picked[k]] && Live(p)
            && p.event < |at.db.events| && at.db.events[p.event].status == EventProcessed
            && p.invoice < |at.db.invoices| == |db.invoices|
            && at.db.invoices[p.invoice] == db.invoices[p.invoice]
            && at.db.invoices[p.invoice].status in {Confirming, Confirmed, Settled}
            && Max(0, at.db.invoices[p.invoice].paid - p.amount) == at.db.invoices[p.invoice].paid - p.amount == 0
    ensures var p := db.payments[picked[k]];
            Condemned(db, picked, answers, latest, k + 1, picked[k]) <==>
              InWindow(at.db.cfg, latest, p) && !ReceiptOk(AnswerAt(answers, k), at.db.events[p.event])
  {
    hide Inv, Reorgged, Condemned;
    ReorggedFrame(db, at.db, picked, answers, latest, k);
    PickedIsUntouched(db, at.db, picked, answers, latest, k);
    CondemnedGrows(db, picked, answers, latest, k, picked[k]);
    PaymentFacts(at.db, picked[k]);
    InvoiceFacts(at.db, db.payments[picked[k]].invoice);
  }

  // ---------------------------------------------------------- the counts

  ghost function CondemnedRows(db: Db, picked: seq<nat>, answers: seq<Answer>, latest: int, k: nat): set<nat> {
    set p | 0 <= p < |db.payments| && Condemned(db, picked, answers, latest, k, p) :: p
  }

  /** The payments among the first k picked whose receipt does not match. */
  ghost function MismatchedRows(db: Db, picked: seq<nat>, answers: seq<Answer>, k: nat): set<nat> {
    set j | 0 <= j < k && j < |picked| && picked[j] < |db.payments| && db.payments[picked[j]].event < |db.events|
            && !ReceiptOk(AnswerAt(answers, j), db.events[db.payments[picked[j]].event]) :: j
  }

  lemma NothingCounted(db: Db, picked: seq<nat>, answers: seq<Answer>, latest: int)
    ensures MismatchedRows(db, picked, answers, 0) == {} && CondemnedRows(db, picked, answers, latest, 0) == {}
  {
  }

  lemma MismatchedGrows(db: Db, picked: seq<nat>, answers: seq<Answer>, k: nat)
    requires k < |picked| && picked[k] < |db.payments| && db.payments[picked[k]].event < |db.events|
    ensures var bad := !ReceiptOk(AnswerAt(answers, k), db.events[db.payments[picked[k]].event]);
            |MismatchedRows(db, picked, answers, k + 1)| ==
            |MismatchedRows(db, picked, answers, k)| + (if bad then 1 else 0)
  {
    var bad := !ReceiptOk(AnswerAt(answers, k), db.events[db.payments[picked[k]].event]);
    assert MismatchedRows(db, picked, answers, k + 1) ==
           MismatchedRows(db, picked, answers, k) + (if bad then {k} else {});
  }

  lemma CondemnedRowsGrow(db: Db, picked: seq<nat>, answers: seq<Answer>, latest: int, k: nat)
    requires k < |picked| && Below(picked, |db.payments|) && Distinct(picked)
    ensures |CondemnedRows(db, picked, answers, latest, k + 1)| ==
            |CondemnedRows(db, picked, answers, latest, k)| +
            (if Condemned(db, picked, answers, latest, k + 1, picked[k]) then 1 else 0)
  {
    hide Condemned;
    var more := if Condemned(db, picked, answers, latest, k + 1, picked[k]) then {picked[k]} else {};
    forall p
      ensures p in CondemnedRows(db, picked, answers, latest, k + 1) <==>
              p in CondemnedRows(db, picked, answers, latest, k) + more
    {
      CondemnedGrows(db, picked, answers, latest, k, p);
    }
    assert CondemnedRows(db, picked, answers, latest, k + 1) == CondemnedRows(db, picked, answers, latest, k) + more;
    CondemnedGrows(db, picked, answers, latest, k, picked[k]);
  }

  lemma CheckOneCounts(db: Db, at: Checked, picked: seq<nat>, answers: seq<Answer>, latest: int, k: nat)
    requires Inv(db) && PicksNewest(picked, db.payments, |picked|) && k < |picked|
    requires Inv(at.db) && Reorgged(db, at.db, picked, answers, latest, k) && picked[k] < |at.db.payments|
    requires CheckOne(at, picked[k], AnswerAt(answers, k), latest).Ok?
    ensures var r := CheckOne(at, picked[k], AnswerAt(answers, k), latest).value;
            && r.checked == at.checked + 1
            && r.mismatched - at.mismatched
               == |MismatchedRows(db, picked, answers, k + 1)| - |MismatchedRows(db, picked, answers, k)|
            && r.orphaned - at.orphaned
               == |CondemnedRows(db, picked, answers, latest, k + 1)| - |CondemnedRows(db, picked, answers, latest, k)|
  {
    hide Inv, Reorgged, ApplyReorg, CondemnedRows, MismatchedRows;
    CheckOneCase(db, at, picked, answers, latest, k);
    PickedIsUntouched(db, at.db, picked, answers, latest, k);
    MismatchedGrows(db, picked, answers, k);
    CondemnedRowsGrow(db, picked, answers, latest, k);
  }

  /** The statistics of a pass count what they name. */
  lemma {:induction false} CrosscheckCounts(db: Db, picked: seq<nat>, answers: seq<Answer>, latest: int, k: nat)
    requires Inv(db) && PicksNewest(picked, db.payments, |picked|) && k <= |picked|
    requires Crosscheck(db, picked, answers, latest, k).Ok?
    ensures var r := Crosscheck(db, picked, answers, latest, k).value;
            && r.checked == k
            && r.mismatched == |MismatchedRows(db, picked, answers, k)|
            && r.orphaned == |CondemnedRows(db, picked, answers, latest, k)|
  {
    hide Inv, Reorgged, CheckOne, CondemnedRows, MismatchedRows;
    if k == 0 {
      NothingCounted(db, picked, answers, latest);
    } else {
      CrosscheckCounts(db, picked, answers, latest, k - 1);
      CrosscheckExact(db, picked, answers, latest, k - 1);
      CheckOneCounts(db, Crosscheck(db, picked, answers, latest, k - 1).value, picked, answers, latest, k - 1);
    }
  }
}
