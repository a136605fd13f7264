/** What creation, credit and rollback mean to one invoice across steps. */
module Lifecycle {
  import opened Basics
  import opened Model
  import opened Steps
  import opened Invariant
  import opened LedgerSteps
  import opened Runs
  import Money
  import MoneyRoundTrip
  import MoneySteps

  // ------------------------------------------------------------ creation

  /** An authorised request that is no replay and asks for a positive amount is
      refused exactly when some open invoice asked for as much more as it is rows
      older; otherwise it becomes the next row. */
  lemma CreateConflictIff(db: Db, merchant: nat, key: Option<string>, amount: string, requested: int)
    requires Reachable(db) && merchant < |db.merchants|
    requires key.Some? && key.value != "" ==> FindByKey(db.invoices, merchant, key.value).None?
    requires Money.ParseAmount(amount) == Money.Units(requested) && 0 < requested
    ensures var (after, outcome) := CreateInvoice(db, true, merchant, key, amount);
            && (outcome == Conflict <==>
                  exists j :: 0 <= j < |db.invoices| && IsOpen(db.invoices[j])
                              && db.invoices[j].requested - requested == |db.invoices| - j)
            && (outcome == Conflict ==> after == db)
            && (outcome != Conflict ==>
                  && outcome == CreatedAs(|db.invoices|)
                  && after == db.(invoices := db.invoices + [NewInvoice(db, merchant, key, requested)]))
  {
    hide Reachable, Inv, Money.ParseAmount;
    ReachableInv(db);
    var inv := NewInvoice(db, merchant, key, requested);
    forall j | 0 <= j < |db.invoices|
      ensures db.invoices[j].address == inv.address && db.invoices[j].amount == db.invoices[j].requested + j + 1
    {
      InvoiceFacts(db, j);
    }
  }

  /** So two requests for the same amount never collide. */
  lemma EqualRequestsNeverCollide(db: Db, a: nat, b: nat)
    requires Reachable(db) && a < b < |db.invoices| && db.invoices[a].requested == db.invoices[b].requested
    ensures !SameAmountKey(db.invoices[a], db.invoices[b])
  {
    hide Reachable, Inv;
    ReachableInv(db);
    InvoiceFacts(db, a);
    InvoiceFacts(db, b);
  }

  /** Different ones can: on a fresh ledger a request for n + 1 base units blocks
      the next request if it is for n. */
  lemma DifferentRequestsCanCollide(db: Db, n: nat)
    requires |db.merchants| == 1 && db.invoices == []
    requires 0 < n && n + 1 < Money.Pow10(28)
    ensures var first := CreateInvoice(db, true, 0, None, Money.Print(n + 1));
            && first.1 == CreatedAs(0)
            && CreateInvoice(first.0, true, 0, None, Money.Print(n)).1 == Conflict
  {
    hide Money.ParseAmount, Money.Print, Money.Pow10;
    MoneyRoundTrip.RoundTrip(n);
    MoneyRoundTrip.RoundTrip(n + 1);
    var first := CreateInvoice(db, true, 0, None, Money.Print(n + 1)).0;
    assert IsOpen(first.invoices[0]);
  }

  /** In every reachable state an event pays at most one open invoice, the one
      that the matching query returns. */
  lemma PayeeIsUnique(db: Db, e: nat, i: nat)
    requires Reachable(db) && e < |db.events| && i < |db.invoices| && Matches(db.invoices[i], db.events[e])
    ensures FindMatch(db.invoices, db.events[e]) == Some(i)
    ensures forall j :: 0 <= j < |db.invoices| && Matches(db.invoices[j], db.events[e]) ==> j == i
  {
    hide Reachable;
    ReachableInv(db);
    MoneySteps.MatchIsUnique(db.invoices, db.events[e], i);
  }

  // ------------------------------------------------------------ rollback

  /** An invoice that is open again is the invoice it was: whatever happened in
      between, every column has its old value. */
  lemma OpenRowsRepeat(a: Db, b: Db, i: nat)
    requires Inv(a) && Inv(b) && Later(a, b)
    requires i < |a.invoices| && IsOpen(a.invoices[i]) && IsOpen(b.invoices[i])
    ensures b.invoices[i] == a.invoices[i]
  {
    hide Inv;
    InvoiceFacts(a, i);
    InvoiceFacts(b, i);
  }

  /** Credit, perhaps confirm, then roll back. */
  ghost function MaybeConfirmed(db: Db, i: nat, latest: Option<int>): Db
    requires i < |db.invoices|
  {
    if latest.None? then db
    else match ConfirmOne(Swept(db, 0), i, latest.value)
      case Ok(swept) => swept.db
      case Err(_) => db
  }

  lemma CreditShape(db: Db, e: nat, i: nat)
    requires Inv(db) && e < |db.events| && db.events[e].status == EventPending
    requires i < |db.invoices| && Matches(db.invoices[i], db.events[e])
    ensures ProcessEvent(db, e) ==
            Ok(Processed(db.(invoices := db.invoices[i := MoneySteps.CreditedInvoice(db.invoices[i], db.events[e].log)],
                             events := db.events[e := db.events[e].(status := EventProcessed)],
                             payments := db.payments + [PaymentFor(db, e, i)]),
                         OutcomeCredited))
  {
    hide HookInv;
    MoneySteps.MatchIsUnique(db.invoices, db.events[e], i);
    MoneySteps.PaymentKeyIsFree(db.cfg, db.now, db.invoices, db.events, db.payments, e);
  }

  lemma NoCollisionAmongOpen(db: Db, i: nat)
    requires Inv(db) && i < |db.invoices|
    ensures !OpenCollision(db.invoices, i)
  {
  }

  /** Rolling a credited payment back restores the whole invoice table, whether
      or not the invoice was confirmed in between; the payment and its event stay
      as orphaned audit rows, and nothing stops the rollback. */
  lemma RollbackUndoesCredit(db: Db, e: nat, i: nat, latest: Option<int>)
    requires Inv(db) && e < |db.events| && db.events[e].status == EventPending
    requires i < |db.invoices| && Matches(db.invoices[i], db.events[e])
    ensures ProcessEvent(db, e).Ok? && |ProcessEvent(db, e).value.db.invoices| == |db.invoices|
    ensures var p := |db.payments|;
            var mid := MaybeConfirmed(ProcessEvent(db, e).value.db, i, latest);
            && p < |mid.payments| && mid.payments[p].event < |mid.events|
            && var back := ApplyReorg(mid, p);
               && back.Ok? && Inv(back.value)
               && back.value.invoices == db.invoices
               && back.value.payments == db.payments + [PaymentFor(db, e, i).(orphanedAt := Some(db.now))]
               && back.value.events == db.events[e := db.events[e].(status := EventOrphaned)]
  {
    hide Inv;
    CreditShape(db, e, i);
    ProcessKeeps(db, e);
    InvoiceFacts(db, i);
    var paid := ProcessEvent(db, e).value.db;
    if latest.Some? {
      ConfirmOneKeeps(Swept(paid, 0), i, latest.value);
    }
    var mid := MaybeConfirmed(paid, i, latest);
    var p := |db.payments|;
    assert mid.payments[p] == PaymentFor(db, e, i);
    ApplyReorgKeeps(mid, p);
    var reopened := MoneySteps.OrphanedInvoice(mid.invoices[i], mid.payments[p].amount);
    assert reopened == db.invoices[i];
    assert mid.invoices[i := reopened] == db.invoices;
    NoCollisionAmongOpen(db, i);
  }

  /** And a fresh event with the same address and amount pays the reopened
      invoice again. */
  lemma ReopenedIsPayable(before: Db, back: Db, i: nat, f: nat)
    requires Inv(before) && Inv(back) && Later(before, back)
    requires i < |before.invoices| && IsOpen(before.invoices[i]) && IsOpen(back.invoices[i])
    requires f < |back.events| && back.events[f].status == EventPending
    requires back.events[f].log.toAddress == before.invoices[i].address
    requires back.events[f].log.amount == before.invoices[i].amount
    ensures ProcessEvent(back, f).Ok? && ProcessEvent(back, f).value.outcome == OutcomeCredited
    ensures var inv := ProcessEvent(back, f).value.db.invoices;
            inv == back.invoices[i := before.invoices[i].(status := Confirming, paid := before.invoices[i].amount,
                                                          detectedBlock := Some(back.events[f].log.block))]
  {
    hide Inv;
    OpenRowsRepeat(before, back, i);
    InvoiceFacts(before, i);
    CreditShape(back, f, i);
  }
}
