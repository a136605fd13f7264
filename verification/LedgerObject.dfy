/** The ledger as the program runs it: tables that operations update in place,
    transactions that commit or restore. Each operation is proved to compute the
    step function of the same name. */
module LedgerObject {
  import opened Basics
  import opened Model
  import Machine = StateMachine
  import opened Steps
  import Money
  import Webhooks

  // ------------------------------------ an error ends a pass for good

  lemma {:induction false} ExpireErrorSticks(db: Db, order: seq<nat>, k: nat, n: nat)
    requires k <= n <= |order| && Below(order, |db.invoices|) && Expire(db, order, k).Err?
    ensures Expire(db, order, n) == Expire(db, order, k)
  {
    if k < n {
      ExpireErrorSticks(db, order, k, n - 1);
    }
  }

  lemma {:induction false} ConfirmErrorSticks(db: Db, order: seq<nat>, latest: int, k: nat, n: nat)
    requires k <= n <= |order| && Below(order, |db.invoices|) && Confirm(db, order, latest, k).Err?
    ensures Confirm(db, order, latest, n) == Confirm(db, order, latest, k)
  {
    if k < n {
      ConfirmErrorSticks(db, order, latest, k, n - 1);
    }
  }

  lemma {:induction false} CrosscheckErrorSticks(db: Db, picked: seq<nat>, answers: seq<Answer>, latest: int, k: nat,
                                                 n: nat)
    requires k <= n <= |picked| && Below(picked, |db.payments|) && Crosscheck(db, picked, answers, latest, k).Err?
    ensures Crosscheck(db, picked, answers, latest, n) == Crosscheck(db, picked, answers, latest, k)
  {
    if k < n {
      CrosscheckErrorSticks(db, picked, answers, latest, k, n - 1);
    }
  }

  /** The rows among the first n that are delivered, in order. */
  function DeliveredOf(deliveries: seq<Delivery>, rows: seq<nat>, n: nat): seq<nat>
    requires n <= |rows|
  {
    if n == 0 then []
    else
      var r := rows[n - 1];
      DeliveredOf(deliveries, rows, n - 1)
      + (if r < |deliveries| && deliveries[r].status == DeliveryDelivered then [r] else [])
  }

  lemma {:induction false} DeliveredStays(before: seq<Delivery>, after: seq<Delivery>, rows: seq<nat>, n: nat)
    requires n <= |rows|
    requires forall k :: 0 <= k < n ==> rows[k] < |before| && rows[k] < |after| && after[rows[k]] == before[rows[k]]
    ensures DeliveredOf(after, rows, n) == DeliveredOf(before, rows, n)
  {
    if n != 0 {
      DeliveredStays(before, after, rows, n - 1);
    }
  }

  /** Once the cap is reached the rest of the list changes nothing. */
  lemma {:induction false} RescueStops(db: Db, order: seq<nat>, k: nat, n: nat)
    requires k <= n <= |order| && Below(order, |db.invoices|) && Rescue(db, order, k).count >= db.cfg.rescueCap
    ensures Rescue(db, order, n) == Rescue(db, order, k)
  {
    if k < n {
      RescueStops(db, order, k, n - 1);
    }
  }

  class Ledger {
    const cfg: Settings
    var now: int
    var merchants: seq<Merchant>
    var invoices: seq<Invoice>
    var events: seq<ChainEvent>
    var payments: seq<Payment>
    var deliveries: seq<Delivery>

    function State(): Db
      reads this
    {
      Db(cfg, now, merchants, invoices, events, payments, deliveries)
    }

    constructor (cfg: Settings, now: int)
      ensures State() == Empty(cfg, now)
    {
      this.cfg := cfg;
      this.now := now;
      merchants, invoices, events, payments, deliveries := [], [], [], [], [];
    }

    /** Back to the tables at the start of the transaction. */
    method Rollback(saved: Db)
      requires saved.cfg == cfg
      modifies this
      ensures State() == saved
    {
      now := saved.now;
      merchants, invoices, events := saved.merchants, saved.invoices, saved.events;
      payments, deliveries := saved.payments, saved.deliveries;
    }

    method Enqueue(i: nat, kind: Kind)
      requires i < |invoices|
      modifies this`deliveries
      ensures State() == Steps.Enqueue(old(State()), i, kind)
    {
      var m := invoices[i].merchant;
      if m >= |merchants| {
        return;
      }
      var inv := invoices[i];
      var body := Payload(kind, now, i, inv.merchant, inv.status, inv.requested, inv.amount, inv.paid, inv.address);
      var signature := cfg.sign(merchants[m].webhookSecret, body);
      deliveries := deliveries + [Delivery(m, i, kind, body, signature, 1, DeliveryPending, None, now, None, None)];
    }

    /** Moves one invoice, or reports the illegal transition and moves nothing. */
    method Transition(i: nat, target: Status) returns (failure: Option<Failure>)
      requires i < |invoices|
      modifies this`invoices
      ensures match Machine.Transition(old(invoices[i].status), target)
              case Ok(status) => failure == None && invoices == old(invoices)[i := old(invoices[i]).(status := status)]
              case Err(e) => failure == Some(e) && invoices == old(invoices)
    {
      var current := invoices[i].status;
      if target == current {
        return None;
      }
      if target !in Machine.Legal(current) {
        return Some(IllegalTransition(current, target));
      }
      invoices := invoices[i := invoices[i].(status := target)];
      failure := None;
    }

    // ------------------------------------------------------------ ingest

    /** Returns the counts of the reply, or None for a rejected request. */
    method IngestEvents(batch: seq<Transfer>) returns (reply: Option<(nat, nat)>)
      modifies this`events
      ensures State() == Steps.Ingest(old(State()), batch)
      ensures reply == if ValidBatch(batch)
                       then Some((IngestAll(old(events), batch).accepted, IngestAll(old(events), batch).duplicates))
                       else None
    {
      if !ValidBatch(batch) {
        return None;
      }
      var inserted, duplicates := 0, 0;
      for k := 0 to |batch|
        invariant Ingested(events, inserted, duplicates) == IngestAll(old(events), batch[..k])
      {
        assert batch[..k + 1][..k] == batch[..k];
        if Recorded(events, batch[k]) {
          duplicates := duplicates + 1;
        } else {
          events := events + [ChainEvent(Canonical(batch[k]), EventPending)];
          inserted := inserted + 1;
        }
      }
      assert batch[..|batch|] == batch;
      reply := Some((inserted, duplicates));
    }

    // ------------------------------------------------------------ create

    method CreateInvoice(authorized: bool, merchant: nat, key: Option<string>, amount: string)
      returns (outcome: Created)
      modifies this
      ensures (State(), outcome) == Steps.CreateInvoice(old(State()), authorized, merchant, key, amount)
    {
      hide Money.ParseAmount, FindByKey, OpenKeyFree, Lower;
      if merchant >= |merchants| || !authorized {
        return NotAuthorized;
      }
      if key.Some? && key.value != "" {
        var existing := FindByKey(invoices, merchant, key.value);
        if existing.Some? {
          return Replayed(existing.value);
        }
      }
      var parsed := Money.ParseAmount(amount);
      if parsed.Rejected? {
        return BadAmount;
      }
      if parsed.Crash? || parsed.units <= 0 {
        return ServerError;
      }
      var saved := State();
      var requested := parsed.units;
      var row := |invoices|;
      invoices := invoices + [Invoice(merchant, key, requested, requested, 0, Lower(cfg.hotAddress), Status.Created,
                                      None, None, now + cfg.invoiceTtl)];
      invoices := invoices[row := invoices[row].(amount := requested + Money.UniqueOffset(row))];
      var failure := Transition(row, AwaitingPayment);
      assert failure == None;
      var inv := invoices[row];
      assert invoices == saved.invoices + [inv];
      if !OpenKeyFree(saved.invoices, inv.address, inv.amount) {
        Rollback(saved);
        return Conflict;
      }
      outcome := CreatedAs(row);
    }

    // ------------------------------------------------------------ credit

    /** On an error the tables may be half-updated: the caller rolls back. */
    method ProcessEvent(e: nat) returns (r: Result<Outcome, Failure>)
      requires e < |events|
      modifies this
      ensures match Steps.ProcessEvent(old(State()), e)
              case Ok(done) => r == Ok(done.outcome) && State() == done.db
              case Err(error) => r == Err(error)
    {
      if events[e].status != EventPending {
        return Ok(OutcomeDuplicate);
      }
      var found := FindMatch(invoices, events[e]);
      if found.None? {
        events := events[e := events[e].(status := EventSkipped)];
        return Ok(OutcomeSkipped);
      }
      var i, t := found.value, events[e].log;
      var taken := PaymentTaken(payments, t);
      payments := payments + [Payment(i, e, t.txHash, t.logIndex, t.block, t.amount, None, now)];
      invoices := invoices[i := invoices[i].(paid := invoices[i].paid + t.amount, detectedBlock := Some(t.block))];
      var failure := Transition(i, Detected);
      if failure.Some? {
        return Err(failure.value);
      }
      failure := Transition(i, Confirming);
      if failure.Some? {
        return Err(failure.value);
      }
      events := events[e := events[e].(status := EventProcessed)];
      if taken {
        return Err(PaymentKeyTaken);
      }
      r := Ok(OutcomeCredited);
    }

    /** Applies the selected events one commit at a time. `committed` is how many
        got through; it is all of them unless an unforeseen error escapes. */
    method RunPending(order: seq<nat>) returns (committed: nat, credited: nat, skipped: nat)
      requires Below(order, |events|)
      modifies this
      ensures committed <= |order|
      ensures Steps.RunPending(old(State()), order, committed) == Ok(Batch(State(), credited, skipped))
      ensures committed < |order| ==> Steps.RunPending(old(State()), order, committed + 1).Err?
    {
      committed, credited, skipped := 0, 0, 0;
      while committed < |order|
        invariant committed <= |order|
        invariant Steps.RunPending(old(State()), order, committed) == Ok(Batch(State(), credited, skipped))
      {
        var saved := State();
        var r := ProcessEvent(order[committed]);
        if r.Err? && !r.error.IllegalTransition? {
          Rollback(saved);
          return;
        }
        if r.Err? {
          Rollback(saved);
          events := events[order[committed] := events[order[committed]].(status := EventSkipped)];
          r := Ok(OutcomeSkipped);
        }
        credited := credited + (if r.value == OutcomeCredited then 1 else 0);
        skipped := skipped + (if r.value == OutcomeSkipped then 1 else 0);
        committed := committed + 1;
      }
    }

    // ------------------------------------------------------------- sweep

    method ExpireDue(order: seq<nat>) returns (r: Result<nat, Failure>)
      requires Below(order, |invoices|)
      modifies this
      ensures match Steps.Expire(old(State()), order, |order|)
              case Ok(swept) => r == Ok(swept.count) && State() == swept.db
              case Err(error) => r == Err(error)
    {
      hide Steps.Enqueue, Machine.Legal;
      ghost var was := State();
      var expired := 0;
      for k := 0 to |order|
        invariant Steps.Expire(was, order, k) == Ok(Swept(State(), expired))
      {
        var i := order[k];
        ghost var next := Steps.Expire(was, order, k + 1);
        if invoices[i].expiresAt <= now {
          var failure := Transition(i, Expired);
          if failure.Some? {
            ExpireErrorSticks(was, order, k + 1, |order|);
            return Err(failure.value);
          }
          Enqueue(i, InvoiceExpired);
          expired := expired + 1;
        }
      }
      r := Ok(expired);
    }

    method ConfirmDeep(order: seq<nat>, latest: int) returns (r: Result<nat, Failure>)
      requires Below(order, |invoices|)
      modifies this
      ensures match Steps.Confirm(old(State()), order, latest, |order|)
              case Ok(swept) => r == Ok(swept.count) && State() == swept.db
              case Err(error) => r == Err(error)
    {
      hide Steps.Enqueue, Machine.Legal;
      ghost var was := State();
      var confirmed := 0;
      for k := 0 to |order|
        invariant Steps.Confirm(was, order, latest, k) == Ok(Swept(State(), confirmed))
      {
        var i := order[k];
        ghost var next := Steps.Confirm(was, order, latest, k + 1);
        var seen := if invoices[i].detectedBlock.Some? then invoices[i].detectedBlock.value else 0;
        if latest - seen >= cfg.confirmationThreshold {
          if invoices[i].detectedBlock.None? {
            ConfirmErrorSticks(was, order, latest, k + 1, |order|);
            return Err(NullBlock);
          }
          var block := invoices[i].detectedBlock.value + cfg.confirmationThreshold - 1;
          invoices := invoices[i := invoices[i].(confirmedBlock := Some(block))];
          ghost var inv := Steps.Confirm(was, order, latest, k).value.db.invoices;
          var failure := Transition(i, Confirmed);
          if failure.Some? {
            ConfirmErrorSticks(was, order, latest, k + 1, |order|);
            return Err(failure.value);
          }
          assert invoices == inv[i := inv[i].(confirmedBlock := Some(block), status := Confirmed)];
          Enqueue(i, InvoiceConfirmed);
          confirmed := confirmed + 1;
        }
      }
      r := Ok(confirmed);
    }

    method Sweep(awaiting: seq<nat>, confirming: seq<nat>, latest: Option<int>) returns (failure: Option<Failure>)
      requires Below(awaiting, |invoices|) && Below(confirming, |invoices|)
      modifies this
      ensures match Steps.Sweep(old(State()), awaiting, confirming, latest)
              case Ok(db) => failure == None && State() == db
              case Err(error) => failure == Some(error) && State() == old(State())
    {
      var saved := State();
      var expired := ExpireDue(awaiting);
      if expired.Err? {
        Rollback(saved);
        return Some(expired.error);
      }
      if latest.Some? {
        var confirmed := ConfirmDeep(confirming, latest.value);
        if confirmed.Err? {
          Rollback(saved);
          return Some(confirmed.error);
        }
      }
      failure := None;
    }

    // ---------------------------------------------------------- dispatch

    method DispatchOne(r: nat, http: Http) returns (ok: bool, failure: Option<Failure>)
      requires r < |deliveries| && 1 <= deliveries[r].attempt
      modifies this
      ensures failure.None? ==> r < |deliveries| && (ok <==> deliveries[r].status == DeliveryDelivered)
      ensures match Steps.Dispatch(old(State()), r, http)
              case Ok(db) => failure == None && State() == db
              case Err(error) => failure == Some(error)
    {
      ok, failure := false, None;
      var d := deliveries[r];
      if d.merchant >= |merchants| || merchants[d.merchant].webhookUrl == "" || http.Blocked? {
        deliveries := deliveries[r := d.(status := DeliveryFailed)];
      } else if Succeeded(http) {
        ok := true;
        deliveries := deliveries[r := d.(status := DeliveryDelivered, deliveredAt := Some(now))];
        if d.kind == InvoiceConfirmed && d.invoice < |invoices| && invoices[d.invoice].status == Confirmed {
          failure := Transition(d.invoice, Settled);
          if failure.None? {
            Enqueue(d.invoice, InvoiceSettled);
          }
        }
      } else {
        deliveries := deliveries[r := d.(status := DeliveryFailed)];
        if d.attempt < cfg.webhookMaxAttempts {
          var delay := Min(cfg.backoffBase * Pow2(d.attempt - 1), cfg.backoffCap);
          deliveries := deliveries + [d.(attempt := d.attempt + 1, status := DeliveryPending,
                                         nextRetryAt := Some(now + delay), createdAt := now,
                                         deliveredAt := None, prev := Some(r))];
        }
      }
    }

    /** One dispatcher tick. `delivered` lists, in order, the rows that it made
        delivered. */
    method DispatchDue(outcomes: seq<Http>) returns (delivered: seq<nat>, attempted: nat)
      requires Attemptable(State(), Selected(deliveries, now))
      modifies this
      ensures var rows := Selected(old(deliveries), old(now));
              && attempted <= |rows|
              && Steps.DispatchAll(old(State()), rows, outcomes, attempted) == Ok(State())
              && (attempted < |rows| ==> Steps.DispatchAll(old(State()), rows, outcomes, attempted + 1).Err?)
              && delivered == DeliveredOf(deliveries, rows, attempted)
    {
      hide Dispatch, Selected;
      ghost var was := State();
      Webhooks.SelectedRows(deliveries, now);
      var rows := Selected(deliveries, now);
      delivered, attempted := [], 0;
      while attempted < |rows|
        invariant attempted <= |rows|
        invariant Steps.DispatchAll(was, rows, outcomes, attempted) == Ok(State())
        invariant delivered == DeliveredOf(deliveries, rows, attempted)
      {
        var r := rows[attempted];
        ghost var before := deliveries;
        var saved := State();
        var ok, failure := DispatchOne(r, HttpAt(outcomes, attempted));
        if failure.Some? {
          Rollback(saved);
          return;
        }
        Webhooks.OtherRowsStay(saved, r, HttpAt(outcomes, attempted), State());
        DeliveredStays(before, deliveries, rows, attempted);
        if ok {
          delivered := delivered + [r];
        }
        attempted := attempted + 1;
      }
    }

    // --------------------------------------------------------- reconcile

    method RescueStuck(order: seq<nat>) returns (rescued: nat)
      requires Below(order, |invoices|)
      modifies this`deliveries
      ensures Steps.Rescue(old(State()), order, |order|) == Swept(State(), rescued)
    {
      ghost var was := State();
      rescued := 0;
      for k := 0 to |order|
        invariant Steps.Rescue(was, order, k) == Swept(State(), rescued)
      {
        ghost var next := Steps.Rescue(was, order, k + 1);
        if rescued >= cfg.rescueCap {
          RescueStops(was, order, k, |order|);
          return;
        }
        if !InFlightOrTold(deliveries, order[k]) {
          Enqueue(order[k], InvoiceConfirmed);
          rescued := rescued + 1;
        }
      }
    }

    method ApplyReorg(p: nat) returns (failure: Option<Failure>)
      requires p < |payments| && payments[p].event < |events|
      modifies this
      ensures match Steps.ApplyReorg(old(State()), p)
              case Ok(db) => failure == None && State() == db
              case Err(error) => failure == Some(error)
    {
      ghost var was := State();
      failure := None;
      if payments[p].orphanedAt.Some? {
        return;
      }
      var payment := payments[p];
      payments := payments[p := payment.(orphanedAt := Some(now))];
      events := events[payment.event := events[payment.event].(status := EventOrphaned)];
      var i := payment.invoice;
      if i >= |invoices| || invoices[i].status == AwaitingPayment || invoices[i].status == Settled {
        return;
      }
      ghost var inv := invoices[i];
      while invoices[i].status != AwaitingPayment
        invariant |invoices| == |was.invoices| && failure == None
        invariant invoices == was.invoices[i := inv.(status := invoices[i].status)]
        invariant Machine.RollBack(invoices[i].status) == Machine.RollBack(inv.status)
        invariant now == was.now && merchants == was.merchants && deliveries == was.deliveries
        invariant payments == Orphan(was, p).payments && events == Orphan(was, p).events
        decreases Machine.Depth(invoices[i].status)
      {
        var prev := Machine.PreviousStatus(invoices[i].status);
        if prev.None? {
          return Some(NoRollbackEdge(invoices[i].status));
        }
        failure := Transition(i, prev.value);
        if failure.Some? {
          return;
        }
      }
      invoices := invoices[i := invoices[i].(paid := Max(0, invoices[i].paid - payment.amount),
                                             detectedBlock := None, confirmedBlock := None)];
      assert invoices == was.invoices[i := Unpaid(inv, AwaitingPayment, payment.amount)];
      assert State() == SetInvoice(Orphan(was, p), i, Unpaid(inv, AwaitingPayment, payment.amount));
      if OpenCollision(invoices, i) {
        return Some(OpenKeyTaken);
      }
      Enqueue(i, InvoiceReorgged);
    }

    method CrosscheckPayments(picked: seq<nat>, answers: seq<Answer>, latest: int)
      returns (failure: Option<Failure>, stats: (nat, nat, nat))
      requires Below(picked, |payments|)
      modifies this
      ensures match Steps.Crosscheck(old(State()), picked, answers, latest, Answered(answers, |picked|))
              case Ok(done) => failure == None && done == Checked(State(), stats.0, stats.1, stats.2)
              case Err(error) => failure == Some(error)
    {
      ghost var was := State();
      ghost var n := Answered(answers, |picked|);
      var k, checked, mismatched, orphaned := 0, 0, 0, 0;
      failure, stats := None, (0, 0, 0);
      while k < |picked|
        invariant k <= n
        invariant Steps.Crosscheck(was, picked, answers, latest, k)
                  == Ok(Checked(State(), checked, mismatched, orphaned))
        invariant stats == (checked, mismatched, orphaned)
        invariant failure == None
        decreases |picked| - k
      {
        var answer := AnswerAt(answers, k);
        if answer == RpcDown {
          break;
        }
        ghost var next := Steps.Crosscheck(was, picked, answers, latest, k + 1);
        var p := picked[k];
        k, checked := k + 1, checked + 1;
        if payments[p].event < |events| {
          var ev := events[payments[p].event];
          if ev.status != EventOrphaned && !ReceiptOk(answer, ev) {
            mismatched := mismatched + 1;
            if InWindow(cfg, latest, payments[p]) {
              failure := ApplyReorg(p);
              if failure.Some? {
                CrosscheckErrorSticks(was, picked, answers, latest, k, n);
                return;
              }
              orphaned := orphaned + 1;
            }
          }
        }
        stats := (checked, mismatched, orphaned);
      }
    }

    /** One pass: commits everything or nothing. */
    method Reconcile(confirmed: seq<nat>, picked: seq<nat>, answers: seq<Answer>, latest: Option<int>)
      returns (failure: Option<Failure>)
      requires Below(confirmed, |invoices|) && Below(picked, |payments|)
      modifies this
      ensures match Steps.Reconcile(old(State()), confirmed, picked, answers, latest)
              case Ok(db) => failure == None && State() == db
              case Err(error) => failure == Some(error) && State() == old(State())
    {
      var saved := State();
      failure := None;
      var rescued := RescueStuck(confirmed);
      RescueKeepsPayments(saved, confirmed, |confirmed|);
      if latest.Some? {
        var stats;
        failure, stats := CrosscheckPayments(picked, answers, latest.value);
        if failure.Some? {
          Rollback(saved);
        }
      }
    }
  }
}
