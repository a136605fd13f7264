/** What every webhook log of a reachable ledger looks like: the story its first
    attempts tell, and the chains of retries behind them. */
module Webhooks {
  import opened Basics
  import opened Model
  import opened Steps
  import opened Invariant
  import opened LedgerSteps
  import opened Runs
  import HookSteps

  // ------------------------------------------------------------- traces

  function Times(kinds: seq<Kind>, kind: Kind): nat {
    multiset(kinds)[kind]
  }

  lemma {:induction false} FinalKinds(kinds: seq<Kind>)
    requires Run(kinds).Some?
    ensures Times(kinds, InvoiceSettled) == if Run(kinds) == Some(ToldSettled) then 1 else 0
    ensures Times(kinds, InvoiceExpired) == if Run(kinds) == Some(ToldExpired) then 1 else 0
    ensures Run(kinds).value in {ToldConfirmed, ToldSettled} ==> InvoiceConfirmed in kinds
  {
    if kinds != [] {
      var before, last := kinds[..|kinds| - 1], kinds[|kinds| - 1];
      assert kinds == before + [last];
      FinalKinds(before);
    }
  }

  /** In every reachable state the first attempts for an invoice are a run of the
      automaton that ends where the invoice's status says; so an expiry or a
      settlement is announced exactly once, and only by an invoice that is
      expired or settled, and a settled invoice has a delivered confirmation. */
  lemma TraceRefinesStatus(db: Db, i: nat)
    requires Reachable(db) && i < |db.invoices|
    ensures var heads := Heads(db.deliveries, i);
            var status := db.invoices[i].status;
            && Run(heads) == Some(ToldBy(status))
            && Times(heads, InvoiceSettled) == (if status == Settled then 1 else 0)
            && Times(heads, InvoiceExpired) == (if status == Expired then 1 else 0)
            && (status in {Confirmed, Settled} ==> InvoiceConfirmed in heads)
            && (status == Settled ==> Notified(db.deliveries, i))
  {
    hide Reachable;
    ReachableInv(db);
    FinalKinds(Heads(db.deliveries, i));
  }

  // ------------------------------------------------------------- chains

  /** The rows of the attempts up to and including row r, oldest first. */
  function Chain(deliveries: seq<Delivery>, r: nat): seq<nat>
    decreases r
  {
    if r >= |deliveries| then []
    else match deliveries[r].prev
      case None => [r]
      case Some(q) => if q < r then Chain(deliveries, q) + [r] else [r]
  }

  /** Attempt number k + 1 of a chain. */
  predicate ProperLink(cfg: Settings, secret: string, payload: Payload, d: Delivery, k: nat, last: bool) {
    && d.attempt == k + 1
    && d.payload == payload
    && d.signature == cfg.sign(secret, payload)
    && (!last ==> d.status == DeliveryFailed)
    && d.nextRetryAt == if k == 0 then None else Some(d.createdAt + Backoff(cfg, k))
  }

  /** The next attempt is created when the one before it has been made, which is
      not before that one was due. */
  predicate FollowsUp(deliveries: seq<Delivery>, a: nat, b: nat) {
    && a < b < |deliveries|
    && (deliveries[a].nextRetryAt.Some? ==> deliveries[a].nextRetryAt.value <= deliveries[b].createdAt)
  }

  /** What one chain looks like: attempts 1, 2, ... of one message, all but the
      last failed, each retry due the backoff after the attempt before it failed. */
  ghost predicate ProperChain(cfg: Settings, secret: string, deliveries: seq<Delivery>, chain: seq<nat>) {
    && 1 <= |chain| <= MaxAttempts(cfg)
    && (forall k :: 0 <= k < |chain| ==> chain[k] < |deliveries|)
    && (forall k :: 0 <= k < |chain| ==>
          ProperLink(cfg, secret, deliveries[chain[0]].payload, deliveries[chain[k]], k, k == |chain| - 1))
    && (forall k :: 0 <= k < |chain| - 1 ==> FollowsUp(deliveries, chain[k], chain[k + 1]))
  }

  lemma ChainGrows(cfg: Settings, secret: string, deliveries: seq<Delivery>, before: seq<nat>, r: nat)
    requires ProperChain(cfg, secret, deliveries, before) && r < |deliveries|
    requires deliveries[r].prev == Some(before[|before| - 1]) && RetryOk(cfg, deliveries, r, deliveries[r])
    requires deliveries[r].attempt <= MaxAttempts(cfg)
    ensures ProperChain(cfg, secret, deliveries, before + [r])
  {
    var chain := before + [r];
    assert forall k :: 0 <= k < |before| ==> chain[k] == before[k];
    assert chain[|before|] == r;
    var last := before[|before| - 1];
    assert ProperLink(cfg, secret, deliveries[before[0]].payload, deliveries[last], |before| - 1, true);
  }

  lemma ChainStarts(cfg: Settings, secret: string, deliveries: seq<Delivery>, r: nat)
    requires r < |deliveries| && deliveries[r].attempt == 1 && deliveries[r].nextRetryAt.None?
    requires deliveries[r].signature == cfg.sign(secret, deliveries[r].payload)
    ensures ProperChain(cfg, secret, deliveries, [r])
  {
  }

  lemma {:induction false} ChainIsProper(db: Db, r: nat)
    requires Inv(db) && r < |db.deliveries|
    ensures db.deliveries[r].merchant < |db.merchants|
    ensures var chain := Chain(db.deliveries, r);
            && ProperChain(db.cfg, db.merchants[db.deliveries[r].merchant].webhookSecret, db.deliveries, chain)
            && chain[|chain| - 1] == r
    decreases r
  {
    hide Inv, ProperChain;
    DeliveryFacts(db, r);
    match db.deliveries[r].prev
    case None =>
      ChainStarts(db.cfg, db.merchants[db.deliveries[r].merchant].webhookSecret, db.deliveries, r);
    case Some(q) =>
      ChainIsProper(db, q);
      ChainGrows(db.cfg, db.merchants[db.deliveries[r].merchant].webhookSecret, db.deliveries,
                 Chain(db.deliveries, q), r);
  }

  lemma ChainLength(db: Db, r: nat)
    requires Inv(db) && r < |db.deliveries|
    ensures |Chain(db.deliveries, r)| == db.deliveries[r].attempt
  {
    hide Inv;
    ChainIsProper(db, r);
    var chain := Chain(db.deliveries, r);
    assert db.deliveries[chain[|chain| - 1]].attempt == |chain|;
  }

  /** In every reachable state every attempt ends a proper chain, and is followed
      by at most one retry - by none while it is pending or once it was
      delivered; so only the last attempt of a chain can be either. */
  lemma DeliveryChains(db: Db, r: nat)
    requires Reachable(db) && r < |db.deliveries|
    ensures var d := db.deliveries[r];
            && d.merchant < |db.merchants|
            && ProperChain(db.cfg, db.merchants[d.merchant].webhookSecret, db.deliveries, Chain(db.deliveries, r))
            && |Chain(db.deliveries, r)| == d.attempt
            && (d.status != DeliveryFailed ==>
                  forall q :: 0 <= q < |db.deliveries| ==> db.deliveries[q].prev != Some(r))
            && (forall p, q :: 0 <= p < q < |db.deliveries| ==>
                  !(db.deliveries[p].prev == Some(r) && db.deliveries[q].prev == Some(r)))
            && (d.status == DeliveryDelivered && d.nextRetryAt.Some? ==>
                  d.deliveredAt.Some? && d.nextRetryAt.value <= d.deliveredAt.value)
  {
    hide Reachable, ProperChain;
    ReachableInv(db);
    ChainIsProper(db, r);
    ChainLength(db, r);
    DeliveryFacts(db, r);
    if db.deliveries[r].status != DeliveryFailed {
      HookSteps.PendingIsLast(db.cfg, db.merchants, db.invoices, db.deliveries, r);
    }
  }

  /** In every reachable state every message ever enqueued, retries included,
      states the terms of its invoice, the status that its kind announces, and as
      paid the whole amount if it says confirmed or settled and nothing otherwise;
      and it is signed for the merchant of that invoice. */
  lemma MessagesAreTrue(db: Db, r: nat)
    requires Reachable(db) && r < |db.deliveries|
    ensures var d := db.deliveries[r];
            && d.invoice < |db.invoices|
            && PayloadOk(d.invoice, db.invoices[d.invoice], d.kind, d.payload)
            && d.merchant == db.invoices[d.invoice].merchant < |db.merchants|
            && d.signature == db.cfg.sign(db.merchants[d.merchant].webhookSecret, d.payload)
  {
    hide Reachable, Inv;
    ReachableInv(db);
    DeliveryFacts(db, r);
  }

  // -------------------------------------------------------------- waits

  /** The waits between attempts 1 and n, added up. */
  function TotalWait(cfg: Settings, n: nat): int
    requires 1 <= n
  {
    if n == 1 then 0 else TotalWait(cfg, n - 1) + Backoff(cfg, n - 1)
  }

  lemma {:induction false} Pow2Monotone(a: nat, b: nat)
    requires a <= b
    ensures Pow2(a) <= Pow2(b)
  {
    if a < b {
      Pow2Monotone(a, b - 1);
    }
  }

  lemma BackoffGrows(cfg: Settings, a: nat, b: nat)
    requires 0 <= cfg.backoffBase && 1 <= a <= b
    ensures Backoff(cfg, a) <= Backoff(cfg, b)
  {
    Pow2Monotone(a - 1, b - 1);
    assert cfg.backoffBase * Pow2(a - 1) <= cfg.backoffBase * Pow2(b - 1);
  }

  lemma {:induction false} Pow2Exceeds(n: nat)
    ensures n < Pow2(n)
  {
    if n != 0 {
      Pow2Exceeds(n - 1);
    }
  }

  lemma Pow2Doubles(n: nat)
    requires 1 <= n
    ensures Pow2(n) == 2 * Pow2(n - 1)
  {
  }

  lemma {:induction false} NegativeTimes(base: int, p: nat)
    requires base < 0
    ensures base * p <= 0 - p
    ensures base * (2 * p) == 2 * (base * p)
  {
    Distribute(base, p, p);
    if p != 0 {
      NegativeTimes(base, p - 1);
      Distribute(base, p - 1, 1);
    }
  }

  /** With a negative base the wait doubles downwards once it is below the cap. */
  lemma NegativeBaseShrinks(cfg: Settings) returns (n: nat)
    requires cfg.backoffBase < 0
    ensures 1 <= n && Backoff(cfg, n + 1) < Backoff(cfg, n)
  {
    hide Pow2;
    n := Max(0, -cfg.backoffCap) + 1;
    Pow2Exceeds(n - 1);
    Pow2Doubles(n);
    NegativeTimes(cfg.backoffBase, Pow2(n - 1));
  }

  /** Waits never exceed the cap; and they never shrink from one attempt to a
      later one if and only if the base is not negative. */
  lemma BackoffMonotone(cfg: Settings)
    ensures forall n: nat :: 1 <= n ==> Backoff(cfg, n) <= cfg.backoffCap
    ensures (forall a: nat, b: nat :: 1 <= a <= b ==> Backoff(cfg, a) <= Backoff(cfg, b)) <==> 0 <= cfg.backoffBase
  {
    if 0 <= cfg.backoffBase {
      forall a: nat, b: nat | 1 <= a <= b
        ensures Backoff(cfg, a) <= Backoff(cfg, b)
      {
        BackoffGrows(cfg, a, b);
      }
    } else {
      var n := NegativeBaseShrinks(cfg);
      assert Backoff(cfg, n + 1) < Backoff(cfg, n);
    }
  }

  lemma OneMoreWait(base: int, cap: int, p: int, k: int)
    ensures base * (2 * p - 1) == base * (p - 1) + base * p
    ensures (k + 1) * cap == k * cap + cap
  {
  }

  /** The whole schedule is bounded in closed form. */
  lemma {:induction false} TotalWaitBound(cfg: Settings, n: nat)
    requires 1 <= n
    ensures TotalWait(cfg, n) <= (n - 1) * cfg.backoffCap
    ensures TotalWait(cfg, n) <= cfg.backoffBase * (Pow2(n - 1) - 1)
  {
    if n > 1 {
      TotalWaitBound(cfg, n - 1);
      OneMoreWait(cfg.backoffBase, cfg.backoffCap, Pow2(n - 2), n - 2);
    }
  }

  /** Attempt n of a chain is not due before the whole schedule has passed since
      the first attempt failed. */
  lemma {:induction false} ScheduleIsKept(cfg: Settings, secret: string, deliveries: seq<Delivery>, chain: seq<nat>,
                                          k: nat)
    requires ProperChain(cfg, secret, deliveries, chain) && 1 <= k < |chain|
    ensures deliveries[chain[k]].nextRetryAt.Some?
    ensures deliveries[chain[k]].nextRetryAt.value >= deliveries[chain[1]].createdAt + TotalWait(cfg, k + 1)
  {
    if k > 1 {
      ScheduleIsKept(cfg, secret, deliveries, chain, k - 1);
    } else {
      assert TotalWait(cfg, 1) == 0;
    }
  }

  // ------------------------------------------------------ bounded bypass

  ghost function PendingUpTo(deliveries: seq<Delivery>, r: nat): set<nat> {
    set j | 0 <= j <= r && j < |deliveries| && deliveries[j].status == DeliveryPending :: j
  }

  /** The due rows below n, each once, in row order. */
  ghost predicate DueRows(due: seq<nat>, deliveries: seq<Delivery>, now: int, n: nat)
    requires n <= |deliveries|
  {
    && (forall k :: 0 <= k < |due| ==> due[k] < n && IsDue(deliveries[due[k]], now))
    && (forall j, k :: 0 <= j < k < |due| ==> due[j] < due[k])
    && (forall r :: 0 <= r < n && IsDue(deliveries[r], now) ==> r in due)
  }

  lemma OneMoreDue(before: seq<nat>, due: seq<nat>, deliveries: seq<Delivery>, now: int, n: nat)
    requires 1 <= n <= |deliveries| && DueRows(before, deliveries, now, n - 1)
    requires due == before + (if IsDue(deliveries[n - 1], now) then [n - 1] else [])
    ensures DueRows(due, deliveries, now, n)
  {
    hide IsDue;
    forall r | 0 <= r < n && IsDue(deliveries[r], now)
      ensures r in due
    {
      if r == n - 1 {
        assert due[|before|] == n - 1;
      } else {
        assert r in before;
      }
    }
  }

  lemma {:induction false} DueBelowFacts(deliveries: seq<Delivery>, now: int, n: nat)
    requires n <= |deliveries|
    ensures DueRows(DueBelow(deliveries, now, n), deliveries, now, n)
  {
    if n != 0 {
      DueBelowFacts(deliveries, now, n - 1);
      OneMoreDue(DueBelow(deliveries, now, n - 1), DueBelow(deliveries, now, n), deliveries, now, n);
    }
  }

  lemma PrefixRows(rows: seq<nat>, due: seq<nat>, deliveries: seq<Delivery>, now: int)
    requires rows <= due && DueRows(due, deliveries, now, |deliveries|)
    ensures forall k :: 0 <= k < |rows| ==> rows[k] < |deliveries| && IsDue(deliveries[rows[k]], now)
    ensures forall j, k :: 0 <= j < k < |rows| ==> rows[j] < rows[k]
  {
    hide IsDue;
    forall k | 0 <= k < |rows|
      ensures rows[k] < |deliveries| && IsDue(deliveries[rows[k]], now)
    {
      assert rows[k] == due[k];
    }
    forall j, k | 0 <= j < k < |rows|
      ensures rows[j] < rows[k]
    {
      assert rows[j] == due[j] && rows[k] == due[k];
    }
  }

  lemma LeftOutOf(rows: seq<nat>, due: seq<nat>, deliveries: seq<Delivery>, now: int, r: nat)
    requires DueRows(due, deliveries, now, |deliveries|)
    requires rows == if |due| <= DUE_LIMIT then due else due[..DUE_LIMIT]
    requires r < |deliveries| && IsDue(deliveries[r], now) && r !in rows
    ensures |Rows(rows)| == DUE_LIMIT
    ensures forall j :: j in Rows(rows) ==> j < r && deliveries[j].status == DeliveryPending
  {
    var at :| 0 <= at < |due| && due[at] == r;
    assert forall k :: 0 <= k < |rows| ==> rows[k] == due[k] && rows[k] != r;
    forall j | j in Rows(rows)
      ensures j < r && deliveries[j].status == DeliveryPending
    {
      var k :| 0 <= k < |rows| && rows[k] == j;
      assert due[k] == j;
    }
    PrefixRows(rows, due, deliveries, now);
    DistinctRows(rows);
  }

  /** A due row that a tick leaves out has fifty due rows before it that the tick
      takes on. */
  lemma LeftOutMeansFifty(deliveries: seq<Delivery>, now: int, r: nat)
    requires r < |deliveries| && IsDue(deliveries[r], now) && r !in Selected(deliveries, now)
    ensures var rows := Selected(deliveries, now);
            && |Rows(rows)| == DUE_LIMIT
            && forall j :: j in Rows(rows) ==> j < r && deliveries[j].status == DeliveryPending
  {
    hide DueBelow, IsDue;
    DueBelowFacts(deliveries, now, |deliveries|);
    LeftOutOf(Selected(deliveries, now), DueBelow(deliveries, now, |deliveries|), deliveries, now, r);
  }

  /** From a to b a dispatcher tick was completed: whatever else was committed
      meanwhile, every row it had selected is no longer pending. */
  ghost predicate CompletedTick(a: Db, b: Db) {
    && Later(a, b)
    && forall r :: r in Selected(a.deliveries, a.now) && r < |b.deliveries| ==>
         b.deliveries[r].status != DeliveryPending
  }

  lemma NothingReturnsToPending(a: Db, b: Db, r: nat)
    requires Later(a, b) && r < |a.deliveries|
    ensures PendingUpTo(b.deliveries, r) <= PendingUpTo(a.deliveries, r)
  {
  }

  lemma TickProgress(a: Db, b: Db, r: nat)
    requires CompletedTick(a, b) && r < |a.deliveries| && IsDue(a.deliveries[r], a.now)
    requires b.deliveries[r].status == DeliveryPending
    ensures |PendingUpTo(b.deliveries, r)| + DUE_LIMIT <= |PendingUpTo(a.deliveries, r)|
  {
    var rows := Rows(Selected(a.deliveries, a.now));
    LeftOutMeansFifty(a.deliveries, a.now, r);
    NothingReturnsToPending(a, b, r);
    forall j | j in rows
      ensures j in PendingUpTo(a.deliveries, r) && j !in PendingUpTo(b.deliveries, r)
    {
    }
    var left := PendingUpTo(a.deliveries, r) - rows;
    assert PendingUpTo(b.deliveries, r) <= left;
    SubsetSize(PendingUpTo(b.deliveries, r), left);
    assert PendingUpTo(a.deliveries, r) == left + rows;
  }

  // -------------------------------------------------- ticks within runs

  predicate Attempts(a: Action, r: nat) {
    a.Attempt? && a.delivery == r
  }

  /** Every row that a dispatcher tick selects in this state is attempted
      somewhere in the run, whatever else the run does before, between and after. */
  ghost predicate ServesSelected(db: Db, actions: seq<Action>) {
    forall r :: r in Selected(db.deliveries, db.now) ==> exists k :: 0 <= k < |actions| && Attempts(actions[k], r)
  }

  lemma RowsStay(a: Db, b: Db)
    requires Later(a, b)
    ensures |a.deliveries| <= |b.deliveries| && a.now <= b.now && a.cfg == b.cfg
    ensures forall r :: 0 <= r < |a.deliveries| && a.deliveries[r].status != DeliveryPending ==>
              b.deliveries[r].status != DeliveryPending
    ensures forall r :: 0 <= r < |a.deliveries| && IsDue(a.deliveries[r], a.now) ==>
              b.deliveries[r].status != DeliveryPending || IsDue(b.deliveries[r], b.now)
  {
  }

  lemma AttemptCloses(db: Db, a: Action, r: nat)
    requires Inv(db) && Enabled(db, a) && Attempts(a, r) && r < |db.deliveries|
    ensures r < |Apply(db, a).deliveries| && Apply(db, a).deliveries[r].status != DeliveryPending
  {
    hide Inv, Later, Dispatch;
    DispatchIsLater(db, r, a.http);
    StepKeeps(db, a);
    RowsStay(db, Apply(db, a));
  }

  lemma {:induction false} ServedIsClosed(db: Db, actions: seq<Action>, r: nat, k: nat)
    requires Inv(db) && LegalRun(db, actions) && r < |db.deliveries|
    requires k < |actions| && Attempts(actions[k], r)
    ensures r < |Exec(db, actions).deliveries| && Exec(db, actions).deliveries[r].status != DeliveryPending
    decreases |actions|
  {
    hide Inv, Later, Enabled, Apply;
    var next := Apply(db, actions[0]);
    StepKeeps(db, actions[0]);
    RowsStay(db, next);
    if k == 0 {
      AttemptCloses(db, actions[0], r);
      RunKeeps(next, actions[1..]);
      RowsStay(next, Exec(next, actions[1..]));
    } else {
      ServedIsClosed(next, actions[1..], r, k - 1);
    }
  }

  lemma SelectedRows(deliveries: seq<Delivery>, now: int)
    ensures var rows := Selected(deliveries, now);
            && (forall k :: 0 <= k < |rows| ==> rows[k] < |deliveries| && IsDue(deliveries[rows[k]], now))
            && (forall j, k :: 0 <= j < k < |rows| ==> rows[j] < rows[k])
  {
    hide DueBelow, IsDue, DueRows;
    DueBelowFacts(deliveries, now, |deliveries|);
    PrefixRows(Selected(deliveries, now), DueBelow(deliveries, now, |deliveries|), deliveries, now);
  }

  /** A run that attempts every selected row is a completed tick, however its
      commits are interleaved with others. */
  lemma ServingRunCompletes(db: Db, actions: seq<Action>)
    requires Inv(db) && LegalRun(db, actions) && ServesSelected(db, actions)
    ensures CompletedTick(db, Exec(db, actions))
  {
    hide Inv, Later, LegalRun, Exec, Selected;
    RunKeeps(db, actions);
    SelectedRows(db.deliveries, db.now);
    forall r | r in Selected(db.deliveries, db.now)
      ensures r < |Exec(db, actions).deliveries| && Exec(db, actions).deliveries[r].status != DeliveryPending
    {
      var k :| 0 <= k < |actions| && Attempts(actions[k], r);
      ServedIsClosed(db, actions, r, k);
    }
  }

  /** One dispatcher tick: what is committed before its query, and what is
      committed from its query to its end, by the dispatcher and by others. */
  datatype Tick = Tick(before: seq<Action>, during: seq<Action>)

  ghost predicate LegalTicks(db: Db, ticks: seq<Tick>)
    decreases |ticks|
  {
    ticks == [] ||
    (&& LegalRun(db, ticks[0].before)
     && var start := Exec(db, ticks[0].before);
        && LegalRun(start, ticks[0].during) && ServesSelected(start, ticks[0].during)
        && LegalTicks(Exec(start, ticks[0].during), ticks[1..]))
  }

  ghost function AfterTicks(db: Db, ticks: seq<Tick>): Db
    requires LegalTicks(db, ticks)
    decreases |ticks|
  {
    if ticks == [] then db
    else AfterTicks(Exec(Exec(db, ticks[0].before), ticks[0].during), ticks[1..])
  }

  lemma {:induction false} TicksAreLater(db: Db, ticks: seq<Tick>)
    requires Inv(db) && LegalTicks(db, ticks)
    ensures Later(db, AfterTicks(db, ticks))
    decreases |ticks|
  {
    hide Inv, Later, LegalRun, Exec, ServesSelected;
    if ticks == [] {
      LaterReflexive(db);
    } else {
      var start := Exec(db, ticks[0].before);
      var end := Exec(start, ticks[0].during);
      RunKeeps(db, ticks[0].before);
      RunKeeps(start, ticks[0].during);
      TicksAreLater(end, ticks[1..]);
      LaterTransitive(db, start, end);
      LaterTransitive(db, end, AfterTicks(db, ticks));
    }
  }

  /** Bounded bypass: a due attempt with m pending rows up to and including it is
      taken on within m / 50 completed ticks, rounded up, in every run of the
      ledger, whatever retries and new messages are added meanwhile. */
  lemma {:induction false} BoundedBypass(db: Db, ticks: seq<Tick>, r: nat)
    requires Inv(db) && LegalTicks(db, ticks)
    requires r < |db.deliveries| && IsDue(db.deliveries[r], db.now)
    requires |PendingUpTo(db.deliveries, r)| <= |ticks| * DUE_LIMIT
    ensures r < |AfterTicks(db, ticks).deliveries| && AfterTicks(db, ticks).deliveries[r].status != DeliveryPending
    decreases |ticks|
  {
    hide Inv, Later, LegalRun, Exec, ServesSelected, CompletedTick;
    assert r in PendingUpTo(db.deliveries, r);
    var start := Exec(db, ticks[0].before);
    var end := Exec(start, ticks[0].during);
    RunKeeps(db, ticks[0].before);
    RunKeeps(start, ticks[0].during);
    RowsStay(db, start);
    RowsStay(start, end);
    if end.deliveries[r].status == DeliveryPending {
      ServingRunCompletes(start, ticks[0].during);
      NothingReturnsToPending(db, start, r);
      SubsetSize(PendingUpTo(start.deliveries, r), PendingUpTo(db.deliveries, r));
      TickProgress(start, end, r);
      BoundedBypass(end, ticks[1..], r);
    } else {
      TicksAreLater(end, ticks[1..]);
      RowsStay(end, AfterTicks(end, ticks[1..]));
    }
  }

  lemma OtherRowsStay(db: Db, r: nat, http: Http, after: Db)
    requires r < |db.deliveries| && 1 <= db.deliveries[r].attempt && Dispatch(db, r, http) == Ok(after)
    ensures |db.deliveries| <= |after.deliveries| && after.now == db.now
    ensures forall q :: 0 <= q < |db.deliveries| && q != r ==> after.deliveries[q] == db.deliveries[q]
  {
  }

  lemma SelectedFacts(db: Db)
    requires Inv(db)
    ensures var rows := Selected(db.deliveries, db.now);
            && Attemptable(db, rows)
            && (forall k :: 0 <= k < |rows| ==> IsDue(db.deliveries[rows[k]], db.now))
            && (forall j, k :: 0 <= j < k < |rows| ==> rows[j] < rows[k])
  {
    hide Inv, Selected;
    SelectedRows(db.deliveries, db.now);
    var rows := Selected(db.deliveries, db.now);
    forall k | 0 <= k < |rows|
      ensures rows[k] < |db.deliveries| && 1 <= db.deliveries[rows[k]].attempt
    {
      DeliveryFacts(db, rows[k]);
    }
  }

  /** A tick that runs alone is a completed tick: it raises nothing and attempts
      all it selected. */
  lemma {:induction false} DispatchAllKeeps(db: Db, outcomes: seq<Http>, k: nat)
    requires Inv(db) && k <= |Selected(db.deliveries, db.now)|
    ensures Attemptable(db, Selected(db.deliveries, db.now))
    ensures var rows := Selected(db.deliveries, db.now);
            var r := DispatchAll(db, rows, outcomes, k);
            && r.Ok? && Inv(r.value) && Later(db, r.value) && r.value.now == db.now
            && (forall j :: 0 <= j < k ==> r.value.deliveries[rows[j]].status != DeliveryPending)
            && (forall j :: k <= j < |rows| ==> r.value.deliveries[rows[j]] == db.deliveries[rows[j]])
  {
    hide Inv, Later, Dispatch, Selected;
    SelectedFacts(db);
    if k == 0 {
      LaterReflexive(db);
    } else {
      DispatchAllKeeps(db, outcomes, k - 1);
      var rows := Selected(db.deliveries, db.now);
      var at := DispatchAll(db, rows, outcomes, k - 1).value;
      var http := HttpAt(outcomes, k - 1);
      DispatchIsLater(at, rows[k - 1], http);
      DispatchKeeps(at, rows[k - 1], http);
      var after := Dispatch(at, rows[k - 1], http).value;
      LaterTransitive(db, at, after);
      OtherRowsStay(at, rows[k - 1], http, after);
    }
  }

  lemma UninterruptedTick(db: Db, outcomes: seq<Http>)
    requires Inv(db)
    ensures Attemptable(db, Selected(db.deliveries, db.now))
    ensures var rows := Selected(db.deliveries, db.now);
            var r := DispatchAll(db, rows, outcomes, |rows|);
            r.Ok? && Inv(r.value) && CompletedTick(db, r.value)
  {
    hide Inv, Later, Selected, DispatchAll;
    DispatchAllKeeps(db, outcomes, |Selected(db.deliveries, db.now)|);
  }
}
